/** The read-only figures of the analytics tab (app.py:118-120): the total of
    all amounts and the sum of amounts per payment method. */
module PaymentReports {
  import opened PaymentRecords

  /** Sum of the "Amount" column. */
  function Total(rows: seq<Payment>): (t: nat)
    ensures rows == [] ==> t == 0
    ensures forall k :: 0 <= k < |rows| ==> rows[k].amount <= t
  {
    if rows == [] then 0 else rows[0].amount + Total(rows[1..])
  }

  /** Sum of the "Amount" column over the rows paid by method `m`. */
  function MethodSum(rows: seq<Payment>, m: PayMethod): (s: nat)
    ensures rows == [] ==> s == 0
    ensures forall k :: 0 <= k < |rows| && rows[k].payMethod == m ==> rows[k].amount <= s
  {
    if rows == [] then 0
    else (if rows[0].payMethod == m then rows[0].amount else 0) + MethodSum(rows[1..], m)
  }

  /** The methods that occur in the table: the groups the report lists. */
  function MethodsOf(rows: seq<Payment>): set<PayMethod>
  {
    set k | 0 <= k < |rows| :: rows[k].payMethod
  }

  /** The per-method report: one entry for each method that occurs. */
  function GroupSums(rows: seq<Payment>): (g: map<PayMethod, nat>)
    ensures g.Keys == MethodsOf(rows)
    ensures forall m :: m in g ==> g[m] == MethodSum(rows, m)
  {
    map m | m in MethodsOf(rows) :: MethodSum(rows, m)
  }

  /** All methods, in the order the report sorts its labels. */
  const AllMethods: seq<PayMethod> := [BankTransfer, Cash, Check, CreditCard]

  /** Sum of the values a report lists for the methods `ms`. */
  function SumOfGroups(g: map<PayMethod, nat>, ms: seq<PayMethod>): nat
  {
    if ms == [] then 0
    else (if ms[0] in g then g[ms[0]] else 0) + SumOfGroups(g, ms[1..])
  }

  lemma {:induction false} TotalAppend(a: seq<Payment>, b: seq<Payment>)
    ensures Total(a + b) == Total(a) + Total(b)
  {
    if a == [] {
      assert a + b == b;
    } else {
      assert (a + b)[1..] == a[1..] + b;
      TotalAppend(a[1..], b);
    }
  }

  lemma {:induction false} MethodSumAppend(a: seq<Payment>, b: seq<Payment>, m: PayMethod)
    ensures MethodSum(a + b, m) == MethodSum(a, m) + MethodSum(b, m)
  {
    if a == [] {
      assert a + b == b;
    } else {
      assert (a + b)[1..] == a[1..] + b;
      MethodSumAppend(a[1..], b, m);
    }
  }

  /** No group exceeds the total. */
  lemma {:induction false} MethodSumAtMostTotal(rows: seq<Payment>, m: PayMethod)
    ensures MethodSum(rows, m) <= Total(rows)
  {
    if rows != [] {
      MethodSumAtMostTotal(rows[1..], m);
    }
  }

  /** A method that occurs in no row sums to zero. */
  lemma {:induction false} MethodSumAbsent(rows: seq<Payment>, m: PayMethod)
    requires m !in MethodsOf(rows)
    ensures MethodSum(rows, m) == 0
  {
    if rows != [] {
      assert rows[0].payMethod in MethodsOf(rows);
      assert MethodsOf(rows[1..]) <= MethodsOf(rows) by {
        forall x | x in MethodsOf(rows[1..]) ensures x in MethodsOf(rows) {
          var k :| 0 <= k < |rows| - 1 && rows[1..][k].payMethod == x;
          assert rows[k + 1].payMethod == x;
        }
      }
      MethodSumAbsent(rows[1..], m);
    }
  }

  /** The four method sums split the total. */
  lemma {:induction false} MethodSumsSplitTotal(rows: seq<Payment>)
    ensures MethodSum(rows, BankTransfer) + MethodSum(rows, Cash)
          + MethodSum(rows, Check) + MethodSum(rows, CreditCard) == Total(rows)
  {
    if rows != [] {
      MethodSumsSplitTotal(rows[1..]);
    }
  }

  /** The per-method report adds up to the total payments figure. */
  lemma GroupsAddUpToTotal(rows: seq<Payment>)
    ensures SumOfGroups(GroupSums(rows), AllMethods) == Total(rows)
  {
    var g := GroupSums(rows);
    forall m | m !in g ensures MethodSum(rows, m) == 0 {
      MethodSumAbsent(rows, m);
    }
    var ms := AllMethods;
    assert ms[1..][1..][1..][1..] == [];
    assert SumOfGroups(g, ms[1..][1..][1..]) == MethodSum(rows, CreditCard);
    assert SumOfGroups(g, ms[1..][1..]) == MethodSum(rows, Check) + MethodSum(rows, CreditCard);
    assert SumOfGroups(g, AllMethods)
        == MethodSum(rows, BankTransfer) + MethodSum(rows, Cash)
         + MethodSum(rows, Check) + MethodSum(rows, CreditCard);
    MethodSumsSplitTotal(rows);
  }

  /** Replacing one row by one with the same amount leaves the total unchanged. */
  lemma {:induction false} ReplaceKeepsTotal(rows: seq<Payment>, i: nat, p: Payment)
    requires i < |rows|
    requires p.amount == rows[i].amount
    ensures Total(rows[i := p]) == Total(rows)
  {
    if i > 0 {
      assert rows[i := p][1..] == rows[1..][i - 1 := p];
      ReplaceKeepsTotal(rows[1..], i - 1, p);
    } else {
      assert rows[i := p][1..] == rows[1..];
    }
  }

  /** Replacing one row by one with the same amount and method leaves every
      method's sum unchanged. */
  lemma {:induction false} ReplaceKeepsMethodSum(rows: seq<Payment>, i: nat, p: Payment, m: PayMethod)
    requires i < |rows|
    requires p.amount == rows[i].amount && p.payMethod == rows[i].payMethod
    ensures MethodSum(rows[i := p], m) == MethodSum(rows, m)
  {
    if i > 0 {
      assert rows[i := p][1..] == rows[1..][i - 1 := p];
      ReplaceKeepsMethodSum(rows[1..], i - 1, p, m);
    } else {
      assert rows[i := p][1..] == rows[1..];
    }
  }

  /** Replacing one row by one with the same amount and method leaves the
      per-method report unchanged. */
  lemma ReplaceKeepsGroups(rows: seq<Payment>, i: nat, p: Payment)
    requires i < |rows|
    requires p.amount == rows[i].amount && p.payMethod == rows[i].payMethod
    ensures GroupSums(rows[i := p]) == GroupSums(rows)
  {
    var r := rows[i := p];
    assert MethodsOf(r) == MethodsOf(rows) by {
      assert forall k :: 0 <= k < |rows| ==> r[k].payMethod == rows[k].payMethod;
    }
    forall m | m in MethodsOf(rows) ensures MethodSum(r, m) == MethodSum(rows, m) {
      ReplaceKeepsMethodSum(rows, i, p, m);
    }
  }
}
