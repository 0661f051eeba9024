/** The session's payment table (app.py:9-14) and the three forms that change
    it: create with duplicate rejection (app.py:30-51), the transfer-status
    update (app.py:68-74) and delete (app.py:83-87). The table keeps its rows
    and the index labels of the underlying data frame; every change to the
    table ends by renumbering the labels 0..n-1. */
module PaymentTable {
  import opened PaymentRecords
  import opened PaymentReports

  /** No two rows are equal in every column. */
  predicate NoDuplicates(rows: seq<Payment>)
  {
    forall i, j :: 0 <= i < j < |rows| ==> rows[i] != rows[j]
  }

  /** Every row's flag and status agree (see Consistent). */
  predicate AllConsistent(rows: seq<Payment>)
  {
    forall k :: 0 <= k < |rows| ==> Consistent(rows[k])
  }

  /** The labels a freshly renumbered index carries: 0, 1, ..., n - 1. */
  function Positions(n: nat): seq<int>
  {
    seq(n, k => k)
  }

  /** The rows after the create form: the candidate is appended unless a row
      equal to it in every column is already there. */
  function AddIfAbsent(rows: seq<Payment>, p: Payment): (r: seq<Payment>)
    ensures p in r
    ensures forall q :: q in r <==> q in rows || q == p
    ensures |r| == if p in rows then |rows| else |rows| + 1
    ensures r[..|rows|] == rows
    ensures p !in rows ==> r[|rows|] == p
  {
    if p in rows then rows else rows + [p]
  }

  /** The sequence without its element at position `i`. */
  function RemoveAt<T>(s: seq<T>, i: nat): (r: seq<T>)
    requires i < |s|
    ensures |r| == |s| - 1
    ensures forall k :: 0 <= k < i ==> r[k] == s[k]
    ensures forall k :: i <= k < |s| - 1 ==> r[k] == s[k + 1]
    ensures multiset(r) + multiset{s[i]} == multiset(s)
  {
    assert s == s[..i] + [s[i]] + s[i + 1..];
    s[..i] + s[i + 1..]
  }

  /** The rows after the update form stores `transferred` on row `i`. */
  function UpdateAt(rows: seq<Payment>, i: nat, transferred: bool): (r: seq<Payment>)
    requires i < |rows|
    ensures |r| == |rows|
    ensures forall k :: 0 <= k < |rows| && k != i ==> r[k] == rows[k]
    ensures r[i].(transferredToBank := rows[i].transferredToBank, status := rows[i].status) == rows[i]
    ensures r[i].transferredToBank == Flag(transferred)
    ensures r[i].status == StatusFor(transferred, rows[i].receivedBy)
  {
    rows[i := SetTransfer(rows[i], transferred)]
  }

  /** No label occurs twice. */
  predicate DistinctLabels(labels: seq<int>)
  {
    forall j, k :: 0 <= j < k < |labels| ==> labels[j] != labels[k]
  }

  /** Dropping by index label: every row labelled `key` goes, together with
      its label; the others keep their order and labels. */
  function DropLabel<T>(rows: seq<T>, labels: seq<int>, key: int): (r: (seq<T>, seq<int>))
    requires |rows| == |labels|
    ensures |r.0| == |r.1| <= |rows|
    ensures forall k :: 0 <= k < |r.1| ==> r.1[k] != key
    ensures (forall k :: 0 <= k < |labels| ==> labels[k] != key) ==> r == (rows, labels)
  {
    if rows == [] then ([], [])
    else
      var rest := DropLabel(rows[1..], labels[1..], key);
      assert rows == [rows[0]] + rows[1..] && labels == [labels[0]] + labels[1..];
      if labels[0] == key then rest else ([rows[0]] + rest.0, [labels[0]] + rest.1)
  }

  // ---------------------------------------------------------------- create

  /** A table without duplicate rows keeps that property through a create. */
  lemma AddIfAbsentKeepsNoDuplicates(rows: seq<Payment>, p: Payment)
    ensures NoDuplicates(rows) ==> NoDuplicates(AddIfAbsent(rows, p))
  {
    if NoDuplicates(rows) && p !in rows {
      var r := rows + [p];
      forall i, j | 0 <= i < j < |r| ensures r[i] != r[j] {
        if j == |rows| {
          assert r[i] == rows[i];
        }
      }
    }
  }

  /** Submitting the same create form twice on the same day adds one row. */
  lemma AddIfAbsentTwice(rows: seq<Payment>, p: Payment)
    ensures AddIfAbsent(AddIfAbsent(rows, p), p) == AddIfAbsent(rows, p)
  {
  }

  /** A create keeps every row's flag and status in agreement. */
  lemma AddIfAbsentKeepsConsistent(rows: seq<Payment>, p: Payment)
    requires AllConsistent(rows) && Consistent(p)
    ensures AllConsistent(AddIfAbsent(rows, p))
  {
  }

  /** A create adds the candidate's amount to the total and to its method's
      sum exactly when it is accepted. */
  lemma AddIfAbsentReports(rows: seq<Payment>, p: Payment, m: PayMethod)
    ensures Total(AddIfAbsent(rows, p)) == Total(rows) + (if p in rows then 0 else p.amount)
    ensures MethodSum(AddIfAbsent(rows, p), m)
         == MethodSum(rows, m) + (if p !in rows && p.payMethod == m then p.amount else 0)
  {
    if p !in rows {
      TotalAppend(rows, [p]);
      MethodSumAppend(rows, [p], m);
      assert [p][1..] == [];
    }
  }

  // ---------------------------------------------------------------- update

  /** An update keeps every row's flag and status in agreement. */
  lemma UpdateAtKeepsConsistent(rows: seq<Payment>, i: nat, transferred: bool)
    requires i < |rows| && AllConsistent(rows)
    ensures AllConsistent(UpdateAt(rows, i, transferred))
  {
  }

  /** A status update changes neither the total nor the per-method report. */
  lemma UpdateAtKeepsReports(rows: seq<Payment>, i: nat, transferred: bool)
    requires i < |rows|
    ensures Total(UpdateAt(rows, i, transferred)) == Total(rows)
    ensures GroupSums(UpdateAt(rows, i, transferred)) == GroupSums(rows)
  {
    var p := SetTransfer(rows[i], transferred);
    ReplaceKeepsTotal(rows, i, p);
    ReplaceKeepsGroups(rows, i, p);
  }

  /** Unlike create and delete, the update does not keep the table free of duplicates:
      in this duplicate-free table, two rows that differ only in flag and
      status become equal. */
  lemma UpdateCanDuplicate()
    ensures var p := NewPayment(10, 1, "Acme", 10000, Cash, "Sam", false);
            var rows := [p, SetTransfer(p, true)];
            NoDuplicates(rows) && !NoDuplicates(UpdateAt(rows, 0, true))
  {
    var p := NewPayment(10, 1, "Acme", 10000, Cash, "Sam", false);
    var q := SetTransfer(p, true);
    assert p.transferredToBank[0] != q.transferredToBank[0];
    var rows := [p, q];
    assert NoDuplicates(rows);
    var r := UpdateAt(rows, 0, true);
    assert r[0] == q == r[1];
  }

  // ---------------------------------------------------------------- delete

  /** A delete keeps the table free of duplicates. */
  lemma RemoveAtKeepsNoDuplicates(rows: seq<Payment>, i: nat)
    requires i < |rows| && NoDuplicates(rows)
    ensures NoDuplicates(RemoveAt(rows, i))
  {
    var r := RemoveAt(rows, i);
    forall a, b | 0 <= a < b < |r| ensures r[a] != r[b] {
      var a' := if a < i then a else a + 1;
      var b' := if b < i then b else b + 1;
      assert r[a] == rows[a'] && r[b] == rows[b'];
    }
  }

  /** A delete keeps every row's flag and status in agreement. */
  lemma RemoveAtKeepsConsistent(rows: seq<Payment>, i: nat)
    requires i < |rows| && AllConsistent(rows)
    ensures AllConsistent(RemoveAt(rows, i))
  {
  }

  /** A delete takes exactly the removed row's amount out of the total and
      out of its method's sum. */
  lemma RemoveAtReports(rows: seq<Payment>, i: nat, m: PayMethod)
    requires i < |rows|
    ensures Total(RemoveAt(rows, i)) == Total(rows) - rows[i].amount
    ensures MethodSum(RemoveAt(rows, i), m)
         == MethodSum(rows, m) - (if rows[i].payMethod == m then rows[i].amount else 0)
  {
    assert rows == rows[..i] + ([rows[i]] + rows[i + 1..]);
    TotalAppend(rows[..i], [rows[i]] + rows[i + 1..]);
    TotalAppend(rows[..i], rows[i + 1..]);
    MethodSumAppend(rows[..i], [rows[i]] + rows[i + 1..], m);
    MethodSumAppend(rows[..i], rows[i + 1..], m);
    assert ([rows[i]] + rows[i + 1..])[1..] == rows[i + 1..];
  }

  /** When labels are distinct, dropping the label at position i removes
      exactly that row and that label, keeping the others in order. */
  lemma {:induction false} DropDistinctLabel<T>(rows: seq<T>, labels: seq<int>, i: nat)
    requires |rows| == |labels| && DistinctLabels(labels) && i < |labels|
    ensures DropLabel(rows, labels, labels[i]) == (RemoveAt(rows, i), RemoveAt(labels, i))
  {
    var key := labels[i];
    var tail := labels[1..];
    assert forall k :: 0 <= k < |tail| ==> tail[k] == labels[k + 1];
    if i == 0 {
      assert forall k :: 0 <= k < |tail| ==> tail[k] != key;
      assert DropLabel(rows[1..], tail, key) == (rows[1..], tail);
      assert RemoveAt(rows, 0) == rows[1..] && RemoveAt(labels, 0) == tail;
    } else {
      assert labels[0] != key;
      assert DistinctLabels(tail);
      DropDistinctLabel(rows[1..], tail, i - 1);
      RemoveAtCons(rows, i);
      RemoveAtCons(labels, i);
    }
  }

  lemma RemoveAtCons<T>(s: seq<T>, i: nat)
    requires 0 < i < |s|
    ensures RemoveAt(s, i) == [s[0]] + RemoveAt(s[1..], i - 1)
  {
    assert s[..i] == [s[0]] + s[1..][..i - 1];
    assert s[i + 1..] == s[1..][i..];
  }

  /** On a renumbered index, dropping label i removes the row at position i. */
  lemma DropContiguous<T>(rows: seq<T>, i: nat)
    requires i < |rows|
    ensures DropLabel(rows, Positions(|rows|), i).0 == RemoveAt(rows, i)
  {
    assert DistinctLabels(Positions(|rows|));
    DropDistinctLabel(rows, Positions(|rows|), i);
  }

  // ---------------------------------------------------------------- the table

  /** The session table: its rows and the labels of its index. */
  class Table {
    var rows: seq<Payment>
    var labels: seq<int>

    /** Labels are 0..n-1 in row order and every row's status matches its flag. */
    ghost predicate Valid()
      reads this
    {
      labels == Positions(|rows|) && AllConsistent(rows)
    }

    /** The empty table with the eight columns. */
    constructor ()
      ensures Valid() && rows == []
    {
      rows, labels := [], [];
    }

    /** Renumbers the index 0..n-1, dropping the old labels. */
    method ResetIndex()
      modifies this
      ensures rows == old(rows) && labels == Positions(|rows|)
    {
      labels := Positions(|rows|);
    }

    /** The create form: builds the candidate row and appends it unless an
        equal row is already in the table. */
    method Create(today: int, date: int, customerName: string, amount: nat,
                  payMethod: PayMethod, receivedBy: string, transferred: bool)
      returns (added: bool)
      requires Valid()
      modifies this
      ensures Valid()
      ensures var p := NewPayment(today, date, customerName, amount, payMethod, receivedBy, transferred);
              (added <==> p !in old(rows)) &&
              rows == (if added then old(rows) + [p] else old(rows)) &&
              rows == AddIfAbsent(old(rows), p)
      ensures NoDuplicates(old(rows)) ==> NoDuplicates(rows)
    {
      var candidate := NewPayment(today, date, customerName, amount, payMethod, receivedBy, transferred);
      AddIfAbsentKeepsNoDuplicates(rows, candidate);
      added := candidate !in rows;
      if added {
        // the one-row frame brings its own label 0 into the concatenation
        rows, labels := rows + [candidate], labels + [0];
        ResetIndex();
      }
    }

    /** The update form: stores the flag and the regenerated status on the row
        labelled `key`, reading the receiver from that same row. */
    method UpdateTransfer(key: int, transferred: bool)
      requires Valid() && 0 <= key < |rows|
      modifies this
      ensures Valid()
      ensures |rows| == |old(rows)|
      ensures forall k :: 0 <= k < |rows| && k != key ==> rows[k] == old(rows[k])
      ensures rows[key] == old(rows[key]).(transferredToBank := Flag(transferred),
                                               status := StatusFor(transferred, old(rows[key]).receivedBy))
      ensures rows == UpdateAt(old(rows), key, transferred)
    {
      // the row is read by position and written by label; on a renumbered
      // index both are `key`
      var selected := rows[key];
      rows := rows[key := rows[key].(transferredToBank := Flag(transferred))];
      rows := rows[key := rows[key].(status := StatusFor(transferred, selected.receivedBy))];
      ResetIndex();
    }

    /** The delete form: drops the row labelled `key` and renumbers. */
    method Delete(key: int)
      requires Valid() && 0 <= key < |rows|
      modifies this
      ensures Valid()
      ensures |rows| == |old(rows)| - 1
      ensures forall k :: 0 <= k < key ==> rows[k] == old(rows[k])
      ensures forall k :: key <= k < |rows| ==> rows[k] == old(rows[k + 1])
      ensures rows == RemoveAt(old(rows), key)
    {
      DropContiguous(rows, key);
      RemoveAtKeepsConsistent(rows, key);
      var kept := DropLabel(rows, labels, key);
      rows, labels := kept.0, kept.1;
      ResetIndex();
    }
  }
}
