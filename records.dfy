/** One row of the payment table and the fields the create and update forms
    derive from their inputs (app.py). Dates are day numbers and amounts are
    whole cents; the current date is a parameter. */
module PaymentRecords {

  datatype Option<T> = None | Some(value: T)

  /** The four choices of the "Payment Method" select box. */
  datatype PayMethod = Check | CreditCard | Cash | BankTransfer

  /** The eight columns of the session table, in the order the table declares them. */
  datatype Payment = Payment(
    date: int,
    customerName: string,
    amount: nat,
    payMethod: PayMethod,
    receivedBy: string,
    transferredToBank: string,
    status: string,
    days: int)

  const Yes: string := "Yes"
  const No: string := "No"
  const TransferredStatus: string := "Transferred to Bank"
  const WaitingPrefix: string := "Waiting Payment from "

  /** Rows older than this many days that are not yet banked are overdue. */
  const OverdueDays: int := 7

  /** The text stored in the "Transferred to Bank" column. */
  function Flag(transferred: bool): (s: string)
    ensures s == Yes <==> transferred
    ensures s == No <==> !transferred
  {
    if transferred then Yes else No
  }

  /** The text stored in the "Status" column. */
  function StatusFor(transferred: bool, receivedBy: string): (s: string)
    ensures s == TransferredStatus <==> transferred
    ensures !transferred ==> |WaitingPrefix| <= |s| && s[..|WaitingPrefix|] == WaitingPrefix
                             && s[|WaitingPrefix|..] == receivedBy
  {
    if transferred then TransferredStatus else WaitingPrefix + receivedBy
  }

  /** Reads a status back: the receiver's name when it is a waiting message. */
  function WaitingOn(status: string): (r: Option<string>)
    ensures r.Some? <==> exists name :: status == WaitingPrefix + name
    ensures r.Some? ==> status == WaitingPrefix + r.value
  {
    var n := |WaitingPrefix|;
    if n <= |status| && status[..n] == WaitingPrefix then
      assert status == status[..n] + status[n..];
      Some(status[n..])
    else
      assert forall name :: (WaitingPrefix + name)[..n] == WaitingPrefix;
      None
  }

  /** A status names the transfer exactly when the flag is set, and otherwise
      the receiver can be read back from it. */
  lemma StatusRoundTrip(transferred: bool, receivedBy: string)
    ensures WaitingOn(StatusFor(transferred, receivedBy))
         == if transferred then None else Some(receivedBy)
  {
    if !transferred {
      var s := StatusFor(false, receivedBy);
      assert s[..|WaitingPrefix|] == WaitingPrefix;
      assert s[|WaitingPrefix|..] == receivedBy;
    }
  }

  /** Distinct (flag, receiver) pairs give distinct status texts, except that
      every transferred row reads the same. */
  lemma StatusDeterminesFlag(t1: bool, r1: string, t2: bool, r2: string)
    requires StatusFor(t1, r1) == StatusFor(t2, r2)
    ensures t1 == t2
    ensures !t1 ==> r1 == r2
  {
    StatusRoundTrip(t1, r1);
    StatusRoundTrip(t2, r2);
  }

  predicate IsTransferred(p: Payment)
  {
    p.transferredToBank == Yes
  }

  /** The flag column holds "Yes" or "No" and the status is the one derived
      from that flag and the row's own receiver. */
  predicate Consistent(p: Payment)
  {
    (p.transferredToBank == Yes || p.transferredToBank == No) &&
    p.status == StatusFor(IsTransferred(p), p.receivedBy)
  }

  /** The row the create form builds from its inputs on day `today`. */
  function NewPayment(today: int, date: int, customerName: string, amount: nat,
                      payMethod: PayMethod, receivedBy: string, transferred: bool): (p: Payment)
    ensures Consistent(p) && (IsTransferred(p) <==> transferred)
    ensures WaitingOn(p.status) == if transferred then None else Some(receivedBy)
    ensures p.days == today - date
    ensures p.days == 0 <==> date == today
    ensures p.date == date && p.customerName == customerName && p.amount == amount
    ensures p.payMethod == payMethod && p.receivedBy == receivedBy
  {
    StatusRoundTrip(transferred, receivedBy);
    Payment(date, customerName, amount, payMethod, receivedBy,
            Flag(transferred), StatusFor(transferred, receivedBy), today - date)
  }

  /** The row after the update form stores a new flag: only the flag and
      the status change, and the status is regenerated from the row's receiver. */
  function SetTransfer(p: Payment, transferred: bool): (q: Payment)
    ensures Consistent(q) && (IsTransferred(q) <==> transferred)
    ensures q.(transferredToBank := p.transferredToBank, status := p.status) == p
    ensures WaitingOn(q.status) == if transferred then None else Some(p.receivedBy)
  {
    StatusRoundTrip(transferred, p.receivedBy);
    p.(transferredToBank := Flag(transferred), status := StatusFor(transferred, p.receivedBy))
  }

  /** Only the last stored flag matters. */
  lemma SetTransferLastWins(p: Payment, a: bool, b: bool)
    ensures SetTransfer(SetTransfer(p, a), b) == SetTransfer(p, b)
  {
  }

  /** Submitting the flag a consistent row already has changes nothing. */
  lemma SetTransferSameFlag(p: Payment)
    requires Consistent(p)
    ensures SetTransfer(p, IsTransferred(p)) == p
  {
  }

  /** Updating a freshly created row gives the row the create form would
      have built with the new flag. */
  lemma SetTransferOfNew(today: int, date: int, customerName: string, amount: nat,
                         payMethod: PayMethod, receivedBy: string, a: bool, b: bool)
    ensures SetTransfer(NewPayment(today, date, customerName, amount, payMethod, receivedBy, a), b)
         == NewPayment(today, date, customerName, amount, payMethod, receivedBy, b)
  {
  }

  /** The rule of the row style the records tab builds (app.py:99-102); the
      tab passes the unstyled table to its editor, so the style is never shown. */
  predicate Overdue(p: Payment)
    ensures Overdue(p) ==> !IsTransferred(p) && p.days >= OverdueDays + 1
  {
    p.transferredToBank == No && p.days > OverdueDays
  }

  /** On a consistent row, overdue means: the status still waits on the
      receiver and the payment is more than a week old. */
  lemma OverdueMeansWaiting(p: Payment)
    requires Consistent(p)
    ensures Overdue(p) <==> WaitingOn(p.status) == Some(p.receivedBy) && p.days > OverdueDays
  {
    StatusRoundTrip(IsTransferred(p), p.receivedBy);
  }

  /** A new row is overdue exactly when it is not banked and its date lies
      more than a week before the day it was entered. */
  lemma OverdueNew(today: int, date: int, customerName: string, amount: nat,
                   payMethod: PayMethod, receivedBy: string, transferred: bool)
    ensures Overdue(NewPayment(today, date, customerName, amount, payMethod, receivedBy, transferred))
        <==> !transferred && date < today - OverdueDays
  {
  }

  /** Marking a row as banked makes it not overdue; marking it as not banked
      makes it overdue exactly when it is more than a week old. */
  lemma OverdueAfterTransfer(p: Payment, transferred: bool)
    ensures Overdue(SetTransfer(p, transferred)) <==> !transferred && p.days > OverdueDays
  {
  }
}
