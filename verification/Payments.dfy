/**
 * The payment workflow of a salary period: finalize, approve, mark paid, reopen and the two routes that
 * bypass it, interleaved with recomputes that may move the total at any moment. Amounts are cents.
 */
module Payments {
  import opened Options

  datatype Status = Draft | Finalized | Approved | PartiallyPaid | Paid

  /** One row of `salary_periods` with the amounts of the transactions linked to it. */
  datatype Row = Row(
    status: Status, total: int, paid: int, payments: seq<int>,
    finalizedAt: Option<int>, approvedAt: Option<int>, paidAt: Option<int>)

  const NEW_ROW := Row(Draft, 0, 0, [], None, None, None)

  datatype Event =
    | Recompute(newTotal: int)
    | Finalize(now: int)
    | Approve(now: int)
    | MarkPaid(now: int)
    | Reopen
    | FinalizeByHand(now: int)                   // the finalize route, which looks at no status
    | Transact(amount: int, full: bool)          // a transaction entered by hand

  function Finalize'(p: Row, now: int): Row {
    if p.status == Draft then p.(status := Finalized, finalizedAt := Some(now)) else p
  }

  function Approve'(p: Row, now: int): Row {
    if p.status in {Approved, Paid} then p
    else p.(status := Approved, approvedAt := Some(now),
            finalizedAt := if p.finalizedAt == None then Some(now) else p.finalizedAt)
  }

  function MarkPaid'(p: Row, now: int): Row {
    var pending := p.total - p.paid;
    var settled := if pending > 0 then p.(paid := p.paid + pending, payments := p.payments + [pending]) else p;
    settled.(status := Paid, paidAt := Some(now),
             approvedAt := if p.approvedAt == None then Some(now) else p.approvedAt)
  }

  /** `None` is the refusal `period_has_payments`. */
  function Reopen'(p: Row): Option<Row> {
    if p.paid > 0 then None
    else Some(p.(status := Draft, approvedAt := None, finalizedAt := None))
  }

  /** The schema admits positive amounts only. */
  function Transact'(p: Row, amount: int, full: bool): Row {
    if amount <= 0 then p
    else p.(paid := p.paid + amount, payments := p.payments + [amount], status := if full then Paid else p.status)
  }

  function Step(p: Row, e: Event): Row {
    match e
    case Recompute(t) => p.(total := t)
    case Finalize(now) => Finalize'(p, now)
    case Approve(now) => Approve'(p, now)
    case MarkPaid(now) => MarkPaid'(p, now)
    case Reopen => if Reopen'(p).Some? then Reopen'(p).value else p
    case FinalizeByHand(now) => p.(status := Finalized, finalizedAt := Some(now))
    case Transact(amount, full) => Transact'(p, amount, full)
  }

  function Run(p: Row, events: seq<Event>): Row {
    var n := |events|;
    if n == 0 then p else Step(Run(p, events[..n - 1]), events[n - 1])
  }

  // ---- The rows as the service updates them ---------------------------------------------------

  class SalaryPeriod {
    var status: Status
    var totalEarned: int
    var paidAmount: int
    var transactions: seq<int>
    var finalizedAt: Option<int>
    var approvedAt: Option<int>
    var paidAt: Option<int>

    ghost function View(): Row
      reads this
    {
      Row(status, totalEarned, paidAmount, transactions, finalizedAt, approvedAt, paidAt)
    }

    constructor ()
      ensures View() == NEW_ROW
    {
      status, totalEarned, paidAmount, transactions := Draft, 0, 0, [];
      finalizedAt, approvedAt, paidAt := None, None, None;
    }

    method Approve(now: int)
      modifies this
      ensures View() == Approve'(old(View()), now)
    {
      if status in {Approved, Paid} {
        return;
      }
      status := Approved;
      approvedAt := Some(now);
      if finalizedAt == None {
        finalizedAt := approvedAt;
      }
    }

    /** Returns the amount of the transaction it created, if any. */
    method MarkPaid(now: int) returns (created: Option<int>)
      modifies this
      ensures View() == MarkPaid'(old(View()), now)
      ensures created == if old(totalEarned) > old(paidAmount) then Some(old(totalEarned - paidAmount)) else None
    {
      created := None;
      var pending := totalEarned - paidAmount;
      if pending > 0 {
        created := Some(pending);
        transactions := transactions + [pending];
        paidAmount := paidAmount + pending;
      }
      status := Paid;
      paidAt := Some(now);
      if approvedAt == None {
        approvedAt := Some(now);
      }
    }

    /** `POST /{period_id}/finalize`. */
    method FinalizeRoute(now: int)
      modifies this
      ensures View() == Step(old(View()), FinalizeByHand(now))
    {
      status := Finalized;
      finalizedAt := Some(now);
    }

    /** `POST /transactions` with a period; a non-positive amount is refused by the schema. */
    method CreateTransaction(amount: int, full: bool) returns (ok: bool)
      modifies this
      ensures ok <==> amount > 0
      ensures View() == Step(old(View()), Transact(amount, full))
    {
      if amount <= 0 {
        return false;
      }
      transactions := transactions + [amount];
      paidAmount := paidAmount + amount;
      if full {
        status := Paid;
      }
      ok := true;
    }

    method Reopen() returns (ok: bool)
      modifies this
      ensures ok <==> Reopen'(old(View())).Some?
      ensures View() == if ok then Reopen'(old(View())).value else old(View())
    {
      if paidAmount > 0 {
        return false;
      }
      status := Draft;
      approvedAt, finalizedAt := None, None;
      ok := true;
    }
  }

  ghost predicate Distinct(rows: seq<SalaryPeriod>) {
    forall i, j :: 0 <= i < j < |rows| ==> rows[i] != rows[j]
  }

  ghost function Views(rows: seq<SalaryPeriod>): (views: seq<Row>)
    reads rows
    ensures |views| == |rows| && forall i :: 0 <= i < |rows| ==> views[i] == rows[i].View()
  {
    seq(|rows|, i requires 0 <= i < |rows| reads rows => rows[i].View())
  }

  function CountDraft(rows: seq<Row>): nat { Count(rows, (p: Row) => p.status == Draft) }

  /** `_monthly_finalize_async` over the rows of a month. */
  method MonthlyFinalize(rows: seq<SalaryPeriod>, now: int) returns (finalized: nat)
    requires Distinct(rows)
    modifies rows
    ensures forall i :: 0 <= i < |rows| ==> rows[i].View() == Finalize'(old(Views(rows))[i], now)
    ensures finalized == CountDraft(old(Views(rows)))
  {
    finalized := 0;
    ghost var before := Views(rows);
    for k := 0 to |rows|
      invariant forall i :: 0 <= i < k ==> rows[i].View() == Finalize'(before[i], now)
      invariant forall i :: k <= i < |rows| ==> rows[i].View() == before[i]
      invariant finalized == CountDraft(before[..k])
    {
      assert before[..k + 1][..k] == before[..k];
      if rows[k].status == Draft {
        rows[k].status := Finalized;
        rows[k].finalizedAt := Some(now);
        finalized := finalized + 1;
      }
    }
    assert before[..|rows|] == before;
  }

  predicate Approvable(p: Row) { p.status in {Draft, Finalized} }

  function BulkApproved(p: Row, now: int): Row { if Approvable(p) then Approve'(p, now) else p }

  function CountApprovable(rows: seq<Row>): nat { Count(rows, (p: Row) => Approvable(p)) }

  method BulkApprove(rows: seq<SalaryPeriod>, now: int) returns (touched: nat)
    requires Distinct(rows)
    modifies rows
    ensures forall i :: 0 <= i < |rows| ==> rows[i].View() == BulkApproved(old(Views(rows))[i], now)
    ensures touched == CountApprovable(old(Views(rows)))
  {
    touched := 0;
    ghost var before := Views(rows);
    for k := 0 to |rows|
      invariant forall i :: 0 <= i < k ==> rows[i].View() == BulkApproved(before[i], now)
      invariant forall i :: k <= i < |rows| ==> rows[i].View() == before[i]
      invariant touched == CountApprovable(before[..k])
    {
      assert before[..k + 1][..k] == before[..k];
      if rows[k].status in {Draft, Finalized} {
        rows[k].Approve(now);
        touched := touched + 1;
      }
    }
    assert before[..|rows|] == before;
  }

  predicate Payable(p: Row) { p.status in {Approved, Finalized, PartiallyPaid} && p.total > 0 }

  function BulkPaid(p: Row, now: int): Row { if Payable(p) then MarkPaid'(p, now) else p }

  function CountPayable(rows: seq<Row>): nat { Count(rows, (p: Row) => Payable(p)) }

  method BulkMarkPaid(rows: seq<SalaryPeriod>, now: int) returns (paid: nat)
    requires Distinct(rows)
    modifies rows
    ensures forall i :: 0 <= i < |rows| ==> rows[i].View() == BulkPaid(old(Views(rows))[i], now)
    ensures paid == CountPayable(old(Views(rows)))
  {
    paid := 0;
    ghost var before := Views(rows);
    for k := 0 to |rows|
      invariant forall i :: 0 <= i < k ==> rows[i].View() == BulkPaid(before[i], now)
      invariant forall i :: k <= i < |rows| ==> rows[i].View() == before[i]
      invariant paid == CountPayable(before[..k])
    {
      assert before[..k + 1][..k] == before[..k];
      if rows[k].status in {Approved, Finalized, PartiallyPaid} && rows[k].totalEarned > 0 {
        var _ := rows[k].MarkPaid(now);
        paid := paid + 1;
      }
    }
    assert before[..|rows|] == before;
  }

  // ---- What every run of one period keeps -----------------------------------------------------

  function Sum(amounts: seq<int>): int {
    var n := |amounts|;
    if n == 0 then 0 else Sum(amounts[..n - 1]) + amounts[n - 1]
  }

  function Max(a: int, b: int): int { if a < b then b else a }

  /** Each mark-paid tops the money up to the total standing then; each entered transaction adds to it. */
  function MoneyDue(events: seq<Event>): int {
    var n := |events|;
    if n == 0 then 0
    else
      var before := MoneyDue(events[..n - 1]);
      match events[n - 1]
      case MarkPaid(_) => Max(before, Run(NEW_ROW, events[..n - 1]).total)
      case Transact(amount, _) => Max(before, before + amount)
      case _ => before
  }

  /** Nothing but the workflow itself touched the period. */
  predicate Workflow(events: seq<Event>) {
    forall e :: e in events ==> !e.FinalizeByHand? && !e.Transact?
  }

  predicate Stamped(p: Row) {
    && (p.approvedAt.Some? <==> p.status in {Approved, Paid})
    && (p.status == Draft ==> p.finalizedAt == None)
    && (p.status in {Finalized, Approved} ==> p.finalizedAt.Some?)
    && (p.status == Paid ==> p.paidAt.Some?)
  }

  ghost predicate MoneyOk(p: Row, due: int) {
    && p.paid == Sum(p.payments) == due && due >= 0
    && (forall i :: 0 <= i < |p.payments| ==> p.payments[i] > 0)
    && p.status != PartiallyPaid
  }

  ghost predicate WorkflowOk(p: Row) {
    (p.paid > 0 ==> p.status == Paid) && Stamped(p)
  }

  lemma SumOfAppended(amounts: seq<int>, amount: int)
    ensures Sum(amounts + [amount]) == Sum(amounts) + amount
  {
    assert (amounts + [amount])[..|amounts|] == amounts;
  }

  lemma PaymentKeepsMoneyOk(p: Row, due: int, amount: int)
    requires MoneyOk(p, due) && amount > 0
    ensures MoneyOk(p.(paid := p.paid + amount, payments := p.payments + [amount]), due + amount)
  {
    SumOfAppended(p.payments, amount);
    hide Sum;
  }

  lemma StepKeepsMoneyOk(p: Row, e: Event, due: int)
    requires MoneyOk(p, due)
    ensures MoneyOk(Step(p, e), match e case MarkPaid(_) => Max(due, p.total) case Transact(a, _) => Max(due, due + a) case _ => due)
  {
    hide Sum;
    match e
    case MarkPaid(_) => if p.total > p.paid { PaymentKeepsMoneyOk(p, due, p.total - p.paid); }
    case Transact(amount, _) => if amount > 0 { PaymentKeepsMoneyOk(p, due, amount); }
    case _ =>
  }

  lemma StepKeepsWorkflow(p: Row, e: Event)
    requires WorkflowOk(p) && p.paid >= 0 && p.status != PartiallyPaid && !e.FinalizeByHand? && !e.Transact?
    ensures WorkflowOk(Step(p, e))
  {
  }

  /**
   * Over any run the money paid out is exactly recorded, transaction by transaction, and is what the
   * mark-paids and entered transactions made due; PARTIALLY_PAID is never reached. In the workflow alone
   * a period with money moved is PAID and its stamps fit its status.
   */
  lemma {:induction false} MoneyPaidIsRecorded(events: seq<Event>)
    ensures var p := Run(NEW_ROW, events);
            && p.paid == Sum(p.payments) == MoneyDue(events)
            && (forall i :: 0 <= i < |p.payments| ==> p.payments[i] > 0)
            && p.status != PartiallyPaid
            && (Workflow(events) ==> (p.paid > 0 ==> p.status == Paid) && Stamped(p))
    ensures MoneyOk(Run(NEW_ROW, events), MoneyDue(events))
    ensures Workflow(events) ==> WorkflowOk(Run(NEW_ROW, events))
  {
    hide Step, Max, Stamped;
    var n := |events|;
    if n > 0 {
      var before := Run(NEW_ROW, events[..n - 1]);
      MoneyPaidIsRecorded(events[..n - 1]);
      StepKeepsMoneyOk(before, events[n - 1], MoneyDue(events[..n - 1]));
      if Workflow(events) {
        assert events[n - 1] in events && forall e :: e in events[..n - 1] ==> e in events;
        StepKeepsWorkflow(before, events[n - 1]);
      }
    } else {
      NewRowIsStamped();
    }
  }

  lemma NewRowIsStamped()
    ensures Stamped(NEW_ROW)
  {
  }

  /** Without entered transactions the money is the maximum of 0 and the totals at the mark-paid instants. */
  lemma {:induction false} MoneyIsTheHighestTotal(events: seq<Event>)
    requires forall k :: 0 <= k < |events| ==> !events[k].Transact?
    ensures MoneyDue(events) >= 0
    ensures forall k :: 0 <= k < |events| && events[k].MarkPaid? ==> Run(NEW_ROW, events[..k]).total <= MoneyDue(events)
    ensures MoneyDue(events) == 0
            || exists k :: 0 <= k < |events| && events[k].MarkPaid? && Run(NEW_ROW, events[..k]).total == MoneyDue(events)
  {
    hide Run;
    var n := |events|;
    if n > 0 {
      var rest := events[..n - 1];
      MoneyIsTheHighestTotal(rest);
      assert forall k :: 0 <= k < n - 1 ==> rest[k] == events[k] && rest[..k] == events[..k];
      if k :| 0 <= k < |rest| && rest[k].MarkPaid? && Run(NEW_ROW, rest[..k]).total == MoneyDue(rest) {
        assert events[k].MarkPaid? && Run(NEW_ROW, events[..k]).total == MoneyDue(rest);
      }
    }
  }

  predicate PaysOff(e: Event) { e.MarkPaid? || (e.Transact? && e.full && e.amount > 0) }

  /** The last event that decides between PAID and FINALIZED, if there is one, paid off. */
  ghost predicate PaidLast(events: seq<Event>, was: bool) {
    (was && forall i :: 0 <= i < |events| ==> !events[i].FinalizeByHand?)
    || exists i :: 0 <= i < |events| && PaysOff(events[i]) && forall j :: i < j < |events| ==> !events[j].FinalizeByHand?
  }

  lemma PaidLastOf(events: seq<Event>, e: Event, was: bool)
    ensures PaidLast(events + [e], was) <==> if PaysOff(e) then true else if e.FinalizeByHand? then false else PaidLast(events, was)
  {
    var more := events + [e];
    assert forall i :: 0 <= i < |events| ==> more[i] == events[i];
    assert more[|events|] == e;
    hide PaysOff;
    if PaidLast(events, was) && !e.FinalizeByHand? && !PaysOff(e) {
      if i :| 0 <= i < |events| && PaysOff(events[i]) && forall j :: i < j < |events| ==> !events[j].FinalizeByHand? {
        assert PaysOff(more[i]);
      }
    }
  }

  lemma StepOfPaid(p: Row, e: Event)
    requires p.paid > 0
    ensures var q := Step(p, e);
            && p.paid <= q.paid && p.payments <= q.payments && (p.status != Draft ==> q.status != Draft)
            && (q.status == Paid <==> PaysOff(e) || (p.status == Paid && !e.FinalizeByHand?))
  {
  }

  /**
   * Money that has moved is never taken back and never reopens a period: no later event lowers the
   * amount, drops a transaction or leads to DRAFT. The period is PAID later exactly when nothing undid
   * it since: only the finalize route does, until the next full payment.
   */
  lemma {:induction false} PaidIsForever(p: Row, later: seq<Event>)
    requires p.paid > 0
    ensures var q := Run(p, later);
            && p.paid <= q.paid && p.payments <= q.payments && (p.status != Draft ==> q.status != Draft)
            && (q.status == Paid <==> PaidLast(later, p.status == Paid))
  {
    var n := |later|;
    if n > 0 {
      var rest, last := later[..n - 1], later[n - 1];
      PaidIsForever(p, rest);
      StepOfPaid(Run(p, rest), last);
      PaidLastOf(rest, last, p.status == Paid);
      assert later == rest + [last];
      hide Step, PaidLast, PaysOff;
    }
  }

  /** Failing runs: a paid period finalized again, and an advance on a draft that stays a draft. */
  lemma RoutesBypassTheWorkflow()
    ensures var p := Run(NEW_ROW, [Recompute(100), MarkPaid(1), FinalizeByHand(2)]);
            p.paid == 100 && p.status == Finalized
    ensures var p := Run(NEW_ROW, [Recompute(100), Transact(40, false)]);
            p.paid == 40 && p.status == Draft && Step(p, Reopen) == p
  {
    var r, m, f, t := Recompute(100), MarkPaid(1), FinalizeByHand(2), Transact(40, false);
    assert [r, m, f][..2] == [r, m] && [r, m][..1] == [r] && [r, t][..1] == [r] && [r][..0] == [];
    assert Run(NEW_ROW, [r]) == Step(NEW_ROW, r);
    assert Run(NEW_ROW, [r, m]) == Step(Step(NEW_ROW, r), m);
    assert Run(NEW_ROW, [r, t]) == Step(Step(NEW_ROW, r), t);
    assert Run(NEW_ROW, [r, m, f]) == Step(Step(Step(NEW_ROW, r), m), f);
  }

  // ---- Approval is no lock --------------------------------------------------------------------

  /** The last recompute among the events, if there is one, carried this total. */
  ghost predicate LastRecomputeCarried(events: seq<Event>, total: int) {
    (exists i :: 0 <= i < |events| && events[i] == Recompute(total) && forall j :: i < j < |events| ==> !events[j].Recompute?)
    || forall i :: 0 <= i < |events| ==> !events[i].Recompute?
  }

  /** From any period, in whatever status, the total stays exactly when no later recompute moved it. */
  lemma {:induction false} TotalKeptIff(p: Row, later: seq<Event>)
    ensures Run(p, later).total == p.total <==> LastRecomputeCarried(later, p.total)
  {
    var n := |later|;
    if n > 0 {
      var rest, last := later[..n - 1], later[n - 1];
      TotalKeptIff(p, rest);
      StepTotal(Run(p, rest), last);
      LastRecomputeOf(rest, last, p.total);
      assert later == rest + [last];
      hide LastRecomputeCarried, Step;
    }
  }

  lemma {:induction false} RunConcat(p: Row, first: seq<Event>, second: seq<Event>)
    ensures Run(p, first + second) == Run(Run(p, first), second)
  {
    var n := |second|;
    if n == 0 {
      assert first + second == first;
    } else {
      RunConcat(p, first, second[..n - 1]);
      assert (first + second)[..|first + second| - 1] == first + second[..n - 1];
    }
  }

  /**
   * What was approved is what stands later exactly when no recompute since the approval moved it: the
   * status protects nothing, not even after payment.
   */
  lemma ApprovedTotalKeptIff(before: seq<Event>, now: int, later: seq<Event>)
    ensures var approval := before + [Approve(now)];
            var approved := Run(NEW_ROW, approval).total;
            Run(NEW_ROW, approval + later).total == approved <==> LastRecomputeCarried(later, approved)
  {
    RunConcat(NEW_ROW, before + [Approve(now)], later);
    TotalKeptIff(Run(NEW_ROW, before + [Approve(now)]), later);
  }

  lemma StepTotal(p: Row, e: Event)
    ensures Step(p, e).total == if e.Recompute? then e.newTotal else p.total
  {
  }

  lemma LastRecomputeOf(events: seq<Event>, e: Event, total: int)
    ensures LastRecomputeCarried(events + [e], total)
            <==> if e.Recompute? then e.newTotal == total else LastRecomputeCarried(events, total)
  {
    var more := events + [e];
    assert forall i :: 0 <= i < |events| ==> more[i] == events[i];
    assert more[|events|] == e;
  }

  /** A failing run: 100 cents are approved, a late recompute says 250, and 250 are paid. */
  lemma PaysMoreThanApproved()
    ensures var approval := [Recompute(100), Approve(1)];
            Run(NEW_ROW, approval).total == 100 && Run(NEW_ROW, approval).status == Approved
            && Run(NEW_ROW, approval + [Recompute(250), MarkPaid(2)]).payments == [250]
  {
    var approval := [Recompute(100), Approve(1)];
    var all := approval + [Recompute(250), MarkPaid(2)];
    assert approval[..1] == [Recompute(100)] && all[..3] == approval + [Recompute(250)] && all[..3][..2] == approval;
    assert Run(NEW_ROW, [Recompute(100)]) == Step(Run(NEW_ROW, []), Recompute(100)) by { assert [Recompute(100)][..0] == []; }
  }

  /** Month-end close of one period: a recompute, then the bulk approval. */
  function Closed(p: Row, total: int, now: int): Row {
    BulkApproved(Step(p, Recompute(total)), now)
  }

  /** Closing the month again, on the same totals, changes nothing, not even the approval time. */
  lemma CloseIsRerunnable(p: Row, total: int, now: int, later: int)
    ensures Closed(Closed(p, total, now), total, later) == Closed(p, total, now)
    ensures Closed(p, total, now).status !in {Draft, Finalized}
  {
  }

  // ---- Where each step leads ------------------------------------------------------------------

  /** The status after each step, from any period. */
  lemma StatusAfter(p: Row, now: int, t: int, amount: int)
    ensures Step(p, Recompute(t)).status == p.status
    ensures Step(p, Finalize(now)).status == if p.status == Draft then Finalized else p.status
    ensures Step(p, Approve(now)).status == if p.status == Paid then Paid else Approved
    ensures Step(p, MarkPaid(now)).status == Paid
    ensures Step(p, Reopen).status == if p.paid > 0 then p.status else Draft
    ensures Step(p, FinalizeByHand(now)).status == Finalized
    ensures Step(p, Transact(amount, false)).status == p.status
    ensures amount > 0 ==> Step(p, Transact(amount, true)).status == Paid
  {
  }

  /** The time stamps each step sets: a first approval and a first finalization are kept. */
  lemma StampsAfter(p: Row, now: int)
    ensures var q := Step(p, Finalize(now));
            q == p.(status := q.status, finalizedAt := if p.status == Draft then Some(now) else p.finalizedAt)
    ensures p.status !in {Approved, Paid} ==>
              Step(p, Approve(now)).approvedAt == Some(now)
              && Step(p, Approve(now)).finalizedAt == if p.finalizedAt.Some? then p.finalizedAt else Some(now)
    ensures p.status in {Approved, Paid} ==> Step(p, Approve(now)) == p
    ensures var q := Step(p, MarkPaid(now));
            q.paidAt == Some(now) && q.finalizedAt == p.finalizedAt && q.total == p.total
            && q.approvedAt == if p.approvedAt.Some? then p.approvedAt else Some(now)
    ensures p.paid <= 0 ==> Step(p, Reopen) == p.(status := Draft, approvedAt := None, finalizedAt := None)
    ensures p.paid > 0 ==> Step(p, Reopen) == p
  {
  }

  /** A bulk payment settles exactly the finalized, approved or partly paid periods that earned something. */
  lemma BulkPaymentSettles(p: Row, now: int)
    ensures var q := BulkPaid(p, now);
            if (p.status == Finalized || p.status == Approved || p.status == PartiallyPaid) && p.total > 0
            then q.status == Paid && q.total <= q.paid && q.paid - p.paid == Max(0, p.total - p.paid)
            else q == p
  {
  }

  /** A bulk approval approves exactly the draft and finalized periods. */
  lemma BulkApprovalApproves(p: Row, now: int)
    ensures BulkApproved(p, now) == if p.status == Draft || p.status == Finalized then Step(p, Approve(now)) else p
  {
  }
}
