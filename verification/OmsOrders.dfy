/** What becomes of the orders sent: the order counts and the hit rate of every run, whatever reports arrive. */
module OmsOrders {
  import opened Words
  import opened OmsModel
  import opened OmsSafety
  import opened OmsLedger

  // ----- reports that upset a count -----

  /** A partial fill that leaves the order open with a filled quantity of 0 (it is empty, or it wraps the 32-bit
      total around), so that the next fill is taken for the first one again. */
  function Emptying(o: Order, r: Report): int {
    if r.exec.PartialFill? && o.qty > 0 && U32(o.filled + r.qty) == 0 then 1 else 0
  }

  /** A cancel of an order that was not acknowledged. */
  function EarlyCancel(o: Order, r: Report): int {
    if r.exec.CancelAck? then SentBit(o) else 0
  }

  /** A reject of an order that was acknowledged. */
  function LateReject(o: Order, r: Report): int {
    if r.exec.Reject? then 1 - SentBit(o) else 0
  }

  /** An accepted order ends without a fill. */
  function Unfilled(o: Order, r: Report): int {
    if r.exec.CancelAck? || r.exec.Reject? then WaitingBit(o) else 0
  }

  /** The value of `w` for the report of one event; reports for unmapped ids are ignored. */
  function Stray(w: (Order, Report) -> int, s: Oms, e: Event): int
    requires Shape(s)
  {
    if e.Exec? && e.report.id in s.index then w(s.orders[s.index[e.report.id]], e.report) else 0
  }

  /** The sum of `w` over the reports of a run. */
  function Tally(w: (Order, Report) -> int, s: Oms, es: seq<Event>): int
    requires Shape(s)
  {
    if es == [] then 0 else
    Tally(w, s, es[..|es| - 1]) + Stray(w, Run(s, es[..|es| - 1]), es[|es| - 1])
  }

  // ----- the counts of a state -----

  /** By how much the orders pending, accepted and rejected exceed the orders sent. */
  function Excess(s: Oms): int {
    s.pendingNew + s.stats.accepted + s.stats.rejects - s.orderCount
  }

  /** By how much `pending_new_` exceeds the number of unacknowledged orders. */
  ghost function Leak(s: Oms): int {
    s.pendingNew - Sum(SentBit, s.orders)
  }

  /** By how much the orders filled and waiting for a fill exceed those accepted. */
  ghost function Overhit(s: Oms): int {
    s.stats.filledOrders + Sum(WaitingBit, s.orders) - s.stats.accepted
  }

  /** An order that was not acknowledged has no fill. */
  ghost predicate Unacked(os: seq<Order>) {
    forall k :: 0 <= k < |os| && os[k].status.Sent? ==> os[k].filled == 0
  }

  ghost predicate Counts(s: Oms) {
    Safe(s) && Unacked(s.orders) && Leak(s) >= 0
  }

  /** From `s` to `s'` the three counts move by these amounts. */
  ghost predicate Shifts(s: Oms, s': Oms, excess: int, leak: int, overhit: int) {
    Excess(s') == Excess(s) + excess && Leak(s') == Leak(s) + leak && Overhit(s') == Overhit(s) + overhit
  }

  // ----- what each report does to them -----

  /** One record is replaced; the counts move with the counters and with the record's weights. */
  lemma Replaced(s: Oms, s': Oms, slot: nat, o': Order)
    requires slot < |s.orders| && s'.orders == s.orders[slot := o'] && s'.orderCount == s.orderCount
    requires Unacked(s.orders) && (o'.status.Sent? ==> o'.filled == 0)
    ensures var o, t, t' := s.orders[slot], s.stats, s'.stats;
            && Unacked(s'.orders)
            && Shifts(s, s',
                      s'.pendingNew + t'.accepted + t'.rejects - s.pendingNew - t.accepted - t.rejects,
                      s'.pendingNew - s.pendingNew + SentBit(o) - SentBit(o'),
                      t'.filledOrders - t.filledOrders - t'.accepted + t.accepted + WaitingBit(o') - WaitingBit(o))
  {
    TotalsUpdate(s.orders, slot, o');
  }

  /** A leak is never negative, so an unacknowledged order is counted as pending. */
  lemma SentIsPending(s: Oms, slot: nat)
    requires Counts(s) && slot < MAX_ORDERS && s.orders[slot].status.Sent?
    ensures s.pendingNew > 0
  {
    SumAtLeast(SentBit, s.orders, slot);
  }

  /** A fill is counted as the first one exactly if nothing was filled before, and the order is waiting
      afterwards exactly if the fill was an emptying one. */
  lemma FirstFill(o: Order, r: Report)
    requires Open(o) && (r.exec.Fill? || r.exec.PartialFill?)
    ensures var o' := FilledOrder(o, r);
            && (o'.filled == r.qty <==> o.filled == 0)
            && WaitingBit(o') == Emptying(o, r) && !o'.status.Sent?
  {
  }

  lemma FillShifts(s: Oms, slot: nat, r: Report)
    requires Counts(s) && slot < MAX_ORDERS && Open(s.orders[slot]) && (r.exec.Fill? || r.exec.PartialFill?)
    ensures var s' := OnFill(s, slot, r);
            Unacked(s'.orders) && Shifts(s, s', 0, 0, Emptying(s.orders[slot], r))
  {
    var o, o', s' := s.orders[slot], FilledOrder(s.orders[slot], r), OnFill(s, slot, r);
    FirstFill(o, r);
    FillShape(s, slot, r);
    FillCounters(s, slot, r);
    if o.status.Sent? {
      SentIsPending(s, slot);
    }
    Replaced(s, s', slot, o');
  }

  lemma AckShifts(s: Oms, slot: nat)
    requires Counts(s) && slot < MAX_ORDERS && Open(s.orders[slot])
    ensures var s' := OnNewAck(s, slot); Unacked(s'.orders) && Shifts(s, s', 0, 0, 0)
  {
    var o := s.orders[slot];
    if o.status.Sent? {
      SentIsPending(s, slot);
      Replaced(s, OnNewAck(s, slot), slot, o.(status := Live));
    }
  }

  lemma CancelShifts(s: Oms, slot: nat)
    requires Counts(s) && slot < MAX_ORDERS && Open(s.orders[slot])
    ensures var s', o := OnCancelAck(s, slot), s.orders[slot];
            Unacked(s'.orders) && Shifts(s, s', 0, SentBit(o), 0 - WaitingBit(o))
  {
    Replaced(s, OnCancelAck(s, slot), slot, s.orders[slot].(status := Cancelled));
  }

  lemma RejectShifts(s: Oms, slot: nat)
    requires Counts(s) && slot < MAX_ORDERS && Open(s.orders[slot])
    ensures var s', o := OnReject(s, slot), s.orders[slot];
            Unacked(s'.orders) && Shifts(s, s', 1 - SentBit(o), 0, 0 - WaitingBit(o))
  {
    var o := s.orders[slot];
    if o.status.Sent? {
      SentIsPending(s, slot);
    }
    Replaced(s, OnReject(s, slot), slot, o.(status := Rejected));
  }

  lemma ReportShifts(s: Oms, r: Report)
    requires Counts(s) && r.id in s.index
    ensures var s', o := OnExecution(s, r), s.orders[s.index[r.id]];
            Unacked(s'.orders) && Shifts(s, s', LateReject(o, r), EarlyCancel(o, r), Emptying(o, r) - Unfilled(o, r))
  {
    var slot := s.index[r.id];
    match r.exec
    case NewAck => AckShifts(s, slot);
    case Fill => FillShifts(s, slot, r);
    case PartialFill => FillShifts(s, slot, r);
    case CancelAck => CancelShifts(s, slot);
    case Reject => RejectShifts(s, slot);
    case CancelReject =>
    case Unknown =>
  }

  /** A new order is pending and counted; it takes the place of a record that is not open. */
  lemma SendShifts(s: Oms, side: Side, price: real, qty: u32, kind: OrderType)
    requires Counts(s)
    ensures var s' := SendNew(s, side, price, qty, kind); Unacked(s'.orders) && Shifts(s, s', 0, 0, 0)
  {
    if Accepts(s, side, price, qty) {
      assert !Open(s.orders[NextSlot(s)]);
      TotalsUpdate(s.orders, NextSlot(s), NewOrder(s, side, price, qty, kind));
    }
  }

  /** One event moves the three counts by its stray reports and by nothing else. */
  lemma StepShifts(s: Oms, e: Event)
    requires Counts(s)
    ensures Unacked(Step(s, e).orders)
    ensures Shifts(s, Step(s, e), Stray(LateReject, s, e), Stray(EarlyCancel, s, e),
                   Stray(Emptying, s, e) - Stray(Unfilled, s, e))
  {
    match e
    case Send(side, price, qty, kind) => SendShifts(s, side, price, qty, kind);
    case SetReference(p) =>
    case Exec(r) =>
      if r.id in s.index {
        ReportShifts(s, r);
      }
  }

  // ----- every run -----

  lemma InitCounts(s: Oms)
    requires Initial(s)
    ensures Counts(s) && Excess(s) == Leak(s) == Overhit(s) == 0
  {
    InitSafe(s);
    SumAllZero(SentBit, s.orders);
    SumAllZero(WaitingBit, s.orders);
  }

  lemma {:induction false} RunShifts(s: Oms, es: seq<Event>)
    requires Counts(s) && s.nextId > 0
    ensures Counts(Run(s, es)) && Leak(Run(s, es)) >= Leak(s)
    ensures Shifts(s, Run(s, es), Tally(LateReject, s, es), Tally(EarlyCancel, s, es),
                   Tally(Emptying, s, es) - Tally(Unfilled, s, es))
  {
    RunKeepsSafe(s, es);
    if es != [] {
      RunShifts(s, es[..|es| - 1]);
      StepShifts(Run(s, es[..|es| - 1]), es[|es| - 1]);
    }
  }

  /** The order ledger of every run, with any reports whatsoever: each order sent is pending, accepted or rejected,
      but for late rejects, which are counted twice; `pending_new_` is the number of unacknowledged orders and of
      early cancels; and the accepted orders are those filled, waiting or ended without a fill, but for emptying fills,
      each of which makes one order count as filled once more. */
  lemma EveryOrderAccounted(s0: Oms, es: seq<Event>)
    requires Initial(s0)
    ensures var s := Run(s0, es);
            && s.pendingNew + s.stats.accepted + s.stats.rejects == s.orderCount + Tally(LateReject, s0, es)
            && s.pendingNew == Sum(SentBit, s.orders) + Tally(EarlyCancel, s0, es)
            && s.stats.filledOrders + Sum(WaitingBit, s.orders) + Tally(Unfilled, s0, es)
               == s.stats.accepted + Tally(Emptying, s0, es)
  {
    InitCounts(s0);
    RunShifts(s0, es);
  }

  /** When the plain order ledger balances: exactly if no order was rejected after its acknowledgement. */
  lemma OrdersBalanceIff(s0: Oms, es: seq<Event>)
    requires Initial(s0)
    ensures var s := Run(s0, es);
            s.orderCount == s.pendingNew + s.stats.accepted + s.stats.rejects <==> Tally(LateReject, s0, es) == 0
  {
    EveryOrderAccounted(s0, es);
  }

  /** When the hit rate is at most 100%, for every run: exactly if the emptying fills are outnumbered by the accepted
      orders that have no fill, waiting or ended.  In particular, if there are none. */
  lemma HitRateIff(s0: Oms, es: seq<Event>)
    requires Initial(s0)
    ensures var s := Run(s0, es);
            && (s.stats.filledOrders <= s.stats.accepted <==>
                  Tally(Emptying, s0, es) <= Sum(WaitingBit, s.orders) + Tally(Unfilled, s0, es))
            && (Tally(Emptying, s0, es) == 0 ==> s.stats.filledOrders <= s.stats.accepted)
  {
    EveryOrderAccounted(s0, es);
    SumNonNegative(WaitingBit, Run(s0, es).orders);
    TallyNonNegative(Unfilled, s0, es);
  }

  /** Report by report: a hit rate of at most 100% is exceeded exactly by a fill of an accepted order that has no fill,
      at a time when as many fills were counted as orders accepted. */
  lemma HitRateKeptIff(s: Oms, r: Report)
    requires Counts(s) && r.id in s.index && s.stats.filledOrders <= s.stats.accepted
    ensures var s' := OnExecution(s, r);
            s'.stats.filledOrders > s'.stats.accepted <==>
            && (r.exec.Fill? || r.exec.PartialFill?) && WaitingBit(s.orders[s.index[r.id]]) == 1
            && s.stats.filledOrders == s.stats.accepted
  {
    if r.exec.Fill? || r.exec.PartialFill? {
      FirstFill(s.orders[s.index[r.id]], r);
      FillCounters(s, s.index[r.id], r);
    }
  }

  lemma {:induction false} TallyNonNegative(w: (Order, Report) -> int, s: Oms, es: seq<Event>)
    requires Shape(s) && forall o, r :: w(o, r) >= 0
    ensures Tally(w, s, es) >= 0
  {
    if es != [] {
      TallyNonNegative(w, s, es[..|es| - 1]);
    }
  }

  // ----- immediate-or-cancel orders -----

  ghost predicate AllIoc(os: seq<Order>) {
    forall k :: 0 <= k < |os| && Open(os[k]) ==> os[k].kind.IOC?
  }

  /** With immediate-or-cancel orders only, an accepted order is filled, missed or waiting. */
  ghost predicate IocLedger(s: Oms) {
    AllIoc(s.orders) && s.stats.accepted == s.stats.filledOrders + s.stats.missedIoc + Sum(WaitingBit, s.orders)
  }

  /** The reports after which that ledger still balances. */
  predicate KeepsIocLedger(o: Order, r: Report) {
    match r.exec
    case PartialFill => o.qty == 0 || U32(o.filled + r.qty) != 0
    case CancelAck => !o.status.Sent?
    case Reject => o.status.Sent? || o.filled > 0
    case Fill => true
    case NewAck => true
    case CancelReject => true
    case Unknown => true
  }

  /** A cancelled immediate-or-cancel order without a fill is missed, acknowledged or not. */
  lemma ReportMisses(s: Oms, r: Report)
    requires Counts(s) && AllIoc(s.orders) && r.id in s.index
    ensures var s', o := OnExecution(s, r), s.orders[s.index[r.id]];
            && AllIoc(s'.orders)
            && s'.stats.missedIoc == s.stats.missedIoc + (if r.exec.CancelAck? then SentBit(o) + WaitingBit(o) else 0)
  {
    var slot := s.index[r.id];
    if r.exec.Fill? || r.exec.PartialFill? {
      FillShape(s, slot, r);
      FillCounters(s, slot, r);
    }
  }

  /** The ledger of immediate-or-cancel orders survives a report if and only if the report is not an emptying fill,
      not a cancel of an unacknowledged order and not a reject of an accepted order without a fill. */
  lemma IocLedgerKeptIff(s: Oms, r: Report)
    requires Counts(s) && IocLedger(s) && r.id in s.index
    ensures IocLedger(OnExecution(s, r)) <==> KeepsIocLedger(s.orders[s.index[r.id]], r)
  {
    ReportShifts(s, r);
    ReportMisses(s, r);
  }

  lemma SendKeepsIocLedger(s: Oms, side: Side, price: real, qty: u32)
    requires Counts(s) && IocLedger(s)
    ensures IocLedger(SendNew(s, side, price, qty, IOC))
  {
    SendShifts(s, side, price, qty, IOC);
  }

  ghost predicate IocRun(es: seq<Event>) {
    forall e :: e in es && e.Send? ==> e.kind.IOC?
  }

  /** Every report of the run is harmless to the ledger in the state it arrives in. */
  ghost predicate IocFaithfulRun(s: Oms, es: seq<Event>)
    requires Shape(s)
  {
    es == [] ||
    var e, s' := es[|es| - 1], Run(s, es[..|es| - 1]);
    && IocFaithfulRun(s, es[..|es| - 1])
    && (e.Exec? && e.report.id in s'.index ==> KeepsIocLedger(s'.orders[s'.index[e.report.id]], e.report))
  }

  /** The ledger balances after every event of the run. */
  ghost predicate IocLedgerThroughout(s: Oms, es: seq<Event>)
    requires Shape(s)
  {
    IocLedger(Run(s, es)) && (es == [] || IocLedgerThroughout(s, es[..|es| - 1]))
  }

  /** For every run of immediate-or-cancel orders: the accepted orders are exactly the filled, the missed and the
      waiting ones at all times if and only if no report was an emptying fill, an early cancel or a reject of a waiting
      order. */
  lemma {:induction false} IocLedgerIff(s0: Oms, es: seq<Event>)
    requires Initial(s0) && IocRun(es)
    ensures IocLedgerThroughout(s0, es) <==> IocFaithfulRun(s0, es)
  {
    InitCounts(s0);
    if es != [] {
      var es', e := es[..|es| - 1], es[|es| - 1];
      var s := Run(s0, es');
      IocLedgerIff(s0, es');
      RunShifts(s0, es');
      if IocLedger(s) {
        match e
        case Send(side, price, qty, kind) =>
          assert e in es;
          SendKeepsIocLedger(s, side, price, qty);
        case SetReference(p) =>
        case Exec(r) =>
          if r.id in s.index {
            IocLedgerKeptIff(s, r);
          }
      }
    }
  }

  // ----- well-formed runs -----

  /** A well-formed report is none of the stray ones. */
  lemma WellFormedIsNoStray(s: Oms, e: Event)
    requires Books(s) && (e.Exec? ==> WellFormed(s, e.report))
    ensures Stray(LateReject, s, e) == 0 && Stray(Emptying, s, e) == 0
    ensures e.Exec? && e.report.id in s.index ==> KeepsIocLedger(s.orders[s.index[e.report.id]], e.report)
  {
    if e.Exec? && e.report.id in s.index {
      assert s.orders[s.index[e.report.id]] in s.orders;
    }
  }

  lemma {:induction false} WellFormedHasNoStrays(s: Oms, es: seq<Event>)
    requires Books(s) && Bounded(s) && s.nextId > 0 && WellFormedRun(s, es)
    ensures Tally(LateReject, s, es) == 0 && Tally(Emptying, s, es) == 0 && IocFaithfulRun(s, es)
  {
    if es != [] {
      WellFormedHasNoStrays(s, es[..|es| - 1]);
      WellFormedRunKeepsBooks(s, es[..|es| - 1]);
      WellFormedIsNoStray(Run(s, es[..|es| - 1]), es[|es| - 1]);
    }
  }

  /** Order ledger of every well-formed run: nothing sent is lost, and the hit rate never exceeds 100%.
      If every order was immediate-or-cancel, the accepted ones are exactly the filled, the missed and the
      still waiting. */
  lemma OrderLedger(s0: Oms, es: seq<Event>)
    requires Initial(s0) && WellFormedRun(s0, es)
    ensures var s := Run(s0, es);
            && s.orderCount == s.pendingNew + s.stats.accepted + s.stats.rejects
            && s.stats.filledOrders <= s.stats.accepted
            && (IocRun(es) ==>
                  s.stats.accepted == s.stats.filledOrders + s.stats.missedIoc + Sum(WaitingBit, s.orders))
  {
    InitBooks(s0);
    WellFormedHasNoStrays(s0, es);
    OrdersBalanceIff(s0, es);
    HitRateIff(s0, es);
    if IocRun(es) {
      IocLedgerIff(s0, es);
    }
  }
}
