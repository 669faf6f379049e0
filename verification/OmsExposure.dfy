/** The exposure that the risk check looks at, position plus pending delta, in every run, and exactly when it lets
    no order pass any more, whatever happens. */
module OmsExposure {
  import opened Words
  import opened OrderMap
  import opened OmsModel
  import opened OmsSafety
  import opened OmsLedger
  import opened OmsOrders

  function Exposure(s: Oms): int32 {
    Wrap32(s.position + s.pendingDelta)
  }

  // ----- weights of a record -----

  function BuyQty(o: Order): int {
    if Open(o) && o.side.Buy? then o.qty else 0
  }

  function SellQty(o: Order): int {
    if Open(o) && o.side.Sell? then o.qty else 0
  }

  ghost predicate Sized(os: seq<Order>) {
    forall k :: 0 <= k < |os| && Open(os[k]) ==> os[k].leaves <= os[k].qty <= MAX_ORDER_QTY
  }

  lemma {:induction false} SizedWeights(os: seq<Order>)
    requires Sized(os)
    ensures 0 <= Sum(BuyQty, os) && 0 <= Sum(SellQty, os)
    ensures Sum(BuyQty, os) + Sum(SellQty, os) <= MAX_ORDER_QTY * Sum(OpenBit, os)
  {
    if os != [] {
      SizedWeights(os[..|os| - 1]);
    }
  }

  lemma QtyUpdate(os: seq<Order>, slot: nat, o: Order)
    requires slot < |os|
    ensures Sum(BuyQty, os[slot := o]) == Sum(BuyQty, os) - BuyQty(os[slot]) + BuyQty(o)
    ensures Sum(SellQty, os[slot := o]) == Sum(SellQty, os) - SellQty(os[slot]) + SellQty(o)
  {
    SumUpdate(BuyQty, os, slot, o);
    SumUpdate(SellQty, os, slot, o);
  }

  // ----- the invariant of every run -----

  /** The exposure if every open buy, or every open sell, were cancelled before anything of it is filled. */
  ghost function Low(s: Oms): int {
    Exposure(s) - Sum(BuyQty, s.orders)
  }

  ghost function High(s: Oms): int {
    Exposure(s) + Sum(SellQty, s.orders)
  }

  const EXPOSURE_BOUND: int := MAX_POSITION + (MAX_LIVE_ORDERS - 1) * MAX_ORDER_QTY

  ghost predicate Hedged(s: Oms) {
    -EXPOSURE_BOUND <= Low(s) && High(s) <= EXPOSURE_BOUND
  }

  ghost predicate Steady(s: Oms) {
    Counts(s) && s.nextId > 0 && Sized(s.orders) && Hedged(s) && s.live + s.pendingNew <= MAX_LIVE_ORDERS
  }

  lemma SteadyExposure(s: Oms)
    requires Steady(s)
    ensures -EXPOSURE_BOUND <= Low(s) <= Exposure(s) <= High(s) <= EXPOSURE_BOUND
  {
    SizedWeights(s.orders);
  }

  /** A small change of the pending delta changes a moderate exposure by as much. */
  lemma ExposureMoves(position: int32, pending: int32, x: int)
    requires -1_000_000 <= Wrap32(position + pending) <= 1_000_000 && -20_000 <= x <= 20_000
    ensures Wrap32(position + Wrap32(pending + x)) == Wrap32(position + pending) + x
  {
  }

  /** How much of an order's quantity a report takes out of the exposure. */
  function Freed(o: Order, r: Report): nat {
    if r.exec.CancelAck? || r.exec.Reject? then o.leaves else 0
  }

  lemma CloseFrees(s: Oms, s': Oms, o: Order)
    requires Steady(s) && s'.position == s.position && o.leaves <= MAX_ORDER_QTY
    requires s'.pendingDelta == Wrap32(s.pendingDelta - Signed(o.side, o.leaves))
    ensures Exposure(s') == Exposure(s) - Directed(o.side, o.leaves)
  {
    SteadyExposure(s);
    ExposureMoves(s.position, s.pendingDelta, 0 - Directed(o.side, o.leaves));
  }

  /** The record, the exposure and the two counters after a report on an open order. */
  lemma ReportFrees(s: Oms, r: Report)
    requires Steady(s) && r.id in s.index
    ensures var s', slot := OnExecution(s, r), s.index[r.id];
            var o := s.orders[slot];
            && |s'.orders| == MAX_ORDERS && s'.orders == s.orders[slot := s'.orders[slot]]
            && (var o' := s'.orders[slot]; o'.side == o.side && o'.qty == o.qty
                                           && (Open(o') ==> o'.leaves <= o'.qty && Freed(o, r) == 0))
            && Exposure(s') == Exposure(s) - Directed(o.side, Freed(o, r))
            && s'.live + s'.pendingNew <= s.live + s.pendingNew
  {
    var slot := s.index[r.id];
    var o := s.orders[slot];
    match r.exec
    case CancelAck => CloseFrees(s, OnCancelAck(s, slot), o);
    case Reject => CloseFrees(s, OnReject(s, slot), o);
    case NewAck => if o.status.Sent? { SentIsPending(s, slot); }
    case Fill => FillFrees(s, r);
    case PartialFill => FillFrees(s, r);
    case CancelReject =>
    case Unknown =>
  }

  lemma FillFrees(s: Oms, r: Report)
    requires Steady(s) && r.id in s.index && (r.exec.Fill? || r.exec.PartialFill?)
    ensures var s', slot := OnExecution(s, r), s.index[r.id];
            var o, o' := s.orders[slot], FilledOrder(s.orders[slot], r);
            && s'.orders == s.orders[slot := o'] && o'.side == o.side && o'.qty == o.qty && o'.leaves <= o'.qty
            && Exposure(s') == Exposure(s)
            && s'.live + s'.pendingNew <= s.live + s.pendingNew
  {
    var slot := s.index[r.id];
    FillKeepsExposure(s, r);
    FillShape(s, slot, r);
    FillCounters(s, slot, r);
    if s.orders[slot].status.Sent? {
      SentIsPending(s, slot);
    }
  }

  /** Both ends of the range of exposures can only move inwards. */
  lemma ReportNarrows(s: Oms, r: Report)
    requires Steady(s) && r.id in s.index
    ensures var s' := OnExecution(s, r); Sized(s'.orders) && Low(s) <= Low(s') && High(s') <= High(s)
  {
    var s', slot := OnExecution(s, r), s.index[r.id];
    ReportFrees(s, r);
    QtyUpdate(s.orders, slot, s'.orders[slot]);
  }

  lemma ReportKeepsSteady(s: Oms, r: Report)
    requires Steady(s) && r.id in s.index
    ensures Steady(OnExecution(s, r)) && OnExecution(s, r).nextId == s.nextId
  {
    ReportKeepsSafe(s, r);
    ReportShifts(s, r);
    ReportFrees(s, r);
    ReportNarrows(s, r);
    if r.exec.Fill? || r.exec.PartialFill? {
      FillShape(s, s.index[r.id], r);
    }
  }

  /** What a passed risk check says about the new exposure. */
  lemma AcceptedExposure(s: Oms, side: Side, price: real, qty: u32)
    requires Steady(s) && CheckRisk(s, side, price, qty)
    ensures -MAX_POSITION <= Exposure(s) + Directed(side, qty) <= MAX_POSITION
    ensures Wrap32(s.position + Wrap32(s.pendingDelta + Signed(side, qty))) == Exposure(s) + Directed(side, qty)
  {
    SteadyExposure(s);
    ExposureMoves(s.position, s.pendingDelta, Directed(side, qty));
  }

  /** One order of at most 10,000 is added, and the exposure ends within 500. */
  lemma HedgedAfterSend(s: Oms, s': Oms, slot: nat, o: Order)
    requires Steady(s) && s.live + s.pendingNew < MAX_LIVE_ORDERS && slot < MAX_ORDERS && !Open(s.orders[slot])
    requires s'.orders == s.orders[slot := o] && Open(o) && o.leaves <= o.qty <= MAX_ORDER_QTY
    requires Exposure(s') == Exposure(s) + Directed(o.side, o.qty)
    requires -MAX_POSITION <= Exposure(s') <= MAX_POSITION
    ensures Sized(s'.orders) && Hedged(s')
  {
    QtyUpdate(s.orders, slot, o);
    SizedWeights(s.orders);
  }

  lemma SendKeepsHedged(s: Oms, side: Side, price: real, qty: u32, kind: OrderType)
    requires Steady(s) && Accepts(s, side, price, qty)
    ensures var s' := SendNew(s, side, price, qty, kind); Sized(s'.orders) && Hedged(s')
  {
    AcceptedExposure(s, side, price, qty);
    HedgedAfterSend(s, SendNew(s, side, price, qty, kind), NextSlot(s), NewOrder(s, side, price, qty, kind));
  }

  lemma StepKeepsSteady(s: Oms, e: Event)
    requires Steady(s)
    ensures Steady(Step(s, e))
  {
    match e
    case Send(side, price, qty, kind) =>
      SendKeepsSafe(s, side, price, qty, kind);
      SendShifts(s, side, price, qty, kind);
      if Accepts(s, side, price, qty) {
        SendKeepsHedged(s, side, price, qty, kind);
      }
    case SetReference(p) =>
    case Exec(r) =>
      if r.id in s.index {
        ReportKeepsSteady(s, r);
      }
  }

  lemma {:induction false} RunKeepsSteady(s: Oms, es: seq<Event>)
    requires Steady(s)
    ensures Steady(Run(s, es))
  {
    if es != [] {
      RunKeepsSteady(s, es[..|es| - 1]);
      StepKeepsSteady(Run(s, es[..|es| - 1]), es[|es| - 1]);
    }
  }

  lemma InitSteady(s0: Oms)
    requires Initial(s0)
    ensures Steady(s0)
  {
    InitCounts(s0);
    SumAllZero(BuyQty, s0.orders);
    SumAllZero(SellQty, s0.orders);
  }

  /** In every run, with any reports whatsoever, the exposure stays within 490,500, and what the risk check forms from
      it does not wrap: in particular it never takes the absolute value of the least int32. */
  lemma EveryRunExposure(s0: Oms, es: seq<Event>, side: Side, qty: u32)
    requires Initial(s0)
    ensures var s := Run(s0, es);
            && -490_500 <= Exposure(s) <= 490_500
            && (qty <= MAX_ORDER_QTY ==> RiskBase(s, side, qty) == Exposure(s) + Directed(side, qty))
  {
    InitSteady(s0);
    RunKeepsSteady(s0, es);
    SteadyExposure(Run(s0, es));
  }

  // ----- admission -----

  /** The reference price: the last one set, 0 if none was. */
  function LastReference(es: seq<Event>): real {
    if es == [] then 0.0
    else if es[|es| - 1].SetReference? then es[|es| - 1].price
    else LastReference(es[..|es| - 1])
  }

  lemma StepKeepsReference(s: Oms, e: Event)
    requires Shape(s)
    ensures Step(s, e).refPrice == if e.SetReference? then e.price else s.refPrice
  {
  }

  lemma {:induction false} ReferenceIsLast(s0: Oms, es: seq<Event>)
    requires Initial(s0)
    ensures Run(s0, es).refPrice == LastReference(es)
  {
    if es != [] {
      ReferenceIsLast(s0, es[..|es| - 1]);
      StepKeepsReference(Run(s0, es[..|es| - 1]), es[|es| - 1]);
    }
  }

  lemma PassesIff(s: Oms, side: Side, price: real, qty: u32)
    requires Steady(s)
    ensures CheckRisk(s, side, price, qty) <==>
            && qty <= 10_000 && s.live + s.pendingNew < 50
            && -500 <= Exposure(s) + (if side.Buy? then qty else 0 - qty) <= 500
            && (s.refPrice > 0.0 ==> s.refPrice - 5.0 <= price <= s.refPrice + 5.0)
  {
    SteadyExposure(s);
    if qty <= 10_000 {
      ExposureMoves(s.position, s.pendingDelta, Directed(side, qty));
    }
  }

  /** After every run, with any reports, an order is accepted if and only if it is for at most 10,000, the admission
      counters show less than 50, it brings the exposure within 500 either way, and its price is within 5.0 of the last
      reference price, should that be positive. */
  lemma AcceptedIff(s0: Oms, es: seq<Event>, side: Side, price: real, qty: u32)
    requires Initial(s0)
    ensures var s, p := Run(s0, es), LastReference(es);
            Accepts(s, side, price, qty) <==>
            && qty <= 10_000 && s.live + s.pendingNew < 50
            && -500 <= Exposure(s) + (if side.Buy? then qty else 0 - qty) <= 500
            && (p > 0.0 ==> p - 5.0 <= price <= p + 5.0)
  {
    InitSteady(s0);
    RunKeepsSteady(s0, es);
    ReferenceIsLast(s0, es);
    PassesIff(Run(s0, es), side, price, qty);
    OnlyRiskRefuses(s0, es, side, price, qty);
  }
}
