/** When the risk check refuses every order for good, and runs that get there. */
module OmsStops {
  import opened Words
  import opened OrderMap
  import opened OmsModel
  import opened OmsSafety
  import opened OmsLedger
  import opened OmsOrders
  import opened OmsExposure
  import opened OmsTightness

  /** From here on the risk check refuses every order, whatever happens. */
  ghost predicate Stopped(s: Oms)
    requires Shape(s)
  {
    forall more, side, price, qty :: !CheckRisk(Run(s, more), side, price, qty)
  }

  /** The admission counters are full, and no report can lower them: no order is unacknowledged, and none is open or the
      live counter stands at 0. */
  ghost predicate Stuck(s: Oms) {
    && s.live + s.pendingNew >= MAX_LIVE_ORDERS
    && Sum(SentBit, s.orders) == 0 && (s.index == map[] || s.live == 0)
  }

  const REACH: int := MAX_POSITION + MAX_ORDER_QTY

  /** No single order brings the exposure back within the limit, even if the open orders on one side are cancelled
      completely and those on the other are filled. */
  ghost predicate Stranded(s: Oms) {
    Low(s) > REACH || High(s) < -REACH
  }

  // ----- both are for good -----

  lemma StuckOrder(s: Oms, slot: nat)
    requires Steady(s) && Stuck(s) && slot < MAX_ORDERS && Open(s.orders[slot])
    ensures s.live == 0 && LiveBit(s.orders[slot]) == 1
  {
    SumAtLeast(SentBit, s.orders, slot);
    assert s.orders[slot].id in s.index;
  }

  lemma FillStaysStuck(s: Oms, r: Report)
    requires Steady(s) && Stuck(s) && r.id in s.index && (r.exec.Fill? || r.exec.PartialFill?)
    ensures Stuck(OnExecution(s, r))
  {
    var slot := s.index[r.id];
    StuckOrder(s, slot);
    FillShape(s, slot, r);
    FillCounters(s, slot, r);
    TotalsUpdate(s.orders, slot, FilledOrder(s.orders[slot], r));
  }

  lemma ReportStaysStuck(s: Oms, r: Report)
    requires Steady(s) && Stuck(s) && r.id in s.index
    ensures Stuck(OnExecution(s, r))
  {
    var slot := s.index[r.id];
    StuckOrder(s, slot);
    if r.exec.Fill? || r.exec.PartialFill? {
      FillStaysStuck(s, r);
    } else if r.exec.CancelAck? {
      TotalsUpdate(s.orders, slot, s.orders[slot].(status := Cancelled));
    } else if r.exec.Reject? {
      TotalsUpdate(s.orders, slot, s.orders[slot].(status := Rejected));
    }
  }

  /** Either way no order passes. */
  lemma StopRefuses(s: Oms, side: Side, price: real, qty: u32)
    requires Steady(s) && (Stuck(s) || Stranded(s))
    ensures !CheckRisk(s, side, price, qty)
  {
    if CheckRisk(s, side, price, qty) {
      AcceptedExposure(s, side, price, qty);
      SteadyExposure(s);
    }
  }

  lemma StepStaysStopped(s: Oms, e: Event)
    requires Steady(s) && (Stuck(s) || Stranded(s))
    ensures Stuck(Step(s, e)) || Stranded(Step(s, e))
  {
    match e
    case Send(side, price, qty, kind) => StopRefuses(s, side, price, qty);
    case SetReference(p) =>
    case Exec(r) =>
      if r.id in s.index {
        ReportNarrows(s, r);
        if Stuck(s) {
          ReportStaysStuck(s, r);
        }
      }
  }

  lemma {:induction false} RunStaysStopped(s: Oms, es: seq<Event>)
    requires Steady(s) && (Stuck(s) || Stranded(s))
    ensures Steady(Run(s, es)) && (Stuck(Run(s, es)) || Stranded(Run(s, es)))
  {
    RunKeepsSteady(s, es);
    if es != [] {
      RunStaysStopped(s, es[..|es| - 1]);
      StepStaysStopped(Run(s, es[..|es| - 1]), es[|es| - 1]);
    }
  }

  // ----- otherwise there is a way out -----

  /** Order `id` is gone, `freed` of it was cancelled and the rest filled; the counters fell unless they could not. */
  ghost predicate Retired(s: Oms, s': Oms, id: OrderId, freed: nat)
    requires Shape(s) && id in s.index
  {
    var o := s.orders[s.index[id]];
    && Steady(s') && s'.index == s.index - {id}
    && Exposure(s') == Exposure(s) - Directed(o.side, freed)
    && Sum(BuyQty, s'.orders) == Sum(BuyQty, s.orders) - BuyQty(o)
    && Sum(SellQty, s'.orders) == Sum(SellQty, s.orders) - SellQty(o)
    && Sum(SentBit, s'.orders) == Sum(SentBit, s.orders) - SentBit(o)
    && s'.live + s'.pendingNew == s.live + s.pendingNew - (if SentBit(o) == 1 || s.live > 0 then 1 else 0)
  }

  lemma FillRetires(s: Oms, id: OrderId)
    requires Steady(s) && id in s.index
    ensures Retired(s, OnExecution(s, Report(id, Fill, 0.0, 0)), id, 0)
  {
    var slot, r := s.index[id], Report(id, Fill, 0.0, 0);
    var o' := FilledOrder(s.orders[slot], r);
    ReportKeepsSteady(s, r);
    FillFrees(s, r);
    FillShape(s, slot, r);
    FillCounters(s, slot, r);
    QtyUpdate(s.orders, slot, o');
    TotalsUpdate(s.orders, slot, o');
    if s.orders[slot].status.Sent? {
      SentIsPending(s, slot);
    }
  }

  lemma CancelRetires(s: Oms, id: OrderId)
    requires Steady(s) && id in s.index && !s.orders[s.index[id]].status.Sent?
    ensures Retired(s, OnExecution(s, Report(id, CancelAck, 0.0, 0)), id, s.orders[s.index[id]].leaves)
  {
    var slot, r := s.index[id], Report(id, CancelAck, 0.0, 0);
    var o := s.orders[slot];
    ReportKeepsSteady(s, r);
    CloseFrees(s, OnCancelAck(s, slot), o);
    QtyUpdate(s.orders, slot, o.(status := Cancelled));
    TotalsUpdate(s.orders, slot, o.(status := Cancelled));
  }

  /** The quantity of a partial fill after which `left` of the order is left. */
  function Adjusting(o: Order, left: u32): u32
    requires left <= o.qty
  {
    if o.qty - left >= o.filled then o.qty - left - o.filled else o.qty - left + 0x1_0000_0000 - o.filled
  }

  /** Order `id` is acknowledged and `left` of it is left; nothing else that matters here has changed. */
  ghost predicate Adjusted(s: Oms, s': Oms, id: OrderId, left: u32)
    requires Shape(s) && id in s.index
  {
    var o := s.orders[s.index[id]];
    && Steady(s') && s'.index == s.index && Exposure(s') == Exposure(s)
    && (var o' := s'.orders[s.index[id]];
        Open(o') && !o'.status.Sent? && o'.leaves == left && o'.qty == o.qty && o'.side == o.side)
    && Sum(BuyQty, s'.orders) == Sum(BuyQty, s.orders) && Sum(SellQty, s'.orders) == Sum(SellQty, s.orders)
    && Sum(SentBit, s'.orders) == Sum(SentBit, s.orders) - SentBit(o)
    && s'.live + s'.pendingNew == s.live + s.pendingNew
    && (s'.live > 0 <==> SentBit(o) == 1 || s.live > 0)
  }

  /** A partial fill can leave any part of the order. */
  lemma Adjusts(s: Oms, id: OrderId, left: u32)
    requires Steady(s) && id in s.index && 0 < left <= s.orders[s.index[id]].qty
    ensures Adjusted(s, OnExecution(s, Report(id, PartialFill, 0.0, Adjusting(s.orders[s.index[id]], left))), id, left)
  {
    var slot := s.index[id];
    var o := s.orders[slot];
    var r := Report(id, PartialFill, 0.0, Adjusting(o, left));
    var o' := FilledOrder(o, r);
    assert U32(o.filled + r.qty) == o.qty - left;
    ReportKeepsSteady(s, r);
    FillFrees(s, r);
    FillShape(s, slot, r);
    FillCounters(s, slot, r);
    QtyUpdate(s.orders, slot, o');
    TotalsUpdate(s.orders, slot, o');
    if o.status.Sent? {
      SentIsPending(s, slot);
    }
  }

  lemma AdjustedThenRetired(s: Oms, s1: Oms, s': Oms, id: OrderId, freed: u32)
    requires Steady(s) && id in s.index && Adjusted(s, s1, id, freed) && Retired(s1, s', id, freed)
    ensures Retired(s, s', id, freed)
  {
  }

  /** An open order can be retired with any part of it cancelled. */
  lemma Retires(s: Oms, id: OrderId, freed: u32) returns (es: seq<Event>)
    requires Steady(s) && id in s.index && freed <= s.orders[s.index[id]].qty
    ensures Retired(s, Run(s, es), id, freed)
  {
    if freed == 0 {
      var fill := Exec(Report(id, Fill, 0.0, 0));
      FillRetires(s, id);
      RunTwo(s, fill, fill);
      es := [fill];
    } else {
      var r := Report(id, PartialFill, 0.0, Adjusting(s.orders[s.index[id]], freed));
      var s1 := OnExecution(s, r);
      Adjusts(s, id, freed);
      CancelRetires(s1, id);
      AdjustedThenRetired(s, s1, OnExecution(s1, Report(id, CancelAck, 0.0, 0)), id, freed);
      RunTwo(s, Exec(r), Exec(Report(id, CancelAck, 0.0, 0)));
      es := [Exec(r), Exec(Report(id, CancelAck, 0.0, 0))];
    }
  }

  /** How much of an open order to cancel so that the rest can still be brought within reach. */
  ghost function Amount(s: Oms, o: Order): int {
    var most := if o.side.Buy? then High(s) + REACH else REACH - Low(s);
    if o.qty <= most then o.qty else most
  }

  lemma AmountFits(s: Oms, id: OrderId)
    requires Steady(s) && !Stranded(s) && id in s.index
    ensures var o := s.orders[s.index[id]]; 0 <= Amount(s, o) <= o.qty
  {
  }

  lemma AmountHelps(s: Oms, s': Oms, id: OrderId, freed: nat)
    requires Steady(s) && !Stuck(s) && !Stranded(s) && id in s.index
    requires freed == Amount(s, s.orders[s.index[id]]) && Retired(s, s', id, freed)
    ensures !Stuck(s') && !Stranded(s')
  {
    var o := s.orders[s.index[id]];
    SteadyExposure(s);
    SizedWeights(s'.orders);
    assert Open(o);
  }

  /** With nothing open and the exposure within reach an order passes: one that brings it back to the limit. */
  lemma SomethingPasses(s: Oms) returns (side: Side, price: real, qty: u32)
    requires Steady(s) && s.index == map[] && !Stuck(s) && !Stranded(s)
    ensures CheckRisk(s, side, price, qty)
  {
    NothingOpen(s);
    SteadyExposure(s);
    var x := Exposure(s);
    price := s.refPrice;
    if x > MAX_POSITION {
      side, qty := Sell, x - MAX_POSITION;
    } else if x < -MAX_POSITION {
      side, qty := Buy, -MAX_POSITION - x;
    } else {
      side, qty := Buy, 0;
    }
  }

  lemma NothingOpen(s: Oms)
    requires Steady(s) && s.index == map[]
    ensures Sum(SentBit, s.orders) == 0 && Low(s) == Exposure(s) == High(s)
  {
    assert forall k :: 0 <= k < |s.orders| ==> !Open(s.orders[k]);
    SumAllZero(SentBit, s.orders);
    SumAllZero(BuyQty, s.orders);
    SumAllZero(SellQty, s.orders);
  }

  lemma {:induction false} WayOut(s: Oms) returns (es: seq<Event>, side: Side, price: real, qty: u32)
    requires Steady(s) && !Stuck(s) && !Stranded(s)
    ensures CheckRisk(Run(s, es), side, price, qty)
    decreases |s.index|
  {
    if s.index == map[] {
      es := [];
      side, price, qty := SomethingPasses(s);
    } else {
      var id :| id in s.index;
      AmountFits(s, id);
      var freed := Amount(s, s.orders[s.index[id]]);
      var first := Retires(s, id, freed);
      var s' := Run(s, first);
      AmountHelps(s, s', id, freed);
      assert s'.index.Keys == s.index.Keys - {id};
      assert |s'.index| == |s'.index.Keys| && |s.index| == |s.index.Keys|;
      var rest;
      rest, side, price, qty := WayOut(s');
      RunAppend(s, first, rest);
      es := first + rest;
    }
  }

  lemma SteadyStoppedIff(s: Oms)
    requires Steady(s)
    ensures Stopped(s) <==> Stuck(s) || Stranded(s)
  {
    if Stuck(s) || Stranded(s) {
      forall more, side, price, qty ensures !CheckRisk(Run(s, more), side, price, qty) {
        RunStaysStopped(s, more);
        StopRefuses(Run(s, more), side, price, qty);
      }
    } else {
      var es, side, price, qty := WayOut(s);
      assert CheckRisk(Run(s, es), side, price, qty);
    }
  }

  /** After every run, with any reports before and after: trading has stopped for good if and only if the admission
      counters are stuck or the exposure is stranded. */
  lemma StoppedIff(s0: Oms, es: seq<Event>)
    requires Initial(s0)
    ensures Stopped(Run(s0, es)) <==> Stuck(Run(s0, es)) || Stranded(Run(s0, es))
  {
    InitSteady(s0);
    RunKeepsSteady(s0, es);
    SteadyStoppedIff(Run(s0, es));
  }

  /** With nothing open: exactly if the counters show 50 or the exposure is more than 10,500 either way. */
  lemma IdleStoppedIff(s0: Oms, es: seq<Event>)
    requires Initial(s0) && Run(s0, es).index == map[]
    ensures var s := Run(s0, es);
            Stopped(s) <==> s.live + s.pendingNew >= 50 || Exposure(s) > 10_500 || Exposure(s) < -10_500
  {
    InitSteady(s0);
    RunKeepsSteady(s0, es);
    NothingOpen(Run(s0, es));
    StoppedIff(s0, es);
  }

  // ----- a well-formed run that gets there -----

  /** With a sell of 10,000 resting against a position of 10,500, a sell of 1 makes room for one more to buy. */
  lemma LeansTooFar(s0: Oms, s: Oms, big: OrderId) returns (s': Oms, small: OrderId)
    requires Reaches(s0, s) && Stands(s, 10_500, -10_000, 1) && RestingSell(s, big, 10_000)
    ensures Reaches(s0, s') && Stands(s', 10_501, -10_001, 2)
    ensures RestingSell(s', big, 10_000) && RestingSell(s', small, 1)
  {
    small := s.nextId;
    IdsAreOld(s, big);
    var s1 := ReachesRest(s0, s, 1);
    StillResting(s, s1, s.nextId, big, 10_000);
    IdsAreOld(s1, big);
    IdsAreOld(s1, small);
    s' := ReachesBuy(s0, s1, 1);
    StillResting(s1, s', s1.nextId, big, 10_000);
    StillResting(s1, s', s1.nextId, small, 1);
  }

  /** Both sells are cancelled. */
  lemma Falls(s0: Oms, s: Oms, big: OrderId, small: OrderId) returns (s': Oms)
    requires Reaches(s0, s) && Stands(s, 10_501, -10_001, 2)
    requires RestingSell(s, big, 10_000) && RestingSell(s, small, 1)
    ensures Reaches(s0, s') && Stands(s', 10_501, 0, 0) && s'.index == map[]
  {
    var s1 := ReachesCancel(s0, s, small, 1);
    StillResting(s, s1, small, big, 10_000);
    s' := ReachesCancel(s0, s1, big, 10_000);
    BooksBounds(s');
  }

  /** The ladder up to its tenth step, on which the growing sell has reached 10,000. */
  lemma TenthStep(s0: Oms) returns (s: Oms, big: OrderId)
    requires Initial(s0)
    ensures Reaches(s0, s) && Stands(s, 10_500, -10_000, 1) && RestingSell(s, big, 10_000)
  {
    s, big := Climb(s0, 0, 9);
    s := ClearGrowing(s0, s, 0, 9, big);
    s, big := SellLarger(s0, s, 0, 9);
    IdsAreOld(s, big);
    var s' := ReachesBuy(s0, s, 1000);
    StillResting(s, s', s.nextId, big, 10_000);
    s := s';
  }

  /** A faithful exchange can stop trading too: some well-formed run ends with nothing open and a position of 10,501,
      which no order that the risk check allows can reduce to 500. */
  lemma WellFormedRunCanStop(s0: Oms)
    requires Initial(s0)
    ensures exists es: seq<Event> ::
              && WellFormedRun(s0, es) && Stopped(Run(s0, es))
              && Run(s0, es).index == map[] && Run(s0, es).position == 10_501
  {
    var s, big := TenthStep(s0);
    var small;
    s, small := LeansTooFar(s0, s, big);
    s := Falls(s0, s, big, small);
    var es :| Leads(s0, es, s);
    IdleStoppedIff(s0, es);
    assert WellFormedRun(s0, es) && Stopped(Run(s0, es));
  }
}
