/** Exactly when the position limit of the configuration holds: the risk check looks at the net quantity still to trade,
    while what can happen to the position depends on the buys and the sells by themselves. */
module OmsLimit {
  import opened Words
  import opened OrderMap
  import opened OmsModel
  import opened OmsSafety
  import opened OmsLedger

  /** A well-formed continuation in which nothing is sent. */
  ghost predicate Outcome(s: Oms, es: seq<Event>)
    requires Shape(s)
  {
    WellFormedRun(s, es) && forall e :: e in es ==> !e.Send?
  }

  /** Whatever becomes of the orders that are open, the position stays within the bound. */
  ghost predicate Contained(s: Oms, bound: int)
    requires Shape(s)
  {
    forall es :: Outcome(s, es) ==> -bound <= Run(s, es).position <= bound
  }

  lemma {:induction false} OutcomeKeepsWithin(s: Oms, es: seq<Event>, bound: int)
    requires Books(s) && Bounded(s) && s.nextId > 0 && GrossWithin(s, bound) && Outcome(s, es)
    ensures GrossWithin(Run(s, es), bound)
  {
    if es != [] {
      var es', e := es[..|es| - 1], es[|es| - 1];
      OutcomeKeepsWithin(s, es', bound);
      WellFormedRunKeepsBooks(s, es');
      assert e in es;
      if e.Exec? && e.report.id in Run(s, es').index {
        ReportKeepsWithin(Run(s, es'), e.report, bound);
      }
    }
  }

  // ----- filling one side -----

  function Leaves(side: Side): Order -> int {
    if side.Buy? then BuyLeaves else SellLeaves
  }

  /** If the total is positive, so is one of its terms. */
  lemma {:induction false} SumHasTerm(w: Order -> int, os: seq<Order>) returns (k: nat)
    requires Sum(w, os) > 0
    ensures k < |os| && w(os[k]) > 0
  {
    if w(os[|os| - 1]) > 0 {
      k := |os| - 1;
    } else {
      k := SumHasTerm(w, os[..|os| - 1]);
    }
  }

  lemma FillMovesLeaves(s: Oms, slot: nat)
    requires Books(s) && Bounded(s) && s.nextId > 0 && slot < MAX_ORDERS && Open(s.orders[slot])
    requires s.orders[slot].leaves > 0
    ensures var o := s.orders[slot];
            var r := Report(o.id, Fill, 0.0, o.leaves);
            var s' := OnExecution(s, r);
            && WellFormed(s, r) && Books(s') && Bounded(s') && s'.nextId > 0
            && s'.position == s.position + Directed(o.side, o.leaves)
            && Sum(Leaves(o.side), s'.orders) == Sum(Leaves(o.side), s.orders) - o.leaves
  {
    var o := s.orders[slot];
    var r := Report(o.id, Fill, 0.0, o.leaves);
    assert o in s.orders && s.index[o.id] == slot;
    StepKeepsBooks(s, Exec(r));
    FillMovesPosition(s, slot, r);
    FillShape(s, slot, r);
    LeavesDrop(s.orders, slot, FilledOrder(o, r));
  }

  lemma LeavesDrop(os: seq<Order>, slot: nat, o': Order)
    requires slot < |os| && Open(os[slot]) && !Open(o')
    ensures Sum(Leaves(os[slot].side), os[slot := o']) == Sum(Leaves(os[slot].side), os) - os[slot].leaves
  {
    TotalsUpdate(os, slot, o');
  }

  lemma {:induction false} RunFirst(s: Oms, e: Event, es: seq<Event>)
    requires Shape(s)
    ensures Run(s, [e] + es) == Run(Step(s, e), es)
  {
    RunTwo(s, e, e);
    RunAppend(s, [e], es);
  }

  lemma {:induction false} WellFormedFirst(s: Oms, e: Event, es: seq<Event>)
    requires Shape(s) && (e.Exec? ==> WellFormed(s, e.report)) && WellFormedRun(Step(s, e), es)
    ensures WellFormedRun(s, [e] + es)
  {
    if es == [] {
      assert [e] + es == [e] && [e][..0] == [];
      assert Run(s, []) == s && WellFormedRun(s, []);
    } else {
      var es', last := es[..|es| - 1], es[|es| - 1];
      WellFormedFirst(s, e, es');
      RunFirst(s, e, es');
      assert ([e] + es)[..|es|] == [e] + es' && ([e] + es)[|es|] == last;
    }
  }

  lemma {:induction false} OutcomeFirst(s: Oms, e: Event, es: seq<Event>)
    requires Shape(s) && e.Exec? && WellFormed(s, e.report) && Outcome(Step(s, e), es)
    ensures Outcome(s, [e] + es) && Run(s, [e] + es) == Run(Step(s, e), es)
  {
    RunFirst(s, e, es);
    WellFormedFirst(s, e, es);
  }

  /** The open orders of one side can all be filled, and nothing else. */
  lemma {:induction false} FillSide(s: Oms, side: Side) returns (es: seq<Event>)
    requires Books(s) && Bounded(s) && s.nextId > 0
    ensures Outcome(s, es)
    ensures Run(s, es).position ==
            s.position + (if side.Buy? then Sum(BuyLeaves, s.orders) else 0 - Sum(SellLeaves, s.orders))
    decreases Sum(Leaves(side), s.orders)
  {
    BooksBounds(s);
    if Sum(Leaves(side), s.orders) == 0 {
      es := [];
    } else {
      var slot := SumHasTerm(Leaves(side), s.orders);
      var o := s.orders[slot];
      var e := Exec(Report(o.id, Fill, 0.0, o.leaves));
      FillMovesLeaves(s, slot);
      var rest := FillSide(Step(s, e), side);
      OutcomeFirst(s, e, rest);
      es := [e] + rest;
    }
  }

  /** The position is contained exactly if it is within the bound together with the buys alone and with the sells
      alone. */
  lemma ContainedIff(s: Oms, bound: int)
    requires Books(s) && Bounded(s) && s.nextId > 0
    ensures Contained(s, bound) <==> GrossWithin(s, bound)
  {
    if GrossWithin(s, bound) {
      forall es | Outcome(s, es) ensures -bound <= Run(s, es).position <= bound {
        OutcomeKeepsWithin(s, es, bound);
        WellFormedRunKeepsBooks(s, es);
        BooksBounds(Run(s, es));
      }
    } else {
      var up := FillSide(s, Buy);
      var down := FillSide(s, Sell);
      assert Outcome(s, up) && Outcome(s, down);
    }
  }

  // ----- sends -----

  /** The quantity to be sent fits in with the open orders of its own side. */
  ghost predicate Fits(s: Oms, side: Side, qty: nat, bound: int) {
    if side.Buy? then s.position + Sum(BuyLeaves, s.orders) + qty <= bound
    else -bound <= s.position - Sum(SellLeaves, s.orders) - qty
  }

  /** An accepted order keeps the position contained exactly if it fits, whatever is open on the other side. */
  lemma SendKeepsWithinIff(s: Oms, side: Side, price: real, qty: u32, kind: OrderType, bound: int)
    requires Books(s) && GrossWithin(s, bound) && Accepts(s, side, price, qty)
    ensures GrossWithin(SendNew(s, side, price, qty, kind), bound) <==> Fits(s, side, qty, bound)
  {
    SendTotals(s, NewOrder(s, side, price, qty, kind));
  }

  // ----- whole runs -----

  /** After every event the position is contained. */
  ghost predicate ContainedThroughout(s: Oms, es: seq<Event>, bound: int)
    requires Shape(s)
  {
    Contained(Run(s, es), bound) && (es == [] || ContainedThroughout(s, es[..|es| - 1], bound))
  }

  /** Every order accepted in the run fitted. */
  ghost predicate FittingRun(s: Oms, es: seq<Event>, bound: int)
    requires Shape(s)
  {
    es == [] ||
    var e, s' := es[|es| - 1], Run(s, es[..|es| - 1]);
    && FittingRun(s, es[..|es| - 1], bound)
    && (e.Send? && Accepts(s', e.side, e.price, e.qty) ==> Fits(s', e.side, e.qty, bound))
  }

  lemma StepKeepsWithinIff(s: Oms, e: Event, bound: int)
    requires Books(s) && Bounded(s) && s.nextId > 0 && GrossWithin(s, bound) && (e.Exec? ==> WellFormed(s, e.report))
    ensures GrossWithin(Step(s, e), bound) <==>
            (e.Send? && Accepts(s, e.side, e.price, e.qty) ==> Fits(s, e.side, e.qty, bound))
  {
    match e
    case Send(side, price, qty, kind) =>
      if Accepts(s, side, price, qty) {
        SendKeepsWithinIff(s, side, price, qty, kind, bound);
      }
    case SetReference(p) =>
    case Exec(r) =>
      if r.id in s.index {
        ReportKeepsWithin(s, r, bound);
      }
  }

  /** The position limit, for every well-formed run: no outcome at any time takes the position beyond 500 if and only if
      every order accepted fitted in with the open orders of its own side. */
  lemma {:induction false} LimitHoldsIff(s0: Oms, es: seq<Event>)
    requires Initial(s0) && WellFormedRun(s0, es)
    ensures ContainedThroughout(s0, es, MAX_POSITION) <==> FittingRun(s0, es, MAX_POSITION)
  {
    InitBooks(s0);
    WellFormedRunKeepsBooks(s0, es);
    ContainedIff(Run(s0, es), MAX_POSITION);
    if es == [] {
      InitWithin(s0);
    } else {
      var es' := es[..|es| - 1];
      LimitHoldsIff(s0, es');
      WellFormedRunKeepsBooks(s0, es');
      ContainedIff(Run(s0, es'), MAX_POSITION);
      if GrossWithin(Run(s0, es'), MAX_POSITION) {
        StepKeepsWithinIff(Run(s0, es'), es[|es| - 1], MAX_POSITION);
      }
    }
  }

  lemma InitWithin(s0: Oms)
    requires Initial(s0)
    ensures GrossWithin(s0, MAX_POSITION)
  {
    SumAllZero(BuyLeaves, s0.orders);
    SumAllZero(SellLeaves, s0.orders);
  }
}
