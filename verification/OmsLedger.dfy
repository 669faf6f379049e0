/** Runs against an exchange that reports faithfully: the counters are exact and the position is bounded. */
module OmsLedger {
  import opened Words
  import opened OmsModel
  import opened OmsSafety

  // ----- weights of a record -----

  function SentBit(o: Order): int {
    if o.status.Sent? then 1 else 0
  }

  function LiveBit(o: Order): int {
    if o.status.Live? || o.status.PartiallyFilled? then 1 else 0
  }

  function BuyLeaves(o: Order): int {
    if Open(o) && o.side.Buy? then o.leaves else 0
  }

  function SellLeaves(o: Order): int {
    if Open(o) && o.side.Sell? then o.leaves else 0
  }

  /** Accepted, still open and without a fill. */
  function WaitingBit(o: Order): int {
    if LiveBit(o) == 1 && o.filled == 0 then 1 else 0
  }

  /** How replacing the record in `slot` moves every total. */
  lemma TotalsUpdate(os: seq<Order>, slot: nat, o: Order)
    requires slot < |os|
    ensures Sum(SentBit, os[slot := o]) == Sum(SentBit, os) - SentBit(os[slot]) + SentBit(o)
    ensures Sum(LiveBit, os[slot := o]) == Sum(LiveBit, os) - LiveBit(os[slot]) + LiveBit(o)
    ensures Sum(BuyLeaves, os[slot := o]) == Sum(BuyLeaves, os) - BuyLeaves(os[slot]) + BuyLeaves(o)
    ensures Sum(SellLeaves, os[slot := o]) == Sum(SellLeaves, os) - SellLeaves(os[slot]) + SellLeaves(o)
    ensures Sum(WaitingBit, os[slot := o]) == Sum(WaitingBit, os) - WaitingBit(os[slot]) + WaitingBit(o)
  {
    SumUpdate(SentBit, os, slot, o);
    SumUpdate(LiveBit, os, slot, o);
    SumUpdate(BuyLeaves, os, slot, o);
    SumUpdate(SellLeaves, os, slot, o);
    SumUpdate(WaitingBit, os, slot, o);
  }

  // ----- exact counters -----

  ghost predicate Record(o: Order) {
    Open(o) ==> o.qty <= MAX_ORDER_QTY && o.filled + o.leaves == o.qty && (o.status.Sent? ==> o.filled == 0)
  }

  ghost predicate Records(os: seq<Order>) {
    forall o :: o in os ==> Record(o)
  }

  /** `pending_new_` counts the Sent orders, `live_orders_` the Live and PartiallyFilled ones, and
      `pending_position_delta_` is the signed sum of what is still to fill. */
  ghost predicate Exact(s: Oms) {
    && s.pendingNew == Sum(SentBit, s.orders)
    && s.live == Sum(LiveBit, s.orders)
    && s.pendingDelta == Sum(BuyLeaves, s.orders) - Sum(SellLeaves, s.orders)
  }

  ghost predicate Books(s: Oms) {
    Safe(s) && Records(s.orders) && Exact(s)
  }

  /** The reports after which the counters are still exact.  A partial fill may even carry a quantity that,
      read as an int32, is negative, as long as it takes back no more than was filled. */
  predicate Faithful(o: Order, r: Report) {
    match r.exec
    case Fill => r.qty == o.leaves
    case PartialFill => 0 - o.filled <= Wrap32(r.qty) <= o.leaves
    case CancelAck => !o.status.Sent?
    case Reject => o.status.Sent?
    case NewAck => true
    case CancelReject => true
    case Unknown => true
  }

  lemma RecordsUpdate(os: seq<Order>, slot: nat, o: Order)
    requires slot < |os| && Records(os)
    ensures Records(os[slot := o]) <==> Record(o)
  {
    assert os[slot := o][slot] == o;
  }

  lemma {:induction false} RecordWeights(os: seq<Order>)
    requires Records(os)
    ensures 0 <= Sum(BuyLeaves, os) <= MAX_ORDER_QTY * Sum(OpenBit, os)
    ensures 0 <= Sum(SellLeaves, os) <= MAX_ORDER_QTY * Sum(OpenBit, os)
    ensures 0 <= Sum(BuyLeaves, os) + Sum(SellLeaves, os) <= MAX_ORDER_QTY * Sum(OpenBit, os)
    ensures Sum(SentBit, os) + Sum(LiveBit, os) == Sum(OpenBit, os)
  {
    if os != [] {
      RecordWeights(os[..|os| - 1]);
      assert os[|os| - 1] in os;
    }
  }

  /** Sums of counters of a state with exact books are small. */
  lemma BooksBounds(s: Oms)
    requires Books(s)
    ensures 0 <= Sum(BuyLeaves, s.orders) && 0 <= Sum(SellLeaves, s.orders)
    ensures Sum(BuyLeaves, s.orders) + Sum(SellLeaves, s.orders) <= MAX_ORDER_QTY * |s.index|
    ensures s.pendingNew + s.live == |s.index| <= MAX_LIVE_ORDERS
  {
    RecordWeights(s.orders);
  }

  /** The counters a fill touches. */
  lemma FillCounters(s: Oms, slot: nat, r: Report)
    requires Shape(s) && slot < |s.orders| && Open(s.orders[slot])
    ensures var s' := OnFill(s, slot, r);
            var sent := s.orders[slot].status.Sent?;
            var live := if sent then s.live + 1 else s.live;
            && s'.pendingNew == (if sent then Dec(s.pendingNew) else s.pendingNew)
            && s'.live == (if Open(FilledOrder(s.orders[slot], r)) then live else Dec(live))
            && s'.pendingDelta == Wrap32(s.pendingDelta - Signed(s.orders[slot].side, r.qty))
            && s'.refPrice == s.refPrice && s'.orderCount == s.orderCount
            && s'.stats.accepted == (if sent then s.stats.accepted + 1 else s.stats.accepted)
            && s'.stats.rejects == s.stats.rejects && s'.stats.missedIoc == s.stats.missedIoc
            && s'.stats.filledOrders == s.stats.filledOrders
                                        + (if FilledOrder(s.orders[slot], r).filled == r.qty then 1 else 0)
  {
  }

  /** What a fill means for the record alone: leaves drop by the signed quantity exactly for the
      faithful ones, and the order is retired exactly when nothing is left (or the report says so). */
  lemma FilledRecord(o: Order, r: Report)
    requires Open(o) && Record(o) && (r.exec.Fill? || r.exec.PartialFill?)
    ensures var o' := FilledOrder(o, r);
            && (Open(o') ==> LiveBit(o') == 1 && r.exec.PartialFill? && o'.leaves > 0)
            && o'.side == o.side && o'.id == o.id && o'.kind == o.kind && o'.qty == o.qty && o'.leaves <= o.qty
            && (Faithful(o, r) <==> Record(o') && o.leaves - Left(o') == Wrap32(r.qty))
  {
  }

  /** The int32 update of the pending delta is exact for precisely one amount. */
  lemma DeltaMatches(pd: int32, side: Side, q: u32, drop: int)
    requires -1_000_000 <= pd <= 1_000_000 && -20_000 <= drop <= 20_000
    ensures Wrap32(pd - Signed(side, q)) == pd - (if side.Buy? then drop else 0 - drop) <==> Wrap32(q) == drop
  {
  }

  function Left(o: Order): u32 {
    if Open(o) then o.leaves else 0
  }

  /** One record is replaced and the two order counters follow it: the books stay exact exactly when the
      pending delta moves by the drop in what is left to fill. */
  lemma ExactAfter(s: Oms, s': Oms, slot: nat, o': Order)
    requires Books(s) && slot < MAX_ORDERS && s'.orders == s.orders[slot := o'] && o'.side == s.orders[slot].side
    requires Open(s.orders[slot])
    requires s'.pendingNew == s.pendingNew - SentBit(s.orders[slot]) + SentBit(o')
    requires s'.live == s.live - LiveBit(s.orders[slot]) + LiveBit(o')
    ensures Exact(s') <==>
            s'.pendingDelta == s.pendingDelta - (if o'.side.Buy? then Left(s.orders[slot]) - Left(o')
                                                 else Left(o') - Left(s.orders[slot]))
  {
    TotalsUpdate(s.orders, slot, o');
  }

  /** With exact books the guarded decrements of a fill never saturate. */
  lemma FillMovesCounters(s: Oms, slot: nat, r: Report)
    requires Books(s) && slot < MAX_ORDERS && Open(s.orders[slot]) && (r.exec.Fill? || r.exec.PartialFill?)
    ensures var s', o, o' := OnFill(s, slot, r), s.orders[slot], FilledOrder(s.orders[slot], r);
            && s'.pendingNew == s.pendingNew - SentBit(o) + SentBit(o')
            && s'.live == s.live - LiveBit(o) + LiveBit(o')
            && s'.pendingDelta == Wrap32(s.pendingDelta - Signed(o.side, r.qty))
            && s'.orders == s.orders[slot := o']
  {
    FillShape(s, slot, r);
    FillCounters(s, slot, r);
    SumAtLeast(SentBit, s.orders, slot);
    SumAtLeast(LiveBit, s.orders, slot);
  }

  /** With exact books the pending delta follows the record for precisely one signed quantity. */
  lemma FillDelta(s: Oms, slot: nat, o': Order, q: u32)
    requires Books(s) && slot < MAX_ORDERS && Open(s.orders[slot]) && Record(s.orders[slot])
    requires o'.side == s.orders[slot].side && o'.leaves <= s.orders[slot].qty
    ensures var o := s.orders[slot];
            Wrap32(s.pendingDelta - Signed(o.side, q))
            == s.pendingDelta - (if o'.side.Buy? then Left(o) - Left(o') else Left(o') - Left(o))
            <==> o.leaves - Left(o') == Wrap32(q)
  {
    BooksBounds(s);
    DeltaMatches(s.pendingDelta, o'.side, q, s.orders[slot].leaves - Left(o'));
  }

  lemma FillExactIff(s: Oms, slot: nat, r: Report)
    requires Books(s) && slot < MAX_ORDERS && Open(s.orders[slot]) && (r.exec.Fill? || r.exec.PartialFill?)
    ensures var s' := OnFill(s, slot, r);
            Exact(s') && Records(s'.orders) <==> Faithful(s.orders[slot], r)
  {
    var o, o', s' := s.orders[slot], FilledOrder(s.orders[slot], r), OnFill(s, slot, r);
    assert Record(o) by { assert o in s.orders; }
    FilledRecord(o, r);
    RecordsUpdate(s.orders, slot, o');
    FillMovesCounters(s, slot, r);
    FillDelta(s, slot, o', r.qty);
    ExactAfter(s, s', slot, o');
  }

  /** A total of non-negative weights is at least each of them. */
  lemma SumAtLeast(w: Order -> int, os: seq<Order>, i: nat)
    requires i < |os| && forall o :: o in os ==> w(o) >= 0
    ensures Sum(w, os) >= w(os[i])
  {
    var k := |os| - 1;
    if i == k {
      SumNonNegative(w, os[..k]);
    } else {
      SumAtLeast(w, os[..k], i);
      assert os[k] in os;
    }
  }

  lemma SumNonNegative(w: Order -> int, os: seq<Order>)
    requires forall o :: o in os ==> w(o) >= 0
    ensures Sum(w, os) >= 0
  {
    if os != [] {
      SumNonNegative(w, os[..|os| - 1]);
      assert os[|os| - 1] in os;
    }
  }

  lemma CancelExactIff(s: Oms, slot: nat)
    requires Books(s) && slot < MAX_ORDERS && Open(s.orders[slot])
    ensures var s' := OnCancelAck(s, slot);
            Exact(s') && Records(s'.orders) <==> !s.orders[slot].status.Sent?
  {
    var o, s' := s.orders[slot], OnCancelAck(s, slot);
    var o' := o.(status := Cancelled);
    assert Record(o) by { assert o in s.orders; }
    TotalsUpdate(s.orders, slot, o');
    RecordsUpdate(s.orders, slot, o');
    BooksBounds(s);
    SumAtLeast(LiveBit, s.orders, slot);
    DeltaMatches(s.pendingDelta, o.side, o.leaves, o.leaves);
    if !o.status.Sent? {
      ExactAfter(s, s', slot, o');
    }
  }

  lemma RejectExactIff(s: Oms, slot: nat)
    requires Books(s) && slot < MAX_ORDERS && Open(s.orders[slot])
    ensures var s' := OnReject(s, slot);
            Exact(s') && Records(s'.orders) <==> s.orders[slot].status.Sent?
  {
    var o, s' := s.orders[slot], OnReject(s, slot);
    var o' := o.(status := Rejected);
    assert Record(o) by { assert o in s.orders; }
    TotalsUpdate(s.orders, slot, o');
    RecordsUpdate(s.orders, slot, o');
    BooksBounds(s);
    SumAtLeast(SentBit, s.orders, slot);
    DeltaMatches(s.pendingDelta, o.side, o.leaves, o.leaves);
    if o.status.Sent? {
      ExactAfter(s, s', slot, o');
    }
  }

  lemma AckKeepsExact(s: Oms, slot: nat)
    requires Books(s) && slot < MAX_ORDERS && Open(s.orders[slot])
    ensures var s' := OnNewAck(s, slot); Exact(s') && Records(s'.orders)
  {
    var o := s.orders[slot];
    if o.status.Sent? {
      assert Record(o) by { assert o in s.orders; }
      RecordsUpdate(s.orders, slot, o.(status := Live));
      BooksBounds(s);
      SumAtLeast(SentBit, s.orders, slot);
      ExactAfter(s, OnNewAck(s, slot), slot, o.(status := Live));
    }
  }

  /** Exactness of the three counters survives a report if and only if the report is faithful to the order it
      names: cancelling an unacknowledged order leaks `pending_new_`, rejecting an acknowledged one leaks
      `live_orders_`, and a fill that does not match what is left leaks pending delta. */
  lemma BooksKeptIff(s: Oms, r: Report)
    requires Books(s) && r.id in s.index
    ensures Books(OnExecution(s, r)) <==> Faithful(s.orders[s.index[r.id]], r)
  {
    ReportKeepsSafe(s, r);
    var slot := s.index[r.id];
    match r.exec
    case NewAck => AckKeepsExact(s, slot);
    case Fill => FillExactIff(s, slot, r);
    case PartialFill => FillExactIff(s, slot, r);
    case CancelAck => CancelExactIff(s, slot);
    case Reject => RejectExactIff(s, slot);
    case CancelReject =>
    case Unknown =>
  }

  /** The next slot holds no open order, so a new order adds its weights to the totals. */
  lemma SendTotals(s: Oms, o: Order)
    requires Books(s) && NextSlot(s) < MAX_ORDERS && o.status.Sent? && o.filled == 0
             && o.leaves == o.qty <= MAX_ORDER_QTY
    ensures var os := s.orders[NextSlot(s) := o];
            && Records(os)
            && Sum(SentBit, os) == Sum(SentBit, s.orders) + 1
            && Sum(LiveBit, os) == Sum(LiveBit, s.orders)
            && Sum(BuyLeaves, os) == Sum(BuyLeaves, s.orders) + (if o.side.Buy? then o.qty else 0)
            && Sum(SellLeaves, os) == Sum(SellLeaves, s.orders) + (if o.side.Buy? then 0 else o.qty)
            && Sum(WaitingBit, os) == Sum(WaitingBit, s.orders)
  {
    assert !Open(s.orders[NextSlot(s)]);
    TotalsUpdate(s.orders, NextSlot(s), o);
    RecordsUpdate(s.orders, NextSlot(s), o);
  }

  lemma SendKeepsBooks(s: Oms, side: Side, price: real, qty: u32, kind: OrderType)
    requires Books(s) && s.nextId > 0
    ensures Books(SendNew(s, side, price, qty, kind))
  {
    SendKeepsSafe(s, side, price, qty, kind);
    if Accepts(s, side, price, qty) {
      SendTotals(s, NewOrder(s, side, price, qty, kind));
      SendDelta(s, side, qty);
    }
  }

  lemma SendDelta(s: Oms, side: Side, qty: u32)
    requires Books(s) && qty <= MAX_ORDER_QTY
    ensures Wrap32(s.pendingDelta + Signed(side, qty)) == s.pendingDelta + (if side.Buy? then qty else 0 - qty)
  {
    BooksBounds(s);
  }

  /** The counters are exact after every event of the run. */
  ghost predicate BooksThroughout(s: Oms, es: seq<Event>)
    requires Shape(s)
  {
    Books(Run(s, es)) && (es == [] || BooksThroughout(s, es[..|es| - 1]))
  }

  /** Every report of the run is faithful in the state it arrives in. */
  ghost predicate FaithfulRun(s: Oms, es: seq<Event>)
    requires Shape(s)
  {
    es == [] ||
    var e, s' := es[|es| - 1], Run(s, es[..|es| - 1]);
    && FaithfulRun(s, es[..|es| - 1])
    && (e.Exec? && e.report.id in s'.index ==> Faithful(s'.orders[s'.index[e.report.id]], e.report))
  }

  lemma StepKeepsBooksIff(s: Oms, e: Event)
    requires Books(s) && s.nextId > 0
    ensures Books(Step(s, e)) <==>
            (e.Exec? && e.report.id in s.index ==> Faithful(s.orders[s.index[e.report.id]], e.report))
  {
    match e
    case Send(side, price, qty, kind) => SendKeepsBooks(s, side, price, qty, kind);
    case SetReference(p) =>
    case Exec(r) =>
      if r.id in s.index {
        BooksKeptIff(s, r);
      }
  }

  /** For every run: the counters are exact at all times if and only if every report was faithful. */
  lemma {:induction false} BooksThroughoutIff(s: Oms, es: seq<Event>)
    requires Books(s) && s.nextId > 0
    ensures BooksThroughout(s, es) <==> FaithfulRun(s, es)
  {
    if es != [] {
      BooksThroughoutIff(s, es[..|es| - 1]);
      RunKeepsSafe(s, es[..|es| - 1]);
      if Books(Run(s, es[..|es| - 1])) {
        StepKeepsBooksIff(Run(s, es[..|es| - 1]), es[|es| - 1]);
      }
    }
  }

  // ----- well-formed runs -----

  /** A report of a well-behaved exchange: faithful, and every fill moves between 1 and the quantity left. */
  predicate WellFormed(s: Oms, r: Report)
    requires Shape(s)
  {
    r.id in s.index ==>
      var o := s.orders[s.index[r.id]];
      Faithful(o, r) && (r.exec.Fill? || r.exec.PartialFill? ==> 1 <= r.qty <= o.leaves)
  }

  /** Every report of the run is well-formed in the state it arrives in. */
  ghost predicate WellFormedRun(s: Oms, es: seq<Event>)
    requires Shape(s)
  {
    es == [] || (WellFormedRun(s, es[..|es| - 1])
                 && (es[|es| - 1].Exec? ==> WellFormed(Run(s, es[..|es| - 1]), es[|es| - 1].report)))
  }

  const POSITION_BOUND: int := MAX_POSITION + (MAX_LIVE_ORDERS - 1) * MAX_ORDER_QTY

  /** Even if every open buy (or every open sell) filled and nothing else did, the position would stay
      within the bound. */
  ghost predicate GrossWithin(s: Oms, bound: int) {
    && s.position + Sum(BuyLeaves, s.orders) <= bound
    && -bound <= s.position - Sum(SellLeaves, s.orders)
  }

  ghost predicate Bounded(s: Oms) {
    GrossWithin(s, POSITION_BOUND)
  }

  lemma SendKeepsBounded(s: Oms, side: Side, price: real, qty: u32, kind: OrderType)
    requires Books(s) && Bounded(s)
    ensures Bounded(SendNew(s, side, price, qty, kind))
  {
    if Accepts(s, side, price, qty) {
      SendTotals(s, NewOrder(s, side, price, qty, kind));
      BooksBounds(s);
      var base := s.position + s.pendingDelta + (if side.Buy? then qty else 0 - qty);
      assert -MAX_POSITION <= base <= MAX_POSITION;
    }
  }

  /** Moving `moved` from one order's leaves to the position, and possibly dropping the rest. */
  lemma WithinAfter(s: Oms, s': Oms, slot: nat, o': Order, moved: nat, bound: int)
    requires Shape(s) && GrossWithin(s, bound) && slot < MAX_ORDERS && s'.orders == s.orders[slot := o']
    requires o'.side == s.orders[slot].side && Left(o') + moved <= Left(s.orders[slot])
    requires s'.position == s.position + (if o'.side.Buy? then moved else 0 - moved)
    ensures GrossWithin(s', bound)
  {
    TotalsUpdate(s.orders, slot, o');
  }

  lemma FillMovesPosition(s: Oms, slot: nat, r: Report)
    requires Books(s) && Bounded(s) && slot < MAX_ORDERS && Open(s.orders[slot]) && r.qty <= MAX_ORDER_QTY
    ensures OnFill(s, slot, r).position == s.position + (if s.orders[slot].side.Buy? then r.qty else 0 - r.qty)
  {
    BooksBounds(s);
    FillMoney(s, slot, r);
  }

  lemma FillKeepsWithin(s: Oms, slot: nat, r: Report, bound: int)
    requires Books(s) && Bounded(s) && GrossWithin(s, bound) && slot < MAX_ORDERS && Open(s.orders[slot])
    requires (r.exec.Fill? || r.exec.PartialFill?) && Faithful(s.orders[slot], r) && r.qty <= s.orders[slot].leaves
    ensures GrossWithin(OnFill(s, slot, r), bound)
  {
    var o := s.orders[slot];
    assert Record(o) by { assert o in s.orders; }
    FillShape(s, slot, r);
    FillMovesPosition(s, slot, r);
    FilledRecord(o, r);
    WithinAfter(s, OnFill(s, slot, r), slot, FilledOrder(o, r), r.qty, bound);
  }

  /** Well-formed reports move quantity from the leaves to the position or drop it: whatever bound holds for the
      position and the leaves together still does. */
  lemma ReportKeepsWithin(s: Oms, r: Report, bound: int)
    requires Books(s) && Bounded(s) && GrossWithin(s, bound) && r.id in s.index && WellFormed(s, r)
    ensures GrossWithin(OnExecution(s, r), bound)
  {
    var slot := s.index[r.id];
    var o := s.orders[slot];
    match r.exec
    case NewAck => WithinAfter(s, OnNewAck(s, slot), slot, OnNewAck(s, slot).orders[slot], 0, bound);
    case Fill => FillKeepsWithin(s, slot, r, bound);
    case PartialFill => FillKeepsWithin(s, slot, r, bound);
    case CancelAck => WithinAfter(s, OnCancelAck(s, slot), slot, o.(status := Cancelled), 0, bound);
    case Reject => WithinAfter(s, OnReject(s, slot), slot, o.(status := Rejected), 0, bound);
    case CancelReject =>
    case Unknown =>
  }

  lemma StepKeepsBooks(s: Oms, e: Event)
    requires Books(s) && Bounded(s) && s.nextId > 0 && (e.Exec? ==> WellFormed(s, e.report))
    ensures Books(Step(s, e)) && Bounded(Step(s, e))
  {
    match e
    case Send(side, price, qty, kind) =>
      SendKeepsBooks(s, side, price, qty, kind);
      SendKeepsBounded(s, side, price, qty, kind);
    case SetReference(p) =>
    case Exec(r) =>
      if r.id in s.index {
        BooksKeptIff(s, r);
        ReportKeepsWithin(s, r, POSITION_BOUND);
      }
  }

  lemma InitBooks(s: Oms)
    requires Initial(s)
    ensures Books(s) && Bounded(s)
  {
    InitSafe(s);
    SumAllZero(SentBit, s.orders);
    SumAllZero(LiveBit, s.orders);
    SumAllZero(BuyLeaves, s.orders);
    SumAllZero(SellLeaves, s.orders);
  }

  lemma {:induction false} WellFormedRunKeepsBooks(s: Oms, es: seq<Event>)
    requires Books(s) && Bounded(s) && s.nextId > 0 && WellFormedRun(s, es)
    ensures Books(Run(s, es)) && Bounded(Run(s, es)) && Run(s, es).nextId > 0
  {
    RunKeepsSafe(s, es);
    if es != [] {
      WellFormedRunKeepsBooks(s, es[..|es| - 1]);
      StepKeepsBooks(Run(s, es[..|es| - 1]), es[|es| - 1]);
    }
  }

  lemma WithinBounds(s: Oms, side: Side, qty: u32)
    requires Books(s) && Bounded(s)
    ensures -POSITION_BOUND <= s.position <= POSITION_BOUND
    ensures -500_000 <= s.pendingDelta <= 500_000
    ensures qty <= MAX_ORDER_QTY ==>
              RiskBase(s, side, qty) == s.position + s.pendingDelta + (if side.Buy? then qty else 0 - qty)
  {
    BooksBounds(s);
  }

  function Directed(side: Side, qty: nat): int {
    if side.Buy? then qty else 0 - qty
  }

  /** What an event trades, and what it adds to the quantity still to trade, over the integers. */
  function Traded(s: Oms, e: Event): int
    requires Shape(s)
  {
    if e.Exec? && e.report.id in s.index && (e.report.exec.Fill? || e.report.exec.PartialFill?) then
      Directed(s.orders[s.index[e.report.id]].side, e.report.qty)
    else 0
  }

  function Opened(s: Oms, e: Event): int
    requires Shape(s)
  {
    match e
    case Send(side, price, qty, kind) => if Accepts(s, side, price, qty) then Directed(side, qty) else 0
    case SetReference(p) => 0
    case Exec(r) =>
      if r.id !in s.index then 0 else
      var o := s.orders[s.index[r.id]];
      match r.exec
      case Fill => 0 - Directed(o.side, r.qty)
      case PartialFill => 0 - Directed(o.side, r.qty)
      case CancelAck => 0 - Directed(o.side, o.leaves)
      case Reject => 0 - Directed(o.side, o.leaves)
      case NewAck => 0
      case CancelReject => 0
      case Unknown => 0
  }

  /** The event updates position and pending delta without wrap-around. */
  predicate UpdatesExactly(s: Oms, e: Event)
    requires Shape(s)
  {
    var s' := Step(s, e);
    s'.position == s.position + Traded(s, e) && s'.pendingDelta == s.pendingDelta + Opened(s, e)
  }

  lemma FillUpdatesExactly(s: Oms, r: Report)
    requires Books(s) && Bounded(s) && r.id in s.index && WellFormed(s, r) && (r.exec.Fill? || r.exec.PartialFill?)
    ensures UpdatesExactly(s, Exec(r))
  {
    assert s.orders[s.index[r.id]] in s.orders;
    WithinBounds(s, Buy, 0);
    FillMoney(s, s.index[r.id], r);
  }

  lemma CloseUpdatesExactly(s: Oms, r: Report)
    requires Books(s) && Bounded(s) && r.id in s.index && (r.exec.CancelAck? || r.exec.Reject?)
    ensures UpdatesExactly(s, Exec(r))
  {
    assert s.orders[s.index[r.id]] in s.orders;
    WithinBounds(s, Buy, 0);
  }

  lemma StepUpdatesExactly(s: Oms, e: Event)
    requires Books(s) && Bounded(s) && (e.Exec? ==> WellFormed(s, e.report))
    ensures UpdatesExactly(s, e)
  {
    if e.Exec? && e.report.id in s.index {
      match e.report.exec
      case Fill => FillUpdatesExactly(s, e.report);
      case PartialFill => FillUpdatesExactly(s, e.report);
      case CancelAck => CloseUpdatesExactly(s, e.report);
      case Reject => CloseUpdatesExactly(s, e.report);
      case _ =>
    } else {
      WithinBounds(s, Buy, 0);
    }
  }

  /** The position bound: in every well-formed run the position never leaves [-490500, 490500], the pending
      delta never leaves [-500000, 500000], the next event adds to both over the integers, and the sums the risk
      check forms fit in an int32: no signed overflow occurs. */
  lemma PositionBound(s0: Oms, es: seq<Event>, e: Event, side: Side, qty: u32)
    requires Initial(s0) && WellFormedRun(s0, es) && (e.Exec? ==> WellFormed(Run(s0, es), e.report))
    ensures var s := Run(s0, es);
            && -490_500 <= s.position <= 490_500
            && -500_000 <= s.pendingDelta <= 500_000
            && UpdatesExactly(s, e)
            && (qty <= MAX_ORDER_QTY ==>
                  RiskBase(s, side, qty) == s.position + s.pendingDelta + (if side.Buy? then qty else 0 - qty))
  {
    InitBooks(s0);
    WellFormedRunKeepsBooks(s0, es);
    WithinBounds(Run(s0, es), side, qty);
    StepUpdatesExactly(Run(s0, es), e);
  }

  /** Open orders, as the admission counters see them: exact, and never more than 50. */
  lemma OpenOrdersCounted(s0: Oms, es: seq<Event>)
    requires Initial(s0) && WellFormedRun(s0, es)
    ensures var s := Run(s0, es);
            && s.pendingNew == Sum(SentBit, s.orders) && s.live == Sum(LiveBit, s.orders)
            && s.pendingDelta == Sum(BuyLeaves, s.orders) - Sum(SellLeaves, s.orders)
            && s.pendingNew + s.live == |s.index| <= MAX_LIVE_ORDERS
  {
    InitBooks(s0);
    WellFormedRunKeepsBooks(s0, es);
    BooksBounds(Run(s0, es));
  }
}
