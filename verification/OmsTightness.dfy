/** The position bound is attained: a well-formed run that ends with a position of exactly 490,500.

    The run climbs in steps of 1000.  Between steps the position is 500 + 1000 n, against open sells of 1000 n in
    total: orders of 10,000 each and one that is still growing.  A step cancels the growing sell, which opens room in
    the risk check, replaces it by one that is 1000 larger, and buys another 1000. */
module OmsTightness {
  import opened Words
  import opened OrderMap
  import opened OmsModel
  import opened OmsSafety
  import opened OmsLedger

  /** The record of a mapped order. */
  function Rec(s: Oms, id: OrderId): Order
    requires Shape(s) && id in s.index
  {
    s.orders[s.index[id]]
  }

  /** A state with exact books and no reference price. */
  ghost predicate Calm(s: Oms) {
    Books(s) && Bounded(s) && s.nextId > 0 && s.refPrice == 0.0
  }

  // ----- what the four kinds of events do -----

  /** The counters of `s'` are those of `s` moved by the given amounts. */
  predicate Moves(s: Oms, s': Oms, position: int, pending: int, news: int, live: int) {
    && s'.position == s.position + position && s'.pendingDelta == s.pendingDelta + pending
    && s'.pendingNew == s.pendingNew + news && s'.live == s.live + live && s'.refPrice == s.refPrice
  }

  /** Orders other than `id` keep their records. */
  ghost predicate Spares(s: Oms, s': Oms, id: OrderId)
    requires Shape(s) && Shape(s')
  {
    forall x :: x in s.index && x != id ==> x in s'.index && Rec(s', x) == Rec(s, x)
  }

  lemma SendPasses(s: Oms, side: Side, qty: u32)
    requires Books(s) && Bounded(s) && s.refPrice == 0.0
    requires qty <= MAX_ORDER_QTY && s.live + s.pendingNew < MAX_LIVE_ORDERS
    requires -MAX_POSITION <= s.position + s.pendingDelta + Directed(side, qty) <= MAX_POSITION
    ensures CheckRisk(s, side, 0.0, qty)
    ensures -1_000_000 <= s.pendingDelta <= 1_000_000
  {
    WithinBounds(s, side, qty);
  }

  lemma SlotReady(s: Oms)
    requires Safe(s) && s.live + s.pendingNew < MAX_LIVE_ORDERS
    ensures NextSlot(s) < MAX_ORDERS
  {
  }

  lemma SendMoves(s: Oms, side: Side, qty: u32)
    requires Shape(s) && Accepts(s, side, 0.0, qty) && -1_000_000 <= s.pendingDelta <= 1_000_000
    ensures Moves(s, SendNew(s, side, 0.0, qty, Limit), 0, Directed(side, qty), 1, 0)
  {
  }

  lemma SendIndexes(s: Oms, side: Side, qty: u32)
    requires Safe(s) && Accepts(s, side, 0.0, qty)
    ensures var s' := SendNew(s, side, 0.0, qty, Limit);
            && s.nextId in s'.index && Rec(s', s.nextId) == NewOrder(s, side, 0.0, qty, Limit)
            && Spares(s, s', s.nextId)
  {
  }

  lemma Sends(s: Oms, side: Side, qty: u32)
    requires Calm(s) && qty <= MAX_ORDER_QTY && s.live + s.pendingNew < MAX_LIVE_ORDERS
    requires -MAX_POSITION <= s.position + s.pendingDelta + Directed(side, qty) <= MAX_POSITION
    ensures var s' := SendNew(s, side, 0.0, qty, Limit);
            && Calm(s') && Moves(s, s', 0, Directed(side, qty), 1, 0) && Spares(s, s', s.nextId)
            && s.nextId in s'.index && Rec(s', s.nextId) == NewOrder(s, side, 0.0, qty, Limit)
  {
    SendPasses(s, side, qty);
    SlotReady(s);
    SendMoves(s, side, qty);
    SendIndexes(s, side, qty);
    StepKeepsBooks(s, Send(side, 0.0, qty, Limit));
  }

  lemma Acks(s: Oms, id: OrderId)
    requires Calm(s) && id in s.index && Rec(s, id).status.Sent?
    ensures var s' := OnExecution(s, Report(id, NewAck, 0.0, 0));
            && Calm(s') && Moves(s, s', 0, 0, -1, 1) && Spares(s, s', id)
            && id in s'.index && Rec(s', id) == Rec(s, id).(status := Live)
  {
    StepKeepsBooks(s, Exec(Report(id, NewAck, 0.0, 0)));
    SumAtLeast(SentBit, s.orders, s.index[id]);
  }

  lemma CancelMoves(s: Oms, id: OrderId)
    requires Books(s) && id in s.index && Rec(s, id).status.Live?
    ensures var s' := OnExecution(s, Report(id, CancelAck, 0.0, 0));
            Moves(s, s', 0, 0 - Directed(Rec(s, id).side, Rec(s, id).leaves), 0, -1) && Spares(s, s', id)
  {
    assert Record(Rec(s, id)) by { assert Rec(s, id) in s.orders; }
    SumAtLeast(LiveBit, s.orders, s.index[id]);
    BooksBounds(s);
  }

  lemma Cancels(s: Oms, id: OrderId)
    requires Calm(s) && id in s.index && Rec(s, id).status.Live?
    ensures var s' := OnExecution(s, Report(id, CancelAck, 0.0, 0));
            && Calm(s') && Moves(s, s', 0, 0 - Directed(Rec(s, id).side, Rec(s, id).leaves), 0, -1) && Spares(s, s', id)
  {
    CancelMoves(s, id);
    StepKeepsBooks(s, Exec(Report(id, CancelAck, 0.0, 0)));
  }

  lemma FillMoves(s: Oms, id: OrderId)
    requires Books(s) && Bounded(s) && id in s.index && Rec(s, id).status.Sent? && Rec(s, id).side.Buy?
    ensures var s', q := OnExecution(s, Report(id, Fill, 0.0, Rec(s, id).leaves)), Rec(s, id).leaves;
            Moves(s, s', q, 0 - q, -1, 0) && Spares(s, s', id)
  {
    var slot, r := s.index[id], Report(id, Fill, 0.0, Rec(s, id).leaves);
    assert Record(Rec(s, id)) by { assert Rec(s, id) in s.orders; }
    SumAtLeast(SentBit, s.orders, slot);
    FillShape(s, slot, r);
    FillCounters(s, slot, r);
    FillMoney(s, slot, r);
    WithinBounds(s, Buy, 0);
  }

  lemma Fills(s: Oms, id: OrderId)
    requires Calm(s) && id in s.index && Rec(s, id).status.Sent? && Rec(s, id).side.Buy? && Rec(s, id).leaves > 0
    ensures var s', q := OnExecution(s, Report(id, Fill, 0.0, Rec(s, id).leaves)), Rec(s, id).leaves;
            && Calm(s') && Moves(s, s', q, 0 - q, -1, 0) && Spares(s, s', id)
  {
    assert Record(Rec(s, id)) by { assert Rec(s, id) in s.orders; }
    FillMoves(s, id);
    StepKeepsBooks(s, Exec(Report(id, Fill, 0.0, Rec(s, id).leaves)));
  }

  // ----- runs -----

  /** Some well-formed run leads from `s0` to `s`. */
  ghost predicate Reaches(s0: Oms, s: Oms) {
    Shape(s0) && exists es: seq<Event> :: Leads(s0, es, s)
  }

  /** `es` is a well-formed run from `s` to `s'`. */
  ghost predicate Leads(s: Oms, es: seq<Event>, s': Oms)
    requires Shape(s)
  {
    WellFormedRun(s, es) && Run(s, es) == s'
  }

  lemma LeadsOn(s: Oms, es: seq<Event>, s1: Oms, e: Event)
    requires Shape(s) && Leads(s, es, s1) && (e.Exec? ==> WellFormed(s1, e.report))
    ensures Leads(s, es + [e], Step(s1, e))
  {
    RunExtends(s, es, e);
    assert (es + [e])[..|es|] == es;
  }

  lemma ReachesOn(s0: Oms, s: Oms, e: Event)
    requires Reaches(s0, s) && (e.Exec? ==> Shape(s) && WellFormed(s, e.report))
    ensures Shape(s) && Reaches(s0, Step(s, e))
  {
    var es :| Leads(s0, es, s);
    LeadsOn(s0, es, s, e);
  }

  lemma ReachesInit(s0: Oms)
    requires Initial(s0)
    ensures Reaches(s0, s0)
  {
    assert Leads(s0, [], s0);
  }

  // ----- the three moves -----

  /** Order `id` is an acknowledged sell of which `left` is left. */
  ghost predicate RestingSell(s: Oms, id: OrderId, left: nat) {
    Shape(s) && id in s.index && Rec(s, id).status.Live? && Rec(s, id).side.Sell? && Rec(s, id).leaves == left
  }

  lemma StillResting(s: Oms, s': Oms, gone: OrderId, id: OrderId, left: nat)
    requires Shape(s') && RestingSell(s, id, left) && Spares(s, s', gone) && gone != id
    ensures RestingSell(s', id, left)
  {
  }

  /** A buy is sent and filled at once. */
  lemma Buys(s: Oms, q: u32)
    requires Calm(s) && 0 < q <= MAX_ORDER_QTY && s.live + s.pendingNew < MAX_LIVE_ORDERS
    requires -MAX_POSITION <= s.position + s.pendingDelta + q <= MAX_POSITION
    ensures var s1, r := SendNew(s, Buy, 0.0, q, Limit), Report(s.nextId, Fill, 0.0, q);
            var s2 := OnExecution(s1, r);
            && WellFormed(s1, r) && Calm(s2) && Moves(s, s2, q, 0, 0, 0) && Spares(s, s2, s.nextId)
  {
    Sends(s, Buy, q);
    Fills(SendNew(s, Buy, 0.0, q, Limit), s.nextId);
  }

  lemma ReachesBuy(s0: Oms, s: Oms, q: u32) returns (s': Oms)
    requires Reaches(s0, s) && Calm(s) && 0 < q <= MAX_ORDER_QTY && s.live + s.pendingNew < MAX_LIVE_ORDERS
    requires -MAX_POSITION <= s.position + s.pendingDelta + q <= MAX_POSITION
    ensures Reaches(s0, s') && Calm(s') && Moves(s, s', q, 0, 0, 0) && Spares(s, s', s.nextId)
  {
    var send, fill := Send(Buy, 0.0, q, Limit), Exec(Report(s.nextId, Fill, 0.0, q));
    Buys(s, q);
    ReachesOn(s0, s, send);
    ReachesOn(s0, Step(s, send), fill);
    s' := Step(Step(s, send), fill);
  }

  /** A sell is sent and acknowledged. */
  lemma Rests(s: Oms, q: u32)
    requires Calm(s) && q <= MAX_ORDER_QTY && s.live + s.pendingNew < MAX_LIVE_ORDERS
    requires -MAX_POSITION <= s.position + s.pendingDelta - q <= MAX_POSITION
    ensures var s1, r := SendNew(s, Sell, 0.0, q, Limit), Report(s.nextId, NewAck, 0.0, 0);
            var s2 := OnExecution(s1, r);
            && WellFormed(s1, r) && Calm(s2) && Moves(s, s2, 0, 0 - q, 0, 1) && Spares(s, s2, s.nextId)
            && RestingSell(s2, s.nextId, q)
  {
    Sends(s, Sell, q);
    Acks(SendNew(s, Sell, 0.0, q, Limit), s.nextId);
  }

  lemma ReachesRest(s0: Oms, s: Oms, q: u32) returns (s': Oms)
    requires Reaches(s0, s) && Calm(s) && q <= MAX_ORDER_QTY && s.live + s.pendingNew < MAX_LIVE_ORDERS
    requires -MAX_POSITION <= s.position + s.pendingDelta - q <= MAX_POSITION
    ensures Reaches(s0, s') && Calm(s') && Moves(s, s', 0, 0 - q, 0, 1) && Spares(s, s', s.nextId)
    ensures RestingSell(s', s.nextId, q)
  {
    var send, ack := Send(Sell, 0.0, q, Limit), Exec(Report(s.nextId, NewAck, 0.0, 0));
    Rests(s, q);
    ReachesOn(s0, s, send);
    ReachesOn(s0, Step(s, send), ack);
    s' := Step(Step(s, send), ack);
  }

  lemma ReachesCancel(s0: Oms, s: Oms, id: OrderId, left: nat) returns (s': Oms)
    requires Reaches(s0, s) && Calm(s) && RestingSell(s, id, left)
    ensures Reaches(s0, s') && Calm(s') && Moves(s, s', 0, left, 0, -1) && Spares(s, s', id)
  {
    var cancel := Exec(Report(id, CancelAck, 0.0, 0));
    Cancels(s, id);
    ReachesOn(s0, s, cancel);
    s' := Step(s, cancel);
  }

  // ----- the climb -----

  /** Position and pending delta, with `live` acknowledged orders and no other open. */
  ghost predicate Stands(s: Oms, position: int, pending: int, live: nat) {
    Calm(s) && s.position == position && s.pendingDelta == pending && s.pendingNew == 0 && s.live == live
  }

  /** Between steps: with `tens` sells of 10,000 open and one of 1000 `ones`, all of it is balanced by the position but
      for 500. */
  ghost predicate Rung(s: Oms, tens: nat, ones: nat, growing: OrderId) {
    && ones < 10
    && Stands(s, 500 + 10_000 * tens + 1000 * ones, 0 - 10_000 * tens - 1000 * ones,
              if ones > 0 then tens + 1 else tens)
    && (ones > 0 ==> RestingSell(s, growing, 1000 * ones))
  }

  /** The growing sell is out of the book. */
  ghost predicate Cleared(s: Oms, tens: nat, ones: nat) {
    ones < 10 && Stands(s, 500 + 10_000 * tens + 1000 * ones, 0 - 10_000 * tens, tens)
  }

  /** A larger one has taken its place. */
  ghost predicate Resold(s: Oms, tens: nat, ones: nat, growing: OrderId) {
    && ones < 10
    && Stands(s, 500 + 10_000 * tens + 1000 * ones, 0 - 10_000 * tens - 1000 * (ones + 1), tens + 1)
    && RestingSell(s, growing, 1000 * (ones + 1))
  }

  lemma ClearGrowing(s0: Oms, s: Oms, tens: nat, ones: nat, growing: OrderId) returns (s': Oms)
    requires Reaches(s0, s) && Rung(s, tens, ones, growing)
    ensures Reaches(s0, s') && Cleared(s', tens, ones)
  {
    s' := s;
    if ones > 0 {
      s' := ReachesCancel(s0, s, growing, 1000 * ones);
    }
  }

  lemma SellLarger(s0: Oms, s: Oms, tens: nat, ones: nat) returns (s': Oms, growing: OrderId)
    requires Reaches(s0, s) && Cleared(s, tens, ones) && tens < 49
    ensures Reaches(s0, s') && Resold(s', tens, ones, growing)
  {
    growing := s.nextId;
    s' := ReachesRest(s0, s, 1000 * (ones + 1));
  }

  lemma IdsAreOld(s: Oms, id: OrderId)
    requires Safe(s) && id in s.index
    ensures id < s.nextId
  {
  }

  /** Then 1000 more are bought. */
  lemma BuyThousand(s0: Oms, s: Oms, tens: nat, ones: nat, growing: OrderId) returns (s': Oms)
    requires Reaches(s0, s) && Resold(s, tens, ones, growing) && tens < 49
    ensures Reaches(s0, s') && if ones == 9 then Rung(s', tens + 1, 0, 0) else Rung(s', tens, ones + 1, growing)
  {
    IdsAreOld(s, growing);
    s' := ReachesBuy(s0, s, 1000);
    StillResting(s, s', s.nextId, growing, 1000 * (ones + 1));
  }

  /** The ladder from its foot, at which 500 are bought. */
  lemma {:induction false} Climb(s0: Oms, tens: nat, ones: nat) returns (s: Oms, growing: OrderId)
    requires Initial(s0) && ones < 10 && (tens < 49 || (tens == 49 && ones == 0))
    ensures Reaches(s0, s) && Rung(s, tens, ones, growing)
    decreases tens, ones
  {
    if tens == 0 && ones == 0 {
      InitBooks(s0);
      ReachesInit(s0);
      growing := 0;
      s := ReachesBuy(s0, s0, 500);
    } else {
      var t, o := if ones > 0 then tens else tens - 1, if ones > 0 then ones - 1 else 9;
      s, growing := Climb(s0, t, o);
      s := ClearGrowing(s0, s, t, o, growing);
      s, growing := SellLarger(s0, s, t, o);
      s := BuyThousand(s0, s, t, o, growing);
      growing := if ones > 0 then growing else 0;
    }
  }

  /** The bound of `PositionBound` cannot be improved: some well-formed run ends at 490,500. */
  lemma PositionBoundIsAttained(s0: Oms)
    requires Initial(s0)
    ensures exists es: seq<Event> :: WellFormedRun(s0, es) && Run(s0, es).position == 490_500
  {
    var s, growing := Climb(s0, 49, 0);
    var es :| Leads(s0, es, s);
    assert WellFormedRun(s0, es) && Run(s0, es).position == 490_500;
  }
}
