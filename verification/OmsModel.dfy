/** The order management system as a value: its state and what each entry point does to it.
    The hash table of the implementation appears here as the finite map it stands for; the
    class in `Oms.dfy` is proved to compute these functions. */
module OmsModel {
  import opened Words
  import opened OrderMap

  const MAX_ORDERS: nat := 4096
  const MAX_POSITION: int := 500
  const MAX_ORDER_QTY: nat := 10000
  const MAX_PRICE_DEVIATION: real := 5.0
  const MAX_LIVE_ORDERS: nat := 50

  datatype Side = Buy | Sell
  datatype OrderType = Limit | Market | IOC
  datatype OrderStatus = Empty | PendingNew | Sent | Live | PartiallyFilled | Filled | Cancelled | Rejected
  /** `Unknown` is a wire byte outside the enumeration; the dispatch ignores it. */
  datatype ExecType = NewAck | Fill | PartialFill | CancelAck | Reject | CancelReject | Unknown

  datatype Order = Order(
    id: OrderId, price: real, qty: u32, filled: u32, leaves: u32,
    side: Side, kind: OrderType, status: OrderStatus, avgPrice: real)

  datatype Report = Report(id: OrderId, exec: ExecType, price: real, qty: u32)

  datatype Stats = Stats(
    accepted: nat, filledOrders: nat, missedIoc: nat, fills: nat, buyFills: nat, sellFills: nat,
    cancels: nat, rejects: nat, totalQty: u32, buyQty: u32, sellQty: u32)

  datatype Oms = Oms(
    orders: seq<Order>, nextId: OrderId, orderCount: nat,
    freeStack: seq<nat>, nextFresh: nat, index: map<OrderId, nat>,
    position: int32, pendingDelta: int32, cash: real,
    refPrice: real, live: nat, pendingNew: nat, stats: Stats)

  const NO_ORDER := Order(0, 0.0, 0, 0, 0, Buy, Limit, Empty, 0.0)
  const NO_STATS := Stats(0, 0, 0, 0, 0, 0, 0, 0, 0, 0, 0)

  /** The state of a newly built order manager. */
  ghost predicate Initial(s: Oms) {
    && |s.orders| == MAX_ORDERS && (forall i :: 0 <= i < MAX_ORDERS ==> s.orders[i] == NO_ORDER)
    && s.nextId == 1 && s.orderCount == 0 && s.freeStack == [] && s.nextFresh == 0 && s.index == map[]
    && s.position == 0 && s.pendingDelta == 0 && s.cash == 0.0 && s.refPrice == 0.0
    && s.live == 0 && s.pendingNew == 0 && s.stats == NO_STATS
  }

  /** Every mapped id has a record. */
  ghost predicate Shape(s: Oms) {
    |s.orders| == MAX_ORDERS && s.nextFresh <= MAX_ORDERS && forall id :: id in s.index ==> s.index[id] < MAX_ORDERS
  }

  // ----- 32-bit quantities -----

  /** An unsigned quantity cast to int32 and given the sign of its side. */
  function Signed(side: Side, q: u32): (r: int32) {
    if side.Buy? then Wrap32(q) else Wrap32(0 - Wrap32(q))
  }

  /** `std::abs` on int32: the least value is its own absolute value. */
  function Abs32(x: int32): (r: int32) {
    Wrap32(if x < 0 then 0 - x else x)
  }

  function AbsReal(x: real): real {
    if x < 0.0 then -x else x
  }

  function Dec(n: nat): nat {
    if n > 0 then n - 1 else 0
  }

  // ----- sending -----

  function RiskBase(s: Oms, side: Side, qty: u32): (r: int32) {
    Wrap32(Wrap32(s.position + s.pendingDelta) + Signed(side, qty))
  }

  predicate CheckRisk(s: Oms, side: Side, price: real, qty: u32) {
    && qty <= MAX_ORDER_QTY
    && s.live + s.pendingNew < MAX_LIVE_ORDERS
    && Abs32(RiskBase(s, side, qty)) <= MAX_POSITION
    && (s.refPrice > 0.0 ==> AbsReal(price - s.refPrice) <= MAX_PRICE_DEVIATION)
  }

  /** The slot the next order would get; `MAX_ORDERS` when there is none. */
  function NextSlot(s: Oms): nat {
    if |s.freeStack| > 0 then s.freeStack[|s.freeStack| - 1] else s.nextFresh
  }

  predicate Accepts(s: Oms, side: Side, price: real, qty: u32) {
    CheckRisk(s, side, price, qty) && NextSlot(s) < MAX_ORDERS
  }

  function NewOrder(s: Oms, side: Side, price: real, qty: u32, kind: OrderType): Order {
    Order(s.nextId, price, qty, 0, qty, side, kind, Sent, 0.0)
  }

  /** The new order takes the next slot, is indexed and counted. */
  function Issue(s: Oms, side: Side, price: real, qty: u32, kind: OrderType): Oms
    requires NextSlot(s) < |s.orders|
  {
    var slot := NextSlot(s);
    var unused := |s.freeStack| == 0;
    s.(freeStack := if unused then [] else s.freeStack[..|s.freeStack| - 1],
       nextFresh := if unused then s.nextFresh + 1 else s.nextFresh,
       nextId := s.nextId + 1,
       orders := s.orders[slot := NewOrder(s, side, price, qty, kind)],
       index := s.index[s.nextId := slot],
       orderCount := s.orderCount + 1,
       pendingNew := s.pendingNew + 1,
       pendingDelta := Wrap32(s.pendingDelta + Signed(side, qty)))
  }

  function SendNew(s: Oms, side: Side, price: real, qty: u32, kind: OrderType): (r: Oms)
    requires Shape(s)
    ensures Shape(r)
  {
    if Accepts(s, side, price, qty) then Issue(s, side, price, qty, kind) else s
  }

  // ----- execution reports -----

  /** The order leaves the index and its slot goes on the free stack. */
  function FreeSlot(s: Oms, slot: nat, id: OrderId): Oms {
    s.(index := s.index - {id}, freeStack := s.freeStack + [slot])
  }

  /** The exchange has accepted the order: it moves from pending to live. */
  function Accept(s: Oms): Oms {
    s.(pendingNew := Dec(s.pendingNew), live := s.live + 1,
       stats := s.stats.(accepted := s.stats.accepted + 1))
  }

  function OnNewAck(s: Oms, slot: nat): Oms
    requires slot < |s.orders|
  {
    var o := s.orders[slot];
    if !o.status.Sent? then s
    else Accept(s).(orders := s.orders[slot := o.(status := Live)])
  }

  /** The order record after a fill. */
  function FilledOrder(o: Order, r: Report): Order {
    var filled := U32(o.filled + r.qty);
    var leaves := if o.qty > filled then o.qty - filled else 0;
    var newCost := o.avgPrice * o.filled as real + r.price * r.qty as real;
    o.(filled := filled, leaves := leaves,
       avgPrice := if filled > 0 then newCost / filled as real else o.avgPrice,
       status := if r.exec.Fill? || leaves == 0 then Filled else PartiallyFilled)
  }

  function FillStats(t: Stats, side: Side, qty: u32, first: bool): Stats {
    t.(filledOrders := if first then t.filledOrders + 1 else t.filledOrders,
       fills := t.fills + 1,
       totalQty := U32(t.totalQty + qty),
       buyFills := if side.Buy? then t.buyFills + 1 else t.buyFills,
       buyQty := if side.Buy? then U32(t.buyQty + qty) else t.buyQty,
       sellFills := if side.Buy? then t.sellFills else t.sellFills + 1,
       sellQty := if side.Buy? then t.sellQty else U32(t.sellQty + qty))
  }

  /** The filled quantity moves from the pending delta to the position, and its price to cash. */
  function ApplyFill(s: Oms, side: Side, qty: u32, price: real): Oms {
    s.(pendingDelta := Wrap32(s.pendingDelta - Signed(side, qty)),
       position := if side.Buy? then Wrap32(s.position + Wrap32(qty)) else Wrap32(s.position - Wrap32(qty)),
       cash := if side.Buy? then s.cash - price * qty as real else s.cash + price * qty as real)
  }

  predicate Working(st: OrderStatus) {
    st.Sent? || st.Live? || st.PartiallyFilled?
  }

  /** Record, money and statistics of a fill. */
  function BookFill(s: Oms, slot: nat, r: Report): Oms
    requires slot < |s.orders|
  {
    var o, o' := s.orders[slot], FilledOrder(s.orders[slot], r);
    ApplyFill(s, o.side, r.qty, r.price).(
      orders := s.orders[slot := o'],
      stats := FillStats(s.stats, o.side, r.qty, o'.filled == r.qty))
  }

  function OnFill(s: Oms, slot: nat, r: Report): Oms
    requires slot < |s.orders|
  {
    var o := s.orders[slot];
    if !Working(o.status) then s else
    var s' := BookFill(if o.status.Sent? then Accept(s) else s, slot, r);
    if s'.orders[slot].status.Filled? then FreeSlot(s'.(live := Dec(s'.live)), slot, o.id) else s'
  }

  function OnCancelAck(s: Oms, slot: nat): Oms
    requires slot < |s.orders|
  {
    var o := s.orders[slot];
    var missed := o.kind.IOC? && o.filled == 0;
    FreeSlot(s.(orders := s.orders[slot := o.(status := Cancelled)],
                pendingDelta := Wrap32(s.pendingDelta - Signed(o.side, o.leaves)),
                live := Dec(s.live),
                stats := s.stats.(missedIoc := if missed then s.stats.missedIoc + 1 else s.stats.missedIoc,
                                  cancels := s.stats.cancels + 1)),
             slot, o.id)
  }

  function OnReject(s: Oms, slot: nat): Oms
    requires slot < |s.orders|
  {
    var o := s.orders[slot];
    FreeSlot(s.(orders := s.orders[slot := o.(status := Rejected)],
                pendingDelta := Wrap32(s.pendingDelta - Signed(o.side, o.leaves)),
                pendingNew := if o.status.Sent? then Dec(s.pendingNew) else s.pendingNew,
                stats := s.stats.(rejects := s.stats.rejects + 1)),
             slot, o.id)
  }

  function OnExecution(s: Oms, r: Report): (s': Oms)
    requires Shape(s)
    ensures Shape(s')
  {
    if r.id !in s.index then s else
    var slot := s.index[r.id];
    match r.exec
    case NewAck => OnNewAck(s, slot)
    case Fill => OnFill(s, slot, r)
    case PartialFill => OnFill(s, slot, r)
    case CancelAck => OnCancelAck(s, slot)
    case Reject => OnReject(s, slot)
    case CancelReject => s
    case Unknown => s
  }

  // ----- runs -----

  datatype Event =
    | Send(side: Side, price: real, qty: u32, kind: OrderType)
    | Exec(report: Report)
    | SetReference(price: real)

  function Step(s: Oms, e: Event): (s': Oms)
    requires Shape(s)
    ensures Shape(s')
  {
    match e
    case Send(side, price, qty, kind) => SendNew(s, side, price, qty, kind)
    case Exec(r) => OnExecution(s, r)
    case SetReference(p) => s.(refPrice := p)
  }

  function Run(s: Oms, es: seq<Event>): (s': Oms)
    requires Shape(s)
    ensures Shape(s')
  {
    if es == [] then s else Step(Run(s, es[..|es| - 1]), es[|es| - 1])
  }
}
