/** The order manager as the source builds it: fixed arrays updated in place. Every method is proved to
    compute the corresponding function of `OmsModel` on the state the fields stand for, so each object
    is, at all times, the result of a run of the model. */
module OmsImpl {
  import opened Words
  import M = OrderMap
  import opened OmsModel
  import opened OmsSafety

  // ----- what the code relies on in every reachable state -----

  /** When an order may be sent there is a slot for it, its id is new and the index has room. */
  lemma SendFacts(s0: Oms, es: seq<Event>)
    requires Initial(s0)
    ensures var s := Run(s0, es);
            && s.nextId !in s.index && |s.index| < M.SIZE
            && (s.live + s.pendingNew < MAX_LIVE_ORDERS ==> NextSlot(s) < MAX_ORDERS && s.nextFresh < MAX_ORDERS)
  {
    EveryRunIsSafe(s0, es);
  }

  /** A mapped id leads to the open record that carries it, and the free stack has room for its slot. */
  lemma ReportFacts(s0: Oms, es: seq<Event>, id: M.OrderId)
    requires Initial(s0)
    ensures var s := Run(s0, es);
            id in s.index ==> s.index[id] < MAX_ORDERS && s.orders[s.index[id]].id == id
                              && Working(s.orders[s.index[id]].status) && |s.freeStack| < MAX_ORDERS
  {
    EveryRunIsSafe(s0, es);
    var s := Run(s0, es);
    if id in s.index {
      assert |s.index| > 0 by { assert s.index.Keys != {}; }
    }
  }

  /** The order index: the hash table together with the map it stands for. */
  class OrderIndex {
    const home: M.OrderId -> M.Pos
    const table: array<M.Entry>
    ghost var view: map<M.OrderId, nat>

    ghost predicate Valid()
      reads this, table
    {
      table.Length == M.SIZE && M.Legal(home, table[..]) && M.Contents(table[..]) == view
    }

    constructor (hash: M.OrderId -> M.Pos)
      ensures Valid() && view == map[] && fresh(table)
    {
      home := hash;
      table := new M.Entry[M.SIZE](i => M.Entry(0, 0, false));
      view := map[];
      new;
      assert M.Ids(table[..]) == {};
    }

    /** The slot of a mapped id, or "none". */
    method Lookup(id: M.OrderId) returns (found: bool, slot: nat)
      requires Valid()
      ensures found <==> id in view
      ensures found ==> slot == view[id]
    {
      var pos := M.Find(home, table, id);
      if pos >= M.SIZE {
        return false, 0;
      }
      return true, table[pos].slot;
    }

    /** Insertion of a new id into an index with room never fails. */
    method Put(id: M.OrderId, slot: nat)
      requires Valid() && id !in view && |view| < M.SIZE
      modifies this, table
      ensures Valid() && view == old(view)[id := slot]
    {
      ghost var t := table[..];
      M.HasHole(t);
      ghost var at := M.Insert(home, table, id, slot);
      M.InsertRefinesMap(home, t, id, slot, at);
      view := view[id := slot];
    }

    method Delete(id: M.OrderId)
      requires Valid()
      modifies this, table
      ensures Valid() && view == old(view) - {id}
    {
      M.Remove(home, table, id);
      view := view - {id};
    }
  }

  class OrderManager {
    const orders: array<Order>
    const freeStack: array<nat>
    const index: OrderIndex

    var nextId: M.OrderId
    var orderCount: nat
    var freeTop: nat
    var nextFresh: nat
    var position: int32
    var pendingDelta: int32
    var cash: real
    var refPrice: real
    var live: nat
    var pendingNew: nat
    var stats: Stats

    /** The state the object was built in, and everything that happened to it since. */
    ghost const origin: Oms
    ghost var history: seq<Event>

    /** The parts are different objects, and the arrays have their fixed sizes. */
    ghost predicate Layout()
      reads this
    {
      && orders.Length == MAX_ORDERS && freeStack.Length == MAX_ORDERS && freeTop <= MAX_ORDERS
      && freeStack as object != orders as object && index.table as object != orders as object
      && index.table as object != freeStack as object
    }

    /** The value the fields stand for. */
    ghost function State(): Oms
      requires Layout()
      reads this, orders, freeStack, index
    {
      Oms(orders[..], nextId, orderCount, freeStack[..freeTop], nextFresh, index.view,
          position, pendingDelta, cash, refPrice, live, pendingNew, stats)
    }

    ghost predicate Valid()
      reads this, orders, freeStack, index, index.table
    {
      Layout() && index.Valid() && Initial(origin) && State() == Run(origin, history)
    }

    constructor (hash: M.OrderId -> M.Pos)
      ensures Valid() && Initial(State()) && history == []
      ensures fresh(orders) && fresh(freeStack) && fresh(index) && fresh(index.table)
    {
      orders := new Order[MAX_ORDERS](i => NO_ORDER);
      freeStack := new nat[MAX_ORDERS](i => 0);
      index := new OrderIndex(hash);
      nextId, orderCount, freeTop, nextFresh := 1, 0, 0, 0;
      position, pendingDelta, cash, refPrice := 0, 0, 0.0, 0.0;
      live, pendingNew, stats := 0, 0, NO_STATS;
      history := [];
      origin := Oms(seq(MAX_ORDERS, i => NO_ORDER), 1, 0, [], 0, map[], 0, 0, 0.0, 0.0, 0, 0, NO_STATS);
      new;
      assert orders[..] == origin.orders;
    }

    method SetReferencePrice(price: real)
      requires Valid()
      modifies this`refPrice, this`history
      ensures Valid() && State() == old(State()).(refPrice := price)
      ensures history == old(history) + [SetReference(price)]
    {
      RunExtends(origin, history, SetReference(price));
      refPrice := price;
      history := history + [SetReference(price)];
    }

    // ----- sending -----

    method RiskAllows(side: Side, price: real, qty: u32) returns (ok: bool)
      requires Layout()
      ensures ok == CheckRisk(State(), side, price, qty)
    {
      if qty > MAX_ORDER_QTY {
        return false;
      }
      if live + pendingNew >= MAX_LIVE_ORDERS {
        return false;
      }
      var base: int32 := Wrap32(position + pendingDelta);
      base := Wrap32(base + Signed(side, qty));
      if Abs32(base) > MAX_POSITION {
        return false;
      }
      if refPrice > 0.0 {
        if AbsReal(price - refPrice) > MAX_PRICE_DEVIATION {
          return false;
        }
      }
      return true;
    }

    method AllocSlot() returns (slot: nat)
      requires Layout() && nextFresh < MAX_ORDERS
      modifies this`freeTop, this`nextFresh
      ensures Layout() && slot == NextSlot(old(State()))
      ensures var s := old(State());
              State() == if s.freeStack == [] then s.(nextFresh := s.nextFresh + 1)
                         else s.(freeStack := s.freeStack[..|s.freeStack| - 1])
    {
      if freeTop > 0 {
        freeTop := freeTop - 1;
        return freeStack[freeTop];
      }
      if nextFresh < MAX_ORDERS {
        nextFresh := nextFresh + 1;
        return nextFresh - 1;
      }
      return MAX_ORDERS;
    }

    /** Fills in the order record and counts it. */
    method WriteOrder(side: Side, price: real, qty: u32, kind: OrderType, slot: nat)
      requires Layout() && slot < MAX_ORDERS
      modifies this`nextId, this`orderCount, this`pendingNew, this`pendingDelta, orders
      ensures Layout()
      ensures var s := old(State());
              State() == s.(nextId := s.nextId + 1, orders := s.orders[slot := NewOrder(s, side, price, qty, kind)],
                            orderCount := s.orderCount + 1, pendingNew := s.pendingNew + 1,
                            pendingDelta := Wrap32(s.pendingDelta + Signed(side, qty)))
    {
      orders[slot] := Order(nextId, price, qty, 0, qty, side, kind, Sent, 0.0);
      nextId := nextId + 1;
      orderCount := orderCount + 1;
      pendingNew := pendingNew + 1;
      pendingDelta := Wrap32(pendingDelta + Signed(side, qty));
    }

    /** A slot and the record of a new order, which is not yet in the index. */
    method DraftOrder(side: Side, price: real, qty: u32, kind: OrderType) returns (slot: nat)
      requires Layout() && nextFresh < MAX_ORDERS && NextSlot(State()) < MAX_ORDERS
      modifies this`freeTop, this`nextFresh, this`nextId, this`orderCount, this`pendingNew, this`pendingDelta, orders
      ensures Layout() && slot == old(NextSlot(State()))
      ensures State() == Issue(old(State()), side, price, qty, kind).(index := old(index.view))
    {
      slot := AllocSlot();
      WriteOrder(side, price, qty, kind, slot);
    }

    /** A slot, the record and the index entry of a new order. */
    method IssueOrder(side: Side, price: real, qty: u32, kind: OrderType) returns (slot: nat)
      requires Layout() && index.Valid() && nextId !in index.view && |index.view| < M.SIZE
      requires nextFresh < MAX_ORDERS && NextSlot(State()) < MAX_ORDERS
      modifies this`freeTop, this`nextFresh, this`nextId, this`orderCount, this`pendingNew, this`pendingDelta
      modifies orders, index, index.table
      ensures Layout() && index.Valid() && slot == old(NextSlot(State()))
      ensures State() == Issue(old(State()), side, price, qty, kind)
    {
      var id := nextId;
      slot := DraftOrder(side, price, qty, kind);
      index.Put(id, slot);
    }

    /** Sends an order exactly when the risk check allows it; the caller gets its slot. */
    method Send(side: Side, price: real, qty: u32, kind: OrderType) returns (sent: bool, slot: nat)
      requires Valid()
      modifies this, orders, index, index.table
      ensures Valid() && history == old(history) + [Event.Send(side, price, qty, kind)]
      ensures State() == SendNew(old(State()), side, price, qty, kind)
      ensures sent <==> old(CheckRisk(State(), side, price, qty))
      ensures sent ==> slot == old(NextSlot(State())) < MAX_ORDERS
      ensures sent ==> orders[slot] == old(NewOrder(State(), side, price, qty, kind))
    {
      SendFacts(origin, history);
      RunExtends(origin, history, Event.Send(side, price, qty, kind));
      slot := 0;
      sent := RiskAllows(side, price, qty);
      if sent {
        slot := IssueOrder(side, price, qty, kind);
        assert orders[slot] == State().orders[slot];
      }
      history := history + [Event.Send(side, price, qty, kind)];
    }

    // ----- execution reports -----

    method Accepted()
      requires Layout()
      modifies this`pendingNew, this`live, this`stats
      ensures Layout() && State() == Accept(old(State()))
    {
      if pendingNew > 0 {
        pendingNew := pendingNew - 1;
      }
      stats := stats.(accepted := stats.accepted + 1);
      live := live + 1;
    }

    method NewAckReceived(slot: nat)
      requires Layout() && slot < MAX_ORDERS
      modifies this`pendingNew, this`live, this`stats, orders
      ensures Layout() && State() == OnNewAck(old(State()), slot)
    {
      if !orders[slot].status.Sent? {
        return;
      }
      orders[slot] := orders[slot].(status := Live);
      Accepted();
    }

    /** Position, pending delta and cash of one fill. */
    method ApplyTradingFill(side: Side, qty: u32, price: real)
      requires Layout()
      modifies this`position, this`pendingDelta, this`cash
      ensures Layout() && State() == ApplyFill(old(State()), side, qty, price)
    {
      pendingDelta := Wrap32(pendingDelta - Signed(side, qty));
      var notional := price * qty as real;
      if side.Buy? {
        position := Wrap32(position + Wrap32(qty));
        cash := cash - notional;
      } else {
        position := Wrap32(position - Wrap32(qty));
        cash := cash + notional;
      }
    }

    /** The order record after a fill, updated field by field. */
    static method FillRecord(before: Order, r: Report) returns (o: Order)
      ensures o == FilledOrder(before, r)
    {
      o := before;
      var oldCost := o.avgPrice * o.filled as real;
      var newCost := oldCost + r.price * r.qty as real;
      o := o.(filled := U32(o.filled + r.qty));
      o := o.(leaves := if o.qty > o.filled then o.qty - o.filled else 0);
      if o.filled > 0 {
        o := o.(avgPrice := newCost / o.filled as real);
      }
      var full := r.exec.Fill? || o.leaves == 0;
      o := o.(status := if full then Filled else PartiallyFilled);
    }

    method RecordFill(slot: nat, r: Report)
      requires Layout() && slot < MAX_ORDERS
      modifies this`stats, this`position, this`pendingDelta, this`cash, orders
      ensures Layout() && State() == BookFill(old(State()), slot, r)
    {
      var o := FillRecord(orders[slot], r);
      orders[slot] := o;
      ApplyTradingFill(o.side, r.qty, r.price);
      stats := FillStats(stats, o.side, r.qty, o.filled == r.qty);
    }

    /** A fill up to the release of the slot; `done` asks for that release. */
    method FillReceived(slot: nat, r: Report) returns (done: bool)
      requires Layout() && slot < MAX_ORDERS
      modifies this`pendingNew, this`live, this`stats, this`position, this`pendingDelta, this`cash, orders
      ensures Layout()
      ensures OnFill(old(State()), slot, r) == if done then FreeSlot(State(), slot, orders[slot].id) else State()
      ensures orders[slot].id == old(orders[slot].id)
    {
      if !Working(orders[slot].status) {
        return false;
      }
      if orders[slot].status.Sent? {
        Accepted();
      }
      RecordFill(slot, r);
      assert orders[slot] == State().orders[slot];
      done := orders[slot].status.Filled?;
      if done && live > 0 {
        live := live - 1;
      }
    }

    method CancelReceived(slot: nat)
      requires Layout() && slot < MAX_ORDERS
      modifies this`live, this`stats, this`pendingDelta, orders
      ensures Layout() && OnCancelAck(old(State()), slot) == FreeSlot(State(), slot, orders[slot].id)
      ensures orders[slot].id == old(orders[slot].id)
    {
      var o := orders[slot];
      if o.kind.IOC? && o.filled == 0 {
        stats := stats.(missedIoc := stats.missedIoc + 1);
      }
      pendingDelta := Wrap32(pendingDelta - Signed(o.side, o.leaves));
      orders[slot] := o.(status := Cancelled);
      if live > 0 {
        live := live - 1;
      }
      stats := stats.(cancels := stats.cancels + 1);
    }

    method RejectReceived(slot: nat)
      requires Layout() && slot < MAX_ORDERS
      modifies this`pendingNew, this`stats, this`pendingDelta, orders
      ensures Layout() && OnReject(old(State()), slot) == FreeSlot(State(), slot, orders[slot].id)
      ensures orders[slot].id == old(orders[slot].id)
    {
      var o := orders[slot];
      if o.status.Sent? {
        if pendingNew > 0 {
          pendingNew := pendingNew - 1;
        }
      }
      pendingDelta := Wrap32(pendingDelta - Signed(o.side, o.leaves));
      orders[slot] := o.(status := Rejected);
      stats := stats.(rejects := stats.rejects + 1);
    }

    method PushFree(slot: nat)
      requires freeTop < freeStack.Length
      modifies this`freeTop, freeStack
      ensures freeTop <= freeStack.Length && freeStack[..freeTop] == old(freeStack[..freeTop]) + [slot]
    {
      freeStack[freeTop] := slot;
      freeTop := freeTop + 1;
    }

    /** Removes the id from the index and pushes its slot on the free stack. */
    method Release(slot: nat, id: M.OrderId)
      requires Layout() && index.Valid() && freeTop < MAX_ORDERS
      modifies this`freeTop, freeStack, index, index.table
      ensures Layout() && index.Valid() && State() == FreeSlot(old(State()), slot, id)
    {
      index.Delete(id);
      PushFree(slot);
    }

    /** Dispatch on the report type, for the order in `slot`. */
    method Dispatch(slot: nat, r: Report) returns (done: bool)
      requires Layout() && slot < MAX_ORDERS
      modifies this`pendingNew, this`live, this`stats, this`position, this`pendingDelta, this`cash, orders
      ensures Layout() && orders[slot].id == old(orders[slot].id)
      ensures old(r.id in index.view && index.view[r.id] == slot && Shape(State())) ==>
                OnExecution(old(State()), r) == if done then FreeSlot(State(), slot, orders[slot].id) else State()
    {
      done := false;
      match r.exec {
        case NewAck => NewAckReceived(slot);
        case Fill => done := FillReceived(slot, r);
        case PartialFill => done := FillReceived(slot, r);
        case CancelAck => CancelReceived(slot); done := true;
        case Reject => RejectReceived(slot); done := true;
        case CancelReject =>
        case Unknown =>
      }
    }

    /** Finds the order through the index, updates it and, when it is finished, releases its slot. */
    method Process(r: Report)
      requires Layout() && index.Valid() && Shape(State())
      requires r.id in index.view ==> freeTop < MAX_ORDERS
      modifies this`pendingNew, this`live, this`stats, this`position, this`pendingDelta, this`cash, this`freeTop
      modifies orders, freeStack, index, index.table
      ensures Layout() && index.Valid() && State() == OnExecution(old(State()), r)
    {
      var found, slot := index.Lookup(r.id);
      if found {
        var done := Dispatch(slot, r);
        if done {
          Release(slot, orders[slot].id);
        }
      }
    }

    /** Processes any report. */
    method Execute(r: Report)
      requires Valid()
      modifies this, orders, freeStack, index, index.table
      ensures Valid() && history == old(history) + [Exec(r)]
      ensures State() == OnExecution(old(State()), r)
    {
      ReportFacts(origin, history, r.id);
      RunExtends(origin, history, Exec(r));
      Process(r);
      history := history + [Exec(r)];
    }
  }

  /** The order manager of the source, with its hash function. */
  method NewOrderManager() returns (m: OrderManager)
    ensures fresh(m) && m.Valid() && Initial(m.State())
  {
    m := new OrderManager(M.FibonacciHash);
  }
}
