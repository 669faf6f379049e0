/** The money of a run: cash and average prices. */
module OmsAccounts {
  import opened Words
  import opened OrderMap
  import opened OmsModel
  import opened OmsSafety
  import opened OmsLedger

  predicate IsFill(r: Report) {
    r.exec.Fill? || r.exec.PartialFill?
  }

  datatype Trade = Trade(id: OrderId, side: Side, qty: u32, price: real)

  /** The trade a step books, if any. */
  function TradeOf(s: Oms, e: Event): seq<Trade>
    requires Shape(s)
  {
    if e.Exec? && IsFill(e.report) && e.report.id in s.index then
      [Trade(e.report.id, s.orders[s.index[e.report.id]].side, e.report.qty, e.report.price)]
    else []
  }

  /** All trades of a run, oldest first. */
  function Trades(s: Oms, es: seq<Event>): seq<Trade>
    requires Shape(s)
  {
    if es == [] then [] else
    Trades(s, es[..|es| - 1]) + TradeOf(Run(s, es[..|es| - 1]), es[|es| - 1])
  }

  function Notional(t: Trade): real {
    t.price * t.qty as real
  }

  /** Money received for sales less money paid for purchases. */
  function CashOf(ts: seq<Trade>): real {
    if ts == [] then 0.0 else
    var t := ts[|ts| - 1];
    CashOf(ts[..|ts| - 1]) + (if t.side.Buy? then -Notional(t) else Notional(t))
  }

  /** Quantity and value traded by one order. */
  function QtyOf(ts: seq<Trade>, id: OrderId): nat {
    if ts == [] then 0 else
    QtyOf(ts[..|ts| - 1], id) + (if ts[|ts| - 1].id == id then ts[|ts| - 1].qty else 0)
  }

  function ValueOf(ts: seq<Trade>, id: OrderId): real {
    if ts == [] then 0.0 else
    ValueOf(ts[..|ts| - 1], id) + (if ts[|ts| - 1].id == id then Notional(ts[|ts| - 1]) else 0.0)
  }

  lemma AppendTrade(ts: seq<Trade>, t: Trade, id: OrderId)
    ensures CashOf(ts + [t]) == CashOf(ts) + (if t.side.Buy? then -Notional(t) else Notional(t))
    ensures QtyOf(ts + [t], id) == QtyOf(ts, id) + (if t.id == id then t.qty else 0)
    ensures ValueOf(ts + [t], id) == ValueOf(ts, id) + (if t.id == id then Notional(t) else 0.0)
  {
    assert (ts + [t])[..|ts|] == ts;
  }

  lemma {:induction false} NoTrades(ts: seq<Trade>, id: OrderId)
    requires forall t :: t in ts ==> t.id != id
    ensures QtyOf(ts, id) == 0 && ValueOf(ts, id) == 0.0
  {
    if ts != [] {
      NoTrades(ts[..|ts| - 1], id);
      assert ts[|ts| - 1] in ts;
    }
  }

  lemma ApplyFillCash(s: Oms, t: Trade, ts: seq<Trade>)
    requires s.cash == CashOf(ts)
    ensures ApplyFill(s, t.side, t.qty, t.price).cash == CashOf(ts + [t])
  {
    AppendTrade(ts, t, 0);
  }

  lemma FillCash(s: Oms, slot: nat, r: Report, ts: seq<Trade>)
    requires Shape(s) && slot < MAX_ORDERS && Open(s.orders[slot]) && s.cash == CashOf(ts)
    ensures OnFill(s, slot, r).cash == CashOf(ts + [Trade(r.id, s.orders[slot].side, r.qty, r.price)])
  {
    FillMoney(s, slot, r);
    ApplyFillCash(s, Trade(r.id, s.orders[slot].side, r.qty, r.price), ts);
  }

  lemma NoTradeNoCash(s: Oms, e: Event)
    requires Shape(s) && TradeOf(s, e) == []
    ensures Step(s, e).cash == s.cash
  {
  }

  lemma StepCash(s: Oms, e: Event, ts: seq<Trade>)
    requires Safe(s) && s.cash == CashOf(ts)
    ensures Step(s, e).cash == CashOf(ts + TradeOf(s, e))
  {
    if TradeOf(s, e) == [] {
      NoTradeNoCash(s, e);
      assert ts + [] == ts;
    } else {
      var slot := s.index[e.report.id];
      FillCash(s, slot, e.report, ts);
      assert Step(s, e) == OnFill(s, slot, e.report);
    }
  }

  /** In every run, well-formed or not, trading cash is the fold of the booked trades. */
  lemma {:induction false} CashIsFoldOfTrades(s0: Oms, es: seq<Event>)
    requires Initial(s0)
    ensures Run(s0, es).cash == CashOf(Trades(s0, es))
  {
    if es != [] {
      CashIsFoldOfTrades(s0, es[..|es| - 1]);
      EveryRunIsSafe(s0, es[..|es| - 1]);
      StepCash(Run(s0, es[..|es| - 1]), es[|es| - 1], Trades(s0, es[..|es| - 1]));
    }
  }

  /** A record agrees with the trades of its order: the filled quantity is their total, and the average
      price times that quantity is their value. */
  ghost predicate Priced(o: Order, ts: seq<Trade>) {
    o.id > 0 ==> o.filled == QtyOf(ts, o.id) && o.avgPrice * o.filled as real == ValueOf(ts, o.id)
  }

  /** Every record, of open and of retired orders alike, agrees with the trades; records carry
      different ids. */
  ghost predicate AllPriced(os: seq<Order>, ts: seq<Trade>, nextId: OrderId) {
    && (forall k :: 0 <= k < |os| ==> os[k].id < nextId && Priced(os[k], ts))
    && (forall j, k :: 0 <= j < k < |os| && os[j].id == os[k].id ==> os[j].id == 0)
    && (forall t :: t in ts ==> t.id < nextId)
  }

  /** The new average times the new quantity is the old value plus the value of the fill. */
  lemma AverageStep(o: Order, r: Report)
    requires Open(o) && Record(o) && IsFill(r) && 1 <= r.qty <= o.leaves
    ensures var o' := FilledOrder(o, r);
            && o'.filled == o.filled + r.qty && o'.id == o.id
            && o'.avgPrice * o'.filled as real == o.avgPrice * o.filled as real + r.price * r.qty as real
  {
    var cost := o.avgPrice * o.filled as real + r.price * r.qty as real;
    var n := (o.filled + r.qty) as real;
    assert cost / n * n == cost;
  }

  /** A trade of another order changes nothing for a record. */
  lemma {:induction false} PricedOther(o: Order, ts: seq<Trade>, t: Trade)
    requires Priced(o, ts) && (o.id == 0 || o.id != t.id)
    ensures Priced(o, ts + [t])
  {
    AppendTrade(ts, t, o.id);
  }

  lemma {:induction false} PricedSelf(o: Order, o': Order, ts: seq<Trade>, t: Trade)
    requires Priced(o, ts) && o.id > 0 && o'.id == o.id == t.id && o'.filled == o.filled + t.qty
    requires o'.avgPrice * o'.filled as real == o.avgPrice * o.filled as real + Notional(t)
    ensures Priced(o', ts + [t])
  {
    AppendTrade(ts, t, o.id);
  }

  lemma {:induction false} PricedTrade(os: seq<Order>, ts: seq<Trade>, nextId: OrderId, slot: nat, o': Order, t: Trade)
    requires AllPriced(os, ts, nextId) && slot < |os| && os[slot].id > 0
    requires o'.id == os[slot].id == t.id && o'.filled == os[slot].filled + t.qty
    requires o'.avgPrice * o'.filled as real == os[slot].avgPrice * os[slot].filled as real + Notional(t)
    ensures AllPriced(os[slot := o'], ts + [t], nextId)
  {
    var os', ts' := os[slot := o'], ts + [t];
    forall k | 0 <= k < |os| ensures os'[k].id < nextId && Priced(os'[k], ts') {
      if k == slot {
        PricedSelf(os[slot], o', ts, t);
      } else {
        PricedOther(os[k], ts, t);
      }
    }
  }

  lemma PricedFill(os: seq<Order>, ts: seq<Trade>, nextId: OrderId, slot: nat, r: Report)
    requires AllPriced(os, ts, nextId) && slot < |os| && Open(os[slot]) && Record(os[slot]) && os[slot].id > 0
    requires IsFill(r) && 1 <= r.qty <= os[slot].leaves
    ensures AllPriced(os[slot := FilledOrder(os[slot], r)],
                      ts + [Trade(os[slot].id, os[slot].side, r.qty, r.price)], nextId)
  {
    AverageStep(os[slot], r);
    PricedTrade(os, ts, nextId, slot, FilledOrder(os[slot], r), Trade(os[slot].id, os[slot].side, r.qty, r.price));
  }

  /** Replacing a record by one that differs only in status. */
  lemma {:induction false} PricedStatus(os: seq<Order>, ts: seq<Trade>, nextId: OrderId, slot: nat, st: OrderStatus)
    requires AllPriced(os, ts, nextId) && slot < |os|
    ensures AllPriced(os[slot := os[slot].(status := st)], ts, nextId)
  {
  }

  lemma {:induction false} PricedSend(os: seq<Order>, ts: seq<Trade>, nextId: OrderId, slot: nat, o: Order)
    requires AllPriced(os, ts, nextId) && slot < |os| && o.id == nextId && o.filled == 0
    ensures AllPriced(os[slot := o], ts, nextId + 1)
  {
    NoTrades(ts, nextId);
  }

  lemma ReportKeepsPriced(s: Oms, r: Report, ts: seq<Trade>)
    requires Books(s) && WellFormed(s, r) && AllPriced(s.orders, ts, s.nextId) && r.id in s.index
    ensures var s' := OnExecution(s, r); AllPriced(s'.orders, ts + TradeOf(s, Exec(r)), s'.nextId)
  {
    var slot := s.index[r.id];
    var o := s.orders[slot];
    assert Record(o) by { assert o in s.orders; }
    assert ts + [] == ts;
    if IsFill(r) {
      FillShape(s, slot, r);
      PricedFill(s.orders, ts, s.nextId, slot, r);
    } else if r.exec.NewAck? {
      PricedStatus(s.orders, ts, s.nextId, slot, Live);
    } else if r.exec.CancelAck? {
      PricedStatus(s.orders, ts, s.nextId, slot, Cancelled);
    } else if r.exec.Reject? {
      PricedStatus(s.orders, ts, s.nextId, slot, Rejected);
    }
  }

  lemma StepKeepsPriced(s: Oms, e: Event, ts: seq<Trade>)
    requires Books(s) && (e.Exec? ==> WellFormed(s, e.report)) && AllPriced(s.orders, ts, s.nextId)
    ensures AllPriced(Step(s, e).orders, ts + TradeOf(s, e), Step(s, e).nextId)
  {
    assert ts + [] == ts;
    match e
    case Send(side, price, qty, kind) =>
      if Accepts(s, side, price, qty) {
        PricedSend(s.orders, ts, s.nextId, NextSlot(s), NewOrder(s, side, price, qty, kind));
      }
    case SetReference(p) =>
    case Exec(r) =>
      if r.id in s.index {
        ReportKeepsPriced(s, r, ts);
      }
  }

  /** Price ledger of every well-formed run: each order record's average fill price is the volume-weighted
      mean of exactly the trades booked for that order. */
  lemma {:induction false} AveragesAreWeightedMeans(s0: Oms, es: seq<Event>)
    requires Initial(s0) && WellFormedRun(s0, es)
    ensures AllPriced(Run(s0, es).orders, Trades(s0, es), Run(s0, es).nextId)
  {
    if es != [] {
      var es' := es[..|es| - 1];
      AveragesAreWeightedMeans(s0, es');
      InitBooks(s0);
      WellFormedRunKeepsBooks(s0, es');
      StepKeepsPriced(Run(s0, es'), es[|es| - 1], Trades(s0, es'));
    }
  }
}
