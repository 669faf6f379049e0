/** Each order by itself: in every run, with any reports, what the order manager holds of an order follows from the
    `Send` that issued it and from the reports about it, one by one, whatever happens to the others. */
module OmsRecords {
  import opened Words
  import opened OrderMap
  import opened OmsModel
  import opened OmsSafety
  import opened OmsLedger
  import opened OmsCounts

  /** One order seen from outside: how it was sent, where it stands, and what it traded. */
  datatype Story = Story(side: Side, price: real, qty: u32, kind: OrderType,
                         status: OrderStatus, traded: nat, average: real)

  /** The price of `n` units after `k` units at the price `p` were joined by `q` at the price `x`. */
  function Mean(p: real, k: u32, x: real, q: u32, n: u32): real
    requires n > 0
  {
    (p * k as real + x * q as real) / n as real
  }

  /** A fill of any quantity: the quantities are compared modulo 2^32, and the average weighs old and new. */
  function Filling(st: Story, r: Report): Story {
    var before, after := Low32(st.traded), Low32(st.traded + r.qty);
    st.(traded := st.traded + r.qty,
        status := if r.exec.Fill? || st.qty <= after then Filled else PartiallyFilled,
        average := if after == 0 then st.average else Mean(st.average, before, r.price, r.qty, after))
  }

  predicate Finished(status: OrderStatus) {
    status.Filled? || status.Cancelled? || status.Rejected?
  }

  /** What a report means to the order it names; a finished order takes no notice. */
  function Told(st: Story, r: Report): Story {
    if Finished(st.status) then st else
    match r.exec
    case NewAck => if st.status.Sent? then st.(status := Live) else st
    case Fill => Filling(st, r)
    case PartialFill => Filling(st, r)
    case CancelAck => st.(status := Cancelled)
    case Reject => st.(status := Rejected)
    case CancelReject => st
    case Unknown => st
  }

  function NextStories(m: map<OrderId, Story>, s: Oms, e: Event): map<OrderId, Story>
    requires Shape(s)
  {
    match e
    case Send(side, price, qty, kind) =>
      if Accepts(s, side, price, qty) then m[|m| + 1 := Story(side, price, qty, kind, Sent, 0, 0.0)] else m
    case SetReference(p) => m
    case Exec(r) => if r.id in m then m[r.id := Told(m[r.id], r)] else m
  }

  /** The stories of a run: orders are numbered from 1 as they are accepted, and each report goes to the order it
      names. */
  function Stories(s0: Oms, es: seq<Event>): map<OrderId, Story>
    requires Shape(s0)
  {
    if es == [] then map[] else NextStories(Stories(s0, es[..|es| - 1]), Run(s0, es[..|es| - 1]), es[|es| - 1])
  }

  /** The record says what the story says. */
  ghost predicate Tells(o: Order, st: Story) {
    && o.side == st.side && o.price == st.price && o.qty == st.qty && o.kind == st.kind
    && o.status == st.status && o.filled == Low32(st.traded) && o.avgPrice == st.average
    && o.leaves == (if st.qty > o.filled then st.qty - o.filled else 0)
  }

  /** Every record that was ever used tells the story of its order. */
  ghost predicate AllTell(os: seq<Order>, m: map<OrderId, Story>) {
    forall k :: 0 <= k < |os| && os[k].id > 0 ==> os[k].id in m && Tells(os[k], m[os[k].id])
  }

  /** No two records are of the same order. */
  ghost predicate Unique(os: seq<Order>) {
    forall j, k :: 0 <= j < k < |os| && os[j].id == os[k].id ==> os[j].id == 0
  }

  /** The index holds the orders that are not finished. */
  ghost predicate HoldsUnfinished(index: map<OrderId, nat>, m: map<OrderId, Story>) {
    forall id :: id in m ==> if id in index then Working(m[id].status) else Finished(m[id].status)
  }

  /** The orders are those with the ids from 1 up to the last one used. */
  ghost predicate Numbered(nextId: OrderId, m: map<OrderId, Story>) {
    nextId == |m| + 1 && forall id :: id in m <==> 0 < id < nextId
  }

  ghost predicate Matches(s: Oms, m: map<OrderId, Story>) {
    && Numbered(s.nextId, m) && s.orderCount == |m|
    && AllTell(s.orders, m) && Unique(s.orders) && HoldsUnfinished(s.index, m)
  }

  lemma FilledMean(o: Order, r: Report)
    ensures var n := U32(o.filled + r.qty);
            FilledOrder(o, r).avgPrice == if n == 0 then o.avgPrice else Mean(o.avgPrice, o.filled, r.price, r.qty, n)
  {
    var n := U32(o.filled + r.qty);
    var cost := o.avgPrice * o.filled as real + r.price * r.qty as real;
    assert n > 0 ==> FilledOrder(o, r).avgPrice == cost / n as real;
  }

  lemma FilledAverage(o: Order, st: Story, r: Report)
    requires o.avgPrice == st.average && o.filled == Low32(st.traded)
    ensures FilledOrder(o, r).filled == Low32(st.traded + r.qty)
    ensures FilledOrder(o, r).avgPrice == Filling(st, r).average
  {
    AddLow32(st.traded, r.qty);
    FilledMean(o, r);
  }

  lemma FilledTells(o: Order, st: Story, r: Report)
    requires Tells(o, st) && Open(o) && (r.exec.Fill? || r.exec.PartialFill?)
    ensures Tells(FilledOrder(o, r), Told(st, r))
  {
    FilledAverage(o, st, r);
  }

  /** A report changes one record, and takes the id out of the index when it ends the order. */
  lemma ReportChanges(s: Oms, r: Report, st: Story)
    requires Safe(s) && r.id in s.index && Tells(s.orders[s.index[r.id]], st)
    ensures var s', slot := OnExecution(s, r), s.index[r.id];
            && s'.nextId == s.nextId && s'.orderCount == s.orderCount
            && s'.orders == s.orders[slot := s'.orders[slot]] && s'.orders[slot].id == r.id
            && Tells(s'.orders[slot], Told(st, r))
            && if Open(s'.orders[slot]) then s'.index == s.index
               else s'.index == s.index - {r.id} && Finished(s'.orders[slot].status)
  {
    var slot := s.index[r.id];
    if r.exec.Fill? || r.exec.PartialFill? {
      FilledTells(s.orders[slot], st, r);
      FillShape(s, slot, r);
      FillCounters(s, slot, r);
    }
  }

  lemma SameNumbers(nextId: OrderId, m: map<OrderId, Story>, id: OrderId, st: Story)
    requires Numbered(nextId, m) && id in m
    ensures Numbered(nextId, m[id := st]) && |m[id := st]| == |m|
  {
    var m' := m[id := st];
    assert m'.Keys == m.Keys;
    assert |m'| == |m'.Keys| && |m| == |m.Keys|;
  }

  lemma NextNumber(nextId: OrderId, m: map<OrderId, Story>, st: Story)
    requires Numbered(nextId, m) && nextId > 0
    ensures Numbered(nextId + 1, m[nextId := st]) && |m[nextId := st]| == |m| + 1
  {
    var m' := m[nextId := st];
    assert m'.Keys == m.Keys + {nextId};
    assert |m'| == |m'.Keys| && |m| == |m.Keys|;
  }

  /** One record and the story of its order are replaced together; no other record is of that order. */
  lemma ReplacedTell(os: seq<Order>, m: map<OrderId, Story>, slot: nat, o': Order, st': Story)
    requires AllTell(os, m) && Unique(os) && slot < |os| && o'.id > 0 && Tells(o', st')
    requires forall k :: 0 <= k < |os| && k != slot ==> os[k].id != o'.id
    ensures AllTell(os[slot := o'], m[o'.id := st']) && Unique(os[slot := o'])
  {
  }

  lemma ReportKeepsMatch(s: Oms, r: Report, m: map<OrderId, Story>)
    requires Safe(s) && Matches(s, m) && r.id in s.index
    ensures r.id in m && Matches(OnExecution(s, r), m[r.id := Told(m[r.id], r)])
  {
    var slot, s' := s.index[r.id], OnExecution(s, r);
    assert s.orders[slot].id == r.id && r.id > 0;
    ReportChanges(s, r, m[r.id]);
    SameNumbers(s.nextId, m, r.id, Told(m[r.id], r));
    ReplacedTell(s.orders, m, slot, s'.orders[slot], Told(m[r.id], r));
  }

  /** A report for an order that is not mapped finds its story finished, or none. */
  lemma LateReportIsIdle(s: Oms, r: Report, m: map<OrderId, Story>)
    requires Shape(s) && Matches(s, m) && r.id !in s.index
    ensures NextStories(m, s, Exec(r)) == m
  {
  }

  /** A new order starts a new story in a slot whose order is finished. */
  lemma IssueKeepsMatch(s: Oms, s': Oms, m: map<OrderId, Story>, o: Order, st: Story)
    requires Safe(s) && Matches(s, m) && NextSlot(s) < MAX_ORDERS && s.nextId > 0
    requires s'.nextId == s.nextId + 1 && s'.orderCount == s.orderCount + 1
    requires s'.orders == s.orders[NextSlot(s) := o] && s'.index == s.index[s.nextId := NextSlot(s)]
    requires o.id == s.nextId && Open(o) && Tells(o, st)
    ensures Matches(s', m[s.nextId := st])
  {
    NextNumber(s.nextId, m, st);
    ReplacedTell(s.orders, m, NextSlot(s), o, st);
  }

  lemma SendKeepsMatch(s: Oms, side: Side, price: real, qty: u32, kind: OrderType, m: map<OrderId, Story>)
    requires Safe(s) && s.nextId > 0 && Matches(s, m)
    ensures Matches(SendNew(s, side, price, qty, kind), NextStories(m, s, Send(side, price, qty, kind)))
  {
    if Accepts(s, side, price, qty) {
      IssueKeepsMatch(s, SendNew(s, side, price, qty, kind), m, NewOrder(s, side, price, qty, kind),
                      Story(side, price, qty, kind, Sent, 0, 0.0));
    }
  }

  lemma StepKeepsMatch(s: Oms, e: Event, m: map<OrderId, Story>)
    requires Safe(s) && s.nextId > 0 && Matches(s, m)
    ensures Matches(Step(s, e), NextStories(m, s, e))
  {
    match e
    case Send(side, price, qty, kind) => SendKeepsMatch(s, side, price, qty, kind, m);
    case SetReference(p) =>
    case Exec(r) =>
      if r.id in s.index {
        ReportKeepsMatch(s, r, m);
      } else {
        LateReportIsIdle(s, r, m);
      }
  }

  /** In every run, with any reports: each record carries side, price, quantity and type of the `Send` that issued its
      id; its status, filled quantity, average price and leaves are what the reports for this id alone make of it; and
      the index holds exactly the orders that no report has finished. */
  lemma {:induction false} RecordsTellStories(s0: Oms, es: seq<Event>)
    requires Initial(s0)
    ensures Matches(Run(s0, es), Stories(s0, es))
  {
    if es == [] {
      assert forall k :: 0 <= k < |s0.orders| ==> s0.orders[k].id == 0;
    } else {
      RecordsTellStories(s0, es[..|es| - 1]);
      EveryRunIsSafe(s0, es[..|es| - 1]);
      StepKeepsMatch(Run(s0, es[..|es| - 1]), es[|es| - 1], Stories(s0, es[..|es| - 1]));
    }
  }
}
