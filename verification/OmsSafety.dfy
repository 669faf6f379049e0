/** What every run of the order manager keeps, whatever reports arrive: well-formed, duplicated,
    late, for unknown ids or with absurd quantities. */
module OmsSafety {
  import opened Words
  import opened OrderMap
  import opened OmsModel

  // ----- sums over the order records -----

  /** Total weight of the records. */
  ghost function Sum(w: Order -> int, os: seq<Order>): int {
    if os == [] then 0 else Sum(w, os[..|os| - 1]) + w(os[|os| - 1])
  }

  /** Replacing one record changes a total by the difference of the two weights. */
  lemma {:induction false} SumUpdate(w: Order -> int, os: seq<Order>, i: nat, o: Order)
    requires i < |os|
    ensures Sum(w, os[i := o]) == Sum(w, os) - w(os[i]) + w(o)
  {
    var n := |os| - 1;
    if i == n {
      assert os[i := o][..n] == os[..n];
    } else {
      assert os[i := o][..n] == os[..n][i := o];
      SumUpdate(w, os[..n], i, o);
    }
  }

  lemma {:induction false} SumAllZero(w: Order -> int, os: seq<Order>)
    requires forall o :: o in os ==> w(o) == 0
    ensures Sum(w, os) == 0
  {
    if os != [] {
      SumAllZero(w, os[..|os| - 1]);
    }
  }

  predicate Open(o: Order) {
    Working(o.status)
  }

  function OpenBit(o: Order): int {
    if Open(o) then 1 else 0
  }

  // ----- slots -----

  /** Every slot handed out so far is on the free stack, once, or holds an open order, and not both. */
  ghost predicate Stacked(os: seq<Order>, free: seq<nat>, nextFresh: nat)
    requires nextFresh <= |os|
  {
    && (forall i :: 0 <= i < |free| ==> free[i] < nextFresh && !Open(os[free[i]]))
    && (forall i, j :: 0 <= i < j < |free| ==> free[i] != free[j])
    && (forall k :: 0 <= k < nextFresh ==> Open(os[k]) || k in free)
  }

  /** The open orders are exactly those that the index maps, each to the slot whose record carries its id. */
  ghost predicate Mapped(os: seq<Order>, nextFresh: nat, index: map<OrderId, nat>, nextId: OrderId)
    requires nextFresh <= |os|
  {
    && (forall k :: 0 <= k < |os| && Open(os[k]) ==> k < nextFresh && os[k].id in index && index[os[k].id] == k)
    && (forall id :: id in index ==>
          0 < id < nextId && index[id] < nextFresh && os[index[id]].id == id && Open(os[index[id]]))
  }

  /** Slot integrity: every slot handed out so far is either on the free stack (once) or holds the
      record of exactly one mapped id; nothing else is mapped, stacked or open. */
  ghost predicate Slots(os: seq<Order>, free: seq<nat>, nextFresh: nat, index: map<OrderId, nat>, nextId: OrderId) {
    && |os| == MAX_ORDERS && nextFresh <= MAX_ORDERS
    && Stacked(os, free, nextFresh) && Mapped(os, nextFresh, index, nextId)
    && |free| + |index| == nextFresh
    && Sum(OpenBit, os) == |index|
  }

  ghost predicate SlotsOf(s: Oms) {
    Slots(s.orders, s.freeStack, s.nextFresh, s.index, s.nextId)
  }

  /** The two admission counters together never fall below the number of open orders, and no
      more slots are in use than orders may be open. */
  ghost predicate Admission(s: Oms) {
    |s.index| <= s.live + s.pendingNew && s.nextFresh <= MAX_LIVE_ORDERS
  }

  ghost predicate Safe(s: Oms) {
    Shape(s) && SlotsOf(s) && Admission(s)
  }

  /** An open record may be replaced by another open record of the same id. */
  lemma SlotsAmend(os: seq<Order>, free: seq<nat>, nextFresh: nat, index: map<OrderId, nat>, nextId: OrderId,
                   slot: nat, o: Order)
    requires Slots(os, free, nextFresh, index, nextId)
    requires slot < MAX_ORDERS && Open(os[slot]) && Open(o) && o.id == os[slot].id
    ensures Slots(os[slot := o], free, nextFresh, index, nextId)
  {
    SumUpdate(OpenBit, os, slot, o);
  }

  /** Retiring an open order unmaps its id and stacks its slot. */
  lemma SlotsRetire(os: seq<Order>, free: seq<nat>, nextFresh: nat, index: map<OrderId, nat>, nextId: OrderId,
                    slot: nat, o: Order)
    requires Slots(os, free, nextFresh, index, nextId)
    requires slot < MAX_ORDERS && Open(os[slot]) && !Open(o)
    ensures Slots(os[slot := o], free + [slot], nextFresh, index - {os[slot].id}, nextId)
    ensures |index - {os[slot].id}| == |index| - 1 && |free| < MAX_ORDERS
  {
    SumUpdate(OpenBit, os, slot, o);
    var index' := index - {os[slot].id};
    assert index'.Keys == index.Keys - {os[slot].id};
    assert |index'| == |index'.Keys| && |index| == |index.Keys|;
    var free' := free + [slot];
    assert free'[|free|] == slot;
    forall k | 0 <= k < nextFresh ensures Open(os[slot := o][k]) || k in free' {
      if k in free {
        var i :| 0 <= i < |free| && free[i] == k;
        assert free'[i] == k;
      }
    }
  }

  lemma MapGrows(index: map<OrderId, nat>, id: OrderId, slot: nat)
    requires id !in index
    ensures |index[id := slot]| == |index| + 1
  {
    var index' := index[id := slot];
    assert index'.Keys == index.Keys + {id};
    assert |index'| == |index'.Keys| && |index| == |index.Keys|;
  }

  /** A new id is mapped to a slot that is not in use. */
  lemma MapsNew(os: seq<Order>, nextFresh: nat, index: map<OrderId, nat>, nextId: OrderId, slot: nat, o: Order)
    requires nextFresh <= |os| && Mapped(os, nextFresh, index, nextId) && slot < nextFresh && !Open(os[slot])
    requires Open(o) && o.id == nextId && nextId > 0
    ensures Mapped(os[slot := o], nextFresh, index[nextId := slot], nextId + 1)
  {
    var os', index' := os[slot := o], index[nextId := slot];
    forall k | 0 <= k < |os| && Open(os'[k]) ensures k < nextFresh && os'[k].id in index' && index'[os'[k].id] == k {
      assert k != slot ==> os[k].id in index && os[k].id != nextId;
    }
    forall id | id in index'
      ensures 0 < id < nextId + 1 && index'[id] < nextFresh && os'[index'[id]].id == id && Open(os'[index'[id]])
    {
      assert id != nextId ==> id in index && index[id] != slot;
    }
  }

  /** A slot taken from the stack or from fresh space is unused, and the new order owns it. */
  lemma SlotsIssue(os: seq<Order>, free: seq<nat>, nextFresh: nat, index: map<OrderId, nat>, nextId: OrderId, o: Order)
    requires Slots(os, free, nextFresh, index, nextId) && free == [] && nextFresh < MAX_ORDERS
    requires Open(o) && o.id == nextId && nextId > 0
    ensures Slots(os[nextFresh := o], [], nextFresh + 1, index[nextId := nextFresh], nextId + 1)
    ensures |index[nextId := nextFresh]| == |index| + 1
  {
    SumUpdate(OpenBit, os, nextFresh, o);
    MapGrows(index, nextId, nextFresh);
    MapsNew(os, nextFresh + 1, index, nextId, nextFresh, o);
  }

  lemma StackPops(os: seq<Order>, free: seq<nat>, nextFresh: nat, o: Order)
    requires nextFresh <= |os| && Stacked(os, free, nextFresh) && free != [] && Open(o)
    ensures Stacked(os[free[|free| - 1] := o], free[..|free| - 1], nextFresh)
  {
    var slot, free' := free[|free| - 1], free[..|free| - 1];
    forall k | 0 <= k < nextFresh ensures Open(os[slot := o][k]) || k in free' {
      if k in free && k != slot {
        var i :| 0 <= i < |free| && free[i] == k;
        assert free'[i] == k;
      }
    }
  }

  lemma SlotsReuse(os: seq<Order>, free: seq<nat>, nextFresh: nat, index: map<OrderId, nat>, nextId: OrderId, o: Order)
    requires Slots(os, free, nextFresh, index, nextId) && free != []
    requires Open(o) && o.id == nextId && nextId > 0
    ensures var slot := free[|free| - 1];
            Slots(os[slot := o], free[..|free| - 1], nextFresh, index[nextId := slot], nextId + 1)
            && |index[nextId := slot]| == |index| + 1
  {
    var slot := free[|free| - 1];
    SumUpdate(OpenBit, os, slot, o);
    StackPops(os, free, nextFresh, o);
    MapGrows(index, nextId, slot);
    MapsNew(os, nextFresh, index, nextId, slot, o);
  }

  /** `s'` differs from `s` by an open replacement of one record and by fields outside the slots. */
  lemma SafeAmend(s: Oms, s': Oms, slot: nat, o: Order)
    requires Safe(s) && slot < MAX_ORDERS && Open(s.orders[slot]) && Open(o) && o.id == s.orders[slot].id
    requires s'.orders == s.orders[slot := o] && s'.freeStack == s.freeStack && s'.index == s.index
    requires s'.nextFresh == s.nextFresh && s'.nextId == s.nextId
    requires s'.live + s'.pendingNew >= s.live + s.pendingNew
    ensures Safe(s')
  {
    SlotsAmend(s.orders, s.freeStack, s.nextFresh, s.index, s.nextId, slot, o);
  }

  /** `s'` differs from `s` by retiring one order and by fields outside the slots. */
  lemma SafeRetire(s: Oms, s': Oms, slot: nat, o: Order)
    requires Safe(s) && slot < MAX_ORDERS && Open(s.orders[slot]) && !Open(o)
    requires s'.orders == s.orders[slot := o] && s'.freeStack == s.freeStack + [slot]
    requires s'.index == s.index - {s.orders[slot].id}
    requires s'.nextFresh == s.nextFresh && s'.nextId == s.nextId
    requires s'.live + s'.pendingNew >= s.live + s.pendingNew - 1
    ensures Safe(s')
  {
    SlotsRetire(s.orders, s.freeStack, s.nextFresh, s.index, s.nextId, slot, o);
  }

  lemma SlotsGiveShape(s: Oms)
    requires SlotsOf(s)
    ensures Shape(s)
  {
  }

  /** `s'` differs from `s` by issuing a fresh slot to a new order and by fields outside the slots. */
  lemma SafeFresh(s: Oms, s': Oms, o: Order)
    requires Safe(s) && s.nextId > 0 && Open(o) && o.id == s.nextId && s.freeStack == []
    requires s.live + s.pendingNew < MAX_LIVE_ORDERS
    requires s'.orders == s.orders[s.nextFresh := o] && s'.index == s.index[s.nextId := s.nextFresh]
    requires s'.freeStack == [] && s'.nextFresh == s.nextFresh + 1
    requires s'.nextId == s.nextId + 1 && s'.live + s'.pendingNew > s.live + s.pendingNew
    ensures Safe(s')
  {
    SlotsIssue(s.orders, s.freeStack, s.nextFresh, s.index, s.nextId, o);
    assert SlotsOf(s');
    SlotsGiveShape(s');
  }

  /** The same with a slot from the free stack. */
  lemma SafeReuse(s: Oms, s': Oms, o: Order)
    requires Safe(s) && s.nextId > 0 && Open(o) && o.id == s.nextId && s.freeStack != []
    requires s'.orders == s.orders[NextSlot(s) := o] && s'.index == s.index[s.nextId := NextSlot(s)]
    requires s'.freeStack == s.freeStack[..|s.freeStack| - 1] && s'.nextFresh == s.nextFresh
    requires s'.nextId == s.nextId + 1 && s'.live + s'.pendingNew > s.live + s.pendingNew
    ensures Safe(s')
  {
    SlotsReuse(s.orders, s.freeStack, s.nextFresh, s.index, s.nextId, o);
    assert SlotsOf(s');
    SlotsGiveShape(s');
  }

  lemma SendKeepsSafe(s: Oms, side: Side, price: real, qty: u32, kind: OrderType)
    requires Safe(s) && s.nextId > 0
    ensures Safe(SendNew(s, side, price, qty, kind))
  {
    if Accepts(s, side, price, qty) {
      if s.freeStack == [] {
        SafeFresh(s, SendNew(s, side, price, qty, kind), NewOrder(s, side, price, qty, kind));
      } else {
        SafeReuse(s, SendNew(s, side, price, qty, kind), NewOrder(s, side, price, qty, kind));
      }
    }
  }

  /** What the bookkeeping of a fill does to the counters and to the record, whatever its quantity. */
  lemma FillShape(s: Oms, slot: nat, r: Report)
    requires Shape(s) && slot < |s.orders| && Open(s.orders[slot])
    ensures var s' := OnFill(s, slot, r);
            var o' := FilledOrder(s.orders[slot], r);
            && s'.orders == s.orders[slot := o'] && s'.nextFresh == s.nextFresh && s'.nextId == s.nextId
            && o'.id == s.orders[slot].id
            && if Open(o') then
                 s'.freeStack == s.freeStack && s'.index == s.index && s'.live + s'.pendingNew >= s.live + s.pendingNew
               else
                 s'.freeStack == s.freeStack + [slot] && s'.index == s.index - {s.orders[slot].id}
                 && s'.live + s'.pendingNew >= s.live + s.pendingNew - 1
  {
  }

  lemma FillKeepsSafe(s: Oms, slot: nat, r: Report)
    requires Safe(s) && slot < MAX_ORDERS && Open(s.orders[slot])
    ensures Safe(OnFill(s, slot, r))
  {
    FillShape(s, slot, r);
    var o' := FilledOrder(s.orders[slot], r);
    if Open(o') {
      SafeAmend(s, OnFill(s, slot, r), slot, o');
    } else {
      SafeRetire(s, OnFill(s, slot, r), slot, o');
    }
  }

  lemma ReportKeepsSafe(s: Oms, r: Report)
    requires Safe(s)
    ensures Safe(OnExecution(s, r))
  {
    if r.id in s.index {
      var slot := s.index[r.id];
      var o := s.orders[slot];
      match r.exec
      case NewAck =>
        if o.status.Sent? {
          SafeAmend(s, OnNewAck(s, slot), slot, o.(status := Live));
        }
      case CancelAck =>
        SafeRetire(s, OnCancelAck(s, slot), slot, o.(status := Cancelled));
      case Reject =>
        SafeRetire(s, OnReject(s, slot), slot, o.(status := Rejected));
      case Fill =>
        FillKeepsSafe(s, slot, r);
      case PartialFill =>
        FillKeepsSafe(s, slot, r);
      case CancelReject =>
      case Unknown =>
    }
  }

  lemma InitSafe(s: Oms)
    requires Initial(s)
    ensures Safe(s)
  {
    SumAllZero(OpenBit, s.orders);
  }

  lemma StepKeepsSafe(s: Oms, e: Event)
    requires Safe(s) && s.nextId > 0
    ensures Safe(Step(s, e)) && Step(s, e).nextId >= s.nextId
  {
    match e
    case Send(side, price, qty, kind) => SendKeepsSafe(s, side, price, qty, kind);
    case Exec(r) => ReportKeepsSafe(s, r);
    case SetReference(p) =>
  }

  lemma RunExtends(s: Oms, es: seq<Event>, e: Event)
    requires Shape(s)
    ensures Run(s, es + [e]) == Step(Run(s, es), e)
  {
    assert (es + [e])[..|es|] == es;
  }

  lemma RunTwo(s: Oms, e: Event, e': Event)
    requires Shape(s)
    ensures Run(s, [e]) == Step(s, e) && Run(s, [e, e']) == Step(Step(s, e), e')
  {
    RunExtends(s, [], e);
    RunExtends(s, [e], e');
    assert [] + [e] == [e] && [e] + [e'] == [e, e'];
  }

  lemma {:induction false} RunAppend(s: Oms, es: seq<Event>, es': seq<Event>)
    requires Shape(s)
    ensures Run(s, es + es') == Run(Run(s, es), es')
  {
    if es' == [] {
      assert es + es' == es;
    } else {
      assert (es + es')[..|es + es'| - 1] == es + es'[..|es'| - 1];
      RunAppend(s, es, es'[..|es'| - 1]);
    }
  }

  lemma {:induction false} RunKeepsSafe(s: Oms, es: seq<Event>)
    requires Safe(s) && s.nextId > 0
    ensures Safe(Run(s, es)) && Run(s, es).nextId >= s.nextId
  {
    if es != [] {
      RunKeepsSafe(s, es[..|es| - 1]);
      StepKeepsSafe(Run(s, es[..|es| - 1]), es[|es| - 1]);
    }
  }

  /** Every run, with any reports whatsoever: slots and index stay consistent, at most 50 orders are
      open, at most 50 of the 4096 slots are ever used. */
  lemma EveryRunIsSafe(s0: Oms, es: seq<Event>)
    requires Initial(s0)
    ensures var s := Run(s0, es);
            Safe(s) && s.nextId > 0 && |s.index| <= MAX_LIVE_ORDERS
  {
    InitSafe(s0);
    RunKeepsSafe(s0, es);
  }

  /** In every run an order is refused only by the risk check: a slot is always there. */
  lemma OnlyRiskRefuses(s0: Oms, es: seq<Event>, side: Side, price: real, qty: u32)
    requires Initial(s0)
    ensures var s := Run(s0, es); Accepts(s, side, price, qty) <==> CheckRisk(s, side, price, qty)
  {
    EveryRunIsSafe(s0, es);
  }

  // ----- exposure, position and dead ids, in every run -----

  /** The money side of a fill, as recorded in the state. */
  lemma FillMoney(s: Oms, slot: nat, r: Report)
    requires Shape(s) && slot < |s.orders| && Open(s.orders[slot])
    ensures var s' := OnFill(s, slot, r);
            var t := ApplyFill(s, s.orders[slot].side, r.qty, r.price);
            && s'.position == t.position && s'.pendingDelta == t.pendingDelta && s'.cash == t.cash
            && s'.stats.buyQty == (if s.orders[slot].side.Buy? then U32(s.stats.buyQty + r.qty) else s.stats.buyQty)
            && s'.stats.sellQty == (if s.orders[slot].side.Buy? then s.stats.sellQty else U32(s.stats.sellQty + r.qty))
            && s'.stats.fills == s.stats.fills + 1
            && s'.stats.buyFills + s'.stats.sellFills == s.stats.buyFills + s.stats.sellFills + 1
  {
  }

  lemma ApplyFillKeepsExposure(s: Oms, side: Side, qty: u32, price: real)
    ensures var s' := ApplyFill(s, side, qty, price);
            Wrap32(s'.position + s'.pendingDelta) == Wrap32(s.position + s.pendingDelta)
  {
  }

  /** A fill of any quantity, on any order, leaves position plus pending delta (mod 2^32) unchanged:
      what the risk check sees is not affected by executions. */
  lemma FillKeepsExposure(s: Oms, r: Report)
    requires Safe(s) && (r.exec.Fill? || r.exec.PartialFill?)
    ensures var s' := OnExecution(s, r);
            Wrap32(s'.position + s'.pendingDelta) == Wrap32(s.position + s.pendingDelta)
  {
    if r.id in s.index {
      var slot := s.index[r.id];
      FillMoney(s, slot, r);
      ApplyFillKeepsExposure(s, s.orders[slot].side, r.qty, r.price);
    }
  }

  /** The position is the bought minus the sold quantity, modulo 2^32, and every fill is a buy or a sell. */
  ghost predicate Positioned(s: Oms) {
    Congruent(s.position, s.stats.buyQty - s.stats.sellQty) && s.stats.fills == s.stats.buyFills + s.stats.sellFills
  }

  /** How many words an int32 operation with exact result `x` drops. */
  function Turns(x: int): int {
    if x >= 0x8000_0000 then 1 else if x < -0x8000_0000 then -1 else 0
  }

  function Carry(x: nat): int {
    if x < 0x1_0000_0000 then 0 else 1
  }

  lemma FilledPosition(p: int32, b: u32, c: u32, q: u32)
    requires Congruent(p, b - c)
    ensures Congruent(Wrap32(p + Wrap32(q)), U32(b + q) - c)
    ensures Congruent(Wrap32(p - Wrap32(q)), b - U32(c + q))
  {
    var k :| Apart(p, b - c, k);
    var up := k - Turns(q) - Turns(p + Wrap32(q)) + Carry(b + q);
    assert Apart(Wrap32(p + Wrap32(q)), U32(b + q) - c, up);
    var down := k + Turns(q) - Turns(p - Wrap32(q)) - Carry(c + q);
    assert Apart(Wrap32(p - Wrap32(q)), b - U32(c + q), down);
  }

  lemma FillKeepsPositioned(s: Oms, slot: nat, r: Report)
    requires Shape(s) && slot < MAX_ORDERS && Open(s.orders[slot]) && Positioned(s)
    ensures Positioned(OnFill(s, slot, r))
  {
    FillMoney(s, slot, r);
    FilledPosition(s.position, s.stats.buyQty, s.stats.sellQty, r.qty);
  }

  lemma StepKeepsPositioned(s: Oms, e: Event)
    requires Safe(s) && Positioned(s)
    ensures Positioned(Step(s, e))
  {
    if e.Exec? && e.report.id in s.index && (e.report.exec.Fill? || e.report.exec.PartialFill?) {
      FillKeepsPositioned(s, s.index[e.report.id], e.report);
    }
  }

  lemma {:induction false} RunKeepsPositioned(s: Oms, es: seq<Event>)
    requires Safe(s) && s.nextId > 0 && Positioned(s)
    ensures Positioned(Run(s, es))
  {
    if es != [] {
      RunKeepsPositioned(s, es[..|es| - 1]);
      RunKeepsSafe(s, es[..|es| - 1]);
      StepKeepsPositioned(Run(s, es[..|es| - 1]), es[|es| - 1]);
    }
  }

  lemma InitPositioned(s: Oms)
    requires Initial(s)
    ensures Positioned(s)
  {
    assert Apart(s.position, s.stats.buyQty - s.stats.sellQty, 0);
  }

  /** In every run the position is congruent to bought minus sold quantity. */
  lemma EveryRunPositions(s0: Oms, es: seq<Event>)
    requires Initial(s0)
    ensures Positioned(Run(s0, es))
  {
    InitSafe(s0);
    InitPositioned(s0);
    RunKeepsPositioned(s0, es);
  }

  /** An id that was issued and is no longer mapped: its order is terminal. */
  predicate Dead(s: Oms, id: OrderId) {
    0 < id < s.nextId && id !in s.index
  }

  lemma StepKeepsDead(s: Oms, e: Event, id: OrderId)
    requires Safe(s) && Dead(s, id)
    ensures Dead(Step(s, e), id)
  {
    if e.Exec? && e.report.id in s.index && (e.report.exec.Fill? || e.report.exec.PartialFill?) {
      FillShape(s, s.index[e.report.id], e.report);
    }
  }

  /** A terminal order stays terminal in every continuation, and a report for it changes nothing. */
  lemma {:induction false} DeadIsAbsorbing(s: Oms, id: OrderId, es: seq<Event>, r: Report)
    requires Safe(s) && Dead(s, id) && r.id == id
    ensures var s' := Run(s, es); Dead(s', id) && OnExecution(s', r) == s'
  {
    if es != [] {
      DeadIsAbsorbing(s, id, es[..|es| - 1], r);
      RunKeepsSafe(s, es[..|es| - 1]);
      StepKeepsDead(Run(s, es[..|es| - 1]), es[|es| - 1], id);
    }
  }

  /** Reports that end an order: a `Fill`, a cancel, a reject, and a partial fill that leaves nothing. */
  predicate Ends(o: Order, r: Report) {
    r.exec.Fill? || r.exec.CancelAck? || r.exec.Reject? || (r.exec.PartialFill? && o.qty <= U32(o.filled + r.qty))
  }

  /** A mapped order is terminal after a report exactly if the report ends it. */
  lemma ReportKillsIff(s: Oms, r: Report)
    requires Safe(s) && r.id in s.index
    ensures Dead(OnExecution(s, r), r.id) <==> Ends(s.orders[s.index[r.id]], r)
  {
    if r.exec.Fill? || r.exec.PartialFill? {
      FillShape(s, s.index[r.id], r);
    }
  }

  /** The slot of an order that has just ended is the next one to be used. */
  lemma EndedSlotIsNext(s: Oms, r: Report)
    requires Safe(s) && r.id in s.index && Ends(s.orders[s.index[r.id]], r)
    ensures NextSlot(OnExecution(s, r)) == s.index[r.id]
  {
    if r.exec.Fill? || r.exec.PartialFill? {
      FillShape(s, s.index[r.id], r);
    }
  }

  /** The record after a fill does not depend on whether the acknowledgement came first. */
  lemma FilledIgnoresStatus(o: Order, r: Report, st: OrderStatus)
    ensures FilledOrder(o.(status := st), r) == FilledOrder(o, r)
  {
  }

  lemma AckBeforeFill(s: Oms, r: Report, ack: Report)
    requires Safe(s) && r.id in s.index && s.orders[s.index[r.id]].status.Sent?
    requires r.exec.Fill? || r.exec.PartialFill?
    requires ack.id == r.id && ack.exec.NewAck?
    ensures OnExecution(OnExecution(s, ack), r) == OnExecution(s, r)
  {
    var slot := s.index[r.id];
    var o := s.orders[slot];
    FilledIgnoresStatus(o, r, Live);
    var o' := FilledOrder(o, r);
    assert s.orders[slot := o.(status := Live)][slot := o'] == s.orders[slot := o'];
  }

  lemma AckAfterFill(s: Oms, r: Report, ack: Report)
    requires Safe(s) && r.id in s.index && s.orders[s.index[r.id]].status.Sent?
    requires r.exec.Fill? || r.exec.PartialFill?
    requires ack.id == r.id && ack.exec.NewAck?
    ensures OnExecution(OnExecution(s, r), ack) == OnExecution(s, r)
  {
    FillShape(s, s.index[r.id], r);
  }

  /** Acknowledgement and fill commute: for an order just sent, ack-then-fill, fill-then-ack and fill
      alone reach the same state in every field, whatever the fill says. */
  lemma AckFillConfluence(s: Oms, r: Report, ack: Report)
    requires Safe(s) && r.id in s.index && s.orders[s.index[r.id]].status.Sent?
    requires r.exec.Fill? || r.exec.PartialFill?
    requires ack.id == r.id && ack.exec.NewAck?
    ensures OnExecution(OnExecution(s, ack), r) == OnExecution(s, r)
    ensures OnExecution(OnExecution(s, r), ack) == OnExecution(s, r)
  {
    AckBeforeFill(s, r, ack);
    AckAfterFill(s, r, ack);
  }
}
