/** Runs that go wrong: for each kind of report that upsets a counter of the order manager, a run from the initial state
    in which it does, and what follows from it. */
module OmsLeaks {
  import opened Words
  import opened OrderMap
  import opened OmsModel
  import opened OmsSafety
  import opened OmsLedger
  import opened OmsOrders
  import opened OmsExposure
  import opened OmsStops

  lemma TallyExtends(w: (Order, Report) -> int, s: Oms, es: seq<Event>, e: Event)
    requires Shape(s)
    ensures Tally(w, s, es + [e]) == Tally(w, s, es) + Stray(w, Run(s, es), e)
  {
    assert (es + [e])[..|es|] == es;
  }

  /** Nothing is open, the two admission counters stand at these values, and nothing else is off. */
  ghost predicate Leaked(s: Oms, news: nat, live: nat) {
    && Counts(s) && s.nextId > 0 && s.index == map[] && s.pendingNew == news && s.live == live
    && s.position == s.pendingDelta == 0 && s.refPrice == 0.0
  }

  /** A buy order is sent in such a state. */
  function Sent1(s: Oms, qty: u32, kind: OrderType): Oms
    requires Shape(s)
  {
    SendNew(s, Buy, 0.0, qty, kind)
  }

  lemma Sends(s: Oms, news: nat, live: nat, qty: u32, kind: OrderType)
    requires Leaked(s, news, live) && news + live < MAX_LIVE_ORDERS && qty <= 500
    ensures var s' := Sent1(s, qty, kind);
            && Counts(s') && s'.index == map[s.nextId := NextSlot(s)] && NextSlot(s) < MAX_ORDERS
            && s'.orders[NextSlot(s)] == NewOrder(s, Buy, 0.0, qty, kind)
            && s'.pendingNew == news + 1 && s'.live == live && s'.nextId > 0
            && s'.position == 0 && s'.pendingDelta == qty && s'.refPrice == 0.0 && s'.stats == s.stats
  {
    SendKeepsSafe(s, Buy, 0.0, qty, kind);
    SendShifts(s, Buy, 0.0, qty, kind);
  }

  lemma InitLeaked(s0: Oms)
    requires Initial(s0)
    ensures Leaked(s0, 0, 0)
  {
    InitCounts(s0);
  }

  /** Sending an order and cancelling it before its acknowledgement leaks one pending order. */
  lemma EarlyCancelLeaks(s: Oms, n: nat)
    requires Leaked(s, n, 0) && n < MAX_LIVE_ORDERS
    ensures var s1, r := Sent1(s, 1, Limit), Report(s.nextId, CancelAck, 0.0, 0);
            Stray(EarlyCancel, s1, Exec(r)) == 1 && Leaked(OnExecution(s1, r), n + 1, 0)
  {
    Sends(s, n, 0, 1, Limit);
    var s1, r := Sent1(s, 1, Limit), Report(s.nextId, CancelAck, 0.0, 0);
    ReportKeepsSafe(s1, r);
    ReportShifts(s1, r);
    assert OnExecution(s1, r).index == map[];
  }

  lemma {:induction false} EarlyCancels(s0: Oms, n: nat) returns (es: seq<Event>)
    requires Initial(s0) && n <= MAX_LIVE_ORDERS
    ensures Leaked(Run(s0, es), n, 0) && Tally(EarlyCancel, s0, es) == n
  {
    InitLeaked(s0);
    if n == 0 {
      es := [];
    } else {
      var es' := EarlyCancels(s0, n - 1);
      var s := Run(s0, es');
      var send, cancel := Send(Buy, 0.0, 1, Limit), Exec(Report(s.nextId, CancelAck, 0.0, 0));
      EarlyCancelLeaks(s, n - 1);
      RunExtends(s0, es', send);
      RunExtends(s0, es' + [send], cancel);
      TallyExtends(EarlyCancel, s0, es', send);
      TallyExtends(EarlyCancel, s0, es' + [send], cancel);
      es := es' + [send] + [cancel];
    }
  }

  /** What an early cancel leaks is never given back: after 50 of them, in any run, trading has stopped for good. */
  lemma EarlyCancelsStopTrading(s0: Oms, es: seq<Event>)
    requires Initial(s0) && Tally(EarlyCancel, s0, es) >= MAX_LIVE_ORDERS
    ensures Stopped(Run(s0, es))
  {
    InitSteady(s0);
    RunKeepsSteady(s0, es);
    EveryOrderAccounted(s0, es);
    SumNonNegative(SentBit, Run(s0, es).orders);
    StoppedIff(s0, es);
  }

  /** There is such a run, and it ends with no order open and no position. */
  lemma EarlyCancelsCanStop(s0: Oms)
    requires Initial(s0)
    ensures exists es: seq<Event> ::
              var s := Run(s0, es); Stopped(s) && s.index == map[] && s.position == s.pendingDelta == 0
  {
    var es := EarlyCancels(s0, MAX_LIVE_ORDERS);
    EarlyCancelsStopTrading(s0, es);
    assert Stopped(Run(s0, es));
  }

  /** The order of `s1` is acknowledged: it moves from one counter to the other. */
  lemma AckMoves(s: Oms, n: nat)
    requires Leaked(s, 0, n) && n < MAX_LIVE_ORDERS
    ensures var s2 := OnExecution(Sent1(s, 1, Limit), Report(s.nextId, NewAck, 0.0, 0));
            && Counts(s2) && s2.index == map[s.nextId := NextSlot(s)] && NextSlot(s) < MAX_ORDERS
            && s2.orders[NextSlot(s)] == NewOrder(s, Buy, 0.0, 1, Limit).(status := Live)
            && s2.pendingNew == 0 && s2.live == n + 1 && s2.nextId > 0
            && s2.position == 0 && s2.pendingDelta == 1 && s2.refPrice == 0.0
  {
    Sends(s, 0, n, 1, Limit);
    var s1, r := Sent1(s, 1, Limit), Report(s.nextId, NewAck, 0.0, 0);
    ReportKeepsSafe(s1, r);
    ReportShifts(s1, r);
  }

  /** Sending an order and rejecting it after its acknowledgement leaks one live order. */
  lemma LateRejectLeaks(s: Oms, n: nat)
    requires Leaked(s, 0, n) && n < MAX_LIVE_ORDERS
    ensures var s2 := OnExecution(Sent1(s, 1, Limit), Report(s.nextId, NewAck, 0.0, 0));
            Leaked(OnExecution(s2, Report(s.nextId, Reject, 0.0, 0)), 0, n + 1)
  {
    AckMoves(s, n);
    var s2, r := OnExecution(Sent1(s, 1, Limit), Report(s.nextId, NewAck, 0.0, 0)), Report(s.nextId, Reject, 0.0, 0);
    ReportKeepsSafe(s2, r);
    ReportShifts(s2, r);
    assert OnExecution(s2, r).index == map[];
  }

  lemma {:induction false} LateRejects(s0: Oms, n: nat) returns (es: seq<Event>)
    requires Initial(s0) && n <= MAX_LIVE_ORDERS
    ensures Leaked(Run(s0, es), 0, n)
  {
    InitLeaked(s0);
    if n == 0 {
      es := [];
    } else {
      var es' := LateRejects(s0, n - 1);
      var id := Run(s0, es').nextId;
      var send, ack := Send(Buy, 0.0, 1, Limit), Exec(Report(id, NewAck, 0.0, 0));
      var reject := Exec(Report(id, Reject, 0.0, 0));
      LateRejectLeaks(Run(s0, es'), n - 1);
      RunExtends(s0, es', send);
      RunExtends(s0, es' + [send], ack);
      RunExtends(s0, es' + [send] + [ack], reject);
      es := es' + [send] + [ack] + [reject];
    }
  }

  /** Rejects of acknowledged orders stop trading in the same way. */
  lemma LateRejectsCanStop(s0: Oms)
    requires Initial(s0)
    ensures exists es: seq<Event> ::
              var s := Run(s0, es); Stopped(s) && s.index == map[] && s.position == s.pendingDelta == s.pendingNew == 0
  {
    var es := LateRejects(s0, MAX_LIVE_ORDERS);
    IdleStoppedIff(s0, es);
    assert Stopped(Run(s0, es));
  }

  /** Order `id` is the only open one; it is a buy of 2 without a fill, and the books are exact. */
  ghost predicate Alone(s: Oms, id: OrderId, status: OrderStatus) {
    && Books(s) && s.index.Keys == {id}
    && var o := s.orders[s.index[id]]; o.status == status && o.side.Buy? && o.leaves == o.qty == 2 && o.filled == 0
  }

  lemma SentAlone(s0: Oms)
    requires Initial(s0)
    ensures var s := Sent1(s0, 2, Limit);
            Alone(s, s0.nextId, Sent) && s.pendingNew == 1 && s.live == 0 && s.pendingDelta == 2
  {
    InitLeaked(s0);
    InitBooks(s0);
    Sends(s0, 0, 0, 2, Limit);
    SendKeepsBooks(s0, Buy, 0.0, 2, Limit);
  }

  lemma AckedAlone(s: Oms, id: OrderId)
    requires Alone(s, id, Sent) && s.live == 0
    ensures var s' := OnExecution(s, Report(id, NewAck, 0.0, 0)); Alone(s', id, Live) && s'.live == 1
  {
    BooksKeptIff(s, Report(id, NewAck, 0.0, 0));
  }

  // Each of the three counters can be left wrong with no order open.

  /** `pending_new_`, by a cancel of an unacknowledged order. */
  lemma EarlyCancelBreaksBooks(s0: Oms)
    requires Initial(s0)
    ensures var s := Run(s0, [Send(Buy, 0.0, 2, Limit), Exec(Report(s0.nextId, CancelAck, 0.0, 0))]);
            !Books(s) && s.index == map[] && s.pendingNew == 1
  {
    SentAlone(s0);
    BooksKeptIff(Sent1(s0, 2, Limit), Report(s0.nextId, CancelAck, 0.0, 0));
    RunTwo(s0, Send(Buy, 0.0, 2, Limit), Exec(Report(s0.nextId, CancelAck, 0.0, 0)));
  }

  /** `live_orders_`, by a reject of an acknowledged order. */
  lemma LateRejectBreaksBooks(s0: Oms)
    requires Initial(s0)
    ensures var s := Run(s0, [Send(Buy, 0.0, 2, Limit), Exec(Report(s0.nextId, NewAck, 0.0, 0))]
                             + [Exec(Report(s0.nextId, Reject, 0.0, 0))]);
            !Books(s) && s.index == map[] && s.live == 1
  {
    var send, ack := Send(Buy, 0.0, 2, Limit), Report(s0.nextId, NewAck, 0.0, 0);
    var s := Sent1(s0, 2, Limit);
    SentAlone(s0);
    AckedAlone(s, s0.nextId);
    BooksKeptIff(OnExecution(s, ack), Report(s0.nextId, Reject, 0.0, 0));
    RunTwo(s0, send, Exec(ack));
    RunExtends(s0, [send, Exec(ack)], Exec(Report(s0.nextId, Reject, 0.0, 0)));
  }

  /** The pending delta, by a `Fill` short of what is left. */
  lemma ShortFillBreaksBooks(s0: Oms)
    requires Initial(s0)
    ensures var s := Run(s0, [Send(Buy, 0.0, 2, Limit), Exec(Report(s0.nextId, Fill, 0.0, 1))]);
            !Books(s) && s.index == map[] && s.pendingDelta == 1
  {
    var s, r := Sent1(s0, 2, Limit), Report(s0.nextId, Fill, 0.0, 1);
    SentAlone(s0);
    BooksKeptIff(s, r);
    FillShape(s, s.index[r.id], r);
    FillCounters(s, s.index[r.id], r);
    RunTwo(s0, Send(Buy, 0.0, 2, Limit), Exec(Report(s0.nextId, Fill, 0.0, 1)));
  }

  /** ... or by a partial fill of more than is left. */
  lemma OverFillBreaksBooks(s0: Oms)
    requires Initial(s0)
    ensures var s := Run(s0, [Send(Buy, 0.0, 2, Limit), Exec(Report(s0.nextId, PartialFill, 0.0, 3))]);
            !Books(s) && s.index == map[] && s.pendingDelta == -1
  {
    var s, r := Sent1(s0, 2, Limit), Report(s0.nextId, PartialFill, 0.0, 3);
    SentAlone(s0);
    BooksKeptIff(s, r);
    FillShape(s, s.index[r.id], r);
    FillCounters(s, s.index[r.id], r);
    RunTwo(s0, Send(Buy, 0.0, 2, Limit), Exec(Report(s0.nextId, PartialFill, 0.0, 3)));
  }

  // ----- the hit rate -----

  /** Order `id` is accepted and open, with `done` of its `qty` filled; so many orders count as accepted and filled. */
  ghost predicate Holds(s: Oms, id: OrderId, qty: u32, done: u32, accepted: nat, filled: nat) {
    && Safe(s) && s.stats.accepted == accepted && s.stats.filledOrders == filled && id in s.index
    && var o := s.orders[s.index[id]]; LiveBit(o) == 1 && o.qty == qty && o.filled == done
  }

  function Part(id: OrderId, q: u32): Report {
    Report(id, PartialFill, 0.0, q)
  }

  /** A partial fill that does not complete the order counts the order as filled if nothing was filled before. */
  lemma PartCounts(s: Oms, id: OrderId, qty: u32, done: u32, accepted: nat, filled: nat, q: u32)
    requires Holds(s, id, qty, done, accepted, filled) && U32(done + q) < qty
    ensures Holds(OnExecution(s, Part(id, q)), id, qty, U32(done + q), accepted,
                  if done == 0 then filled + 1 else filled)
  {
    var slot, r := s.index[id], Part(id, q);
    FillKeepsSafe(s, slot, r);
    FirstFill(s.orders[slot], r);
    FillShape(s, slot, r);
    FillCounters(s, slot, r);
  }

  /** An order of quantity 2 is sent and acknowledged. */
  function Opening(id: OrderId): seq<Event> {
    [Send(Buy, 0.0, 2, IOC), Exec(Report(id, NewAck, 0.0, 0))]
  }

  lemma OpeningHolds(s0: Oms)
    requires Initial(s0)
    ensures Holds(Run(s0, Opening(s0.nextId)), s0.nextId, 2, 0, 1, 0)
  {
    var ack := Report(s0.nextId, NewAck, 0.0, 0);
    InitLeaked(s0);
    Sends(s0, 0, 0, 2, IOC);
    ReportKeepsSafe(Sent1(s0, 2, IOC), ack);
    RunTwo(s0, Send(Buy, 0.0, 2, IOC), Exec(ack));
  }

  /** The opening, then partial fills of these quantities. */
  function Parts(id: OrderId, qs: seq<u32>): seq<Event> {
    if qs == [] then Opening(id) else Parts(id, qs[..|qs| - 1]) + [Exec(Part(id, qs[|qs| - 1]))]
  }

  /** One more partial fill. */
  lemma PartFollows(s0: Oms, qs: seq<u32>, q: u32, done: u32, filled: nat)
    requires Initial(s0) && Holds(Run(s0, Parts(s0.nextId, qs)), s0.nextId, 2, done, 1, filled) && U32(done + q) < 2
    ensures Holds(Run(s0, Parts(s0.nextId, qs + [q])), s0.nextId, 2, U32(done + q), 1,
                  if done == 0 then filled + 1 else filled)
  {
    var id := s0.nextId;
    assert (qs + [q])[..|qs|] == qs;
    RunExtends(s0, Parts(id, qs), Exec(Part(id, q)));
    PartCounts(Run(s0, Parts(id, qs)), id, 2, done, 1, filled, q);
  }

  /** `n` empty fills are counted as `n` orders filled. */
  lemma {:induction false} EmptyFills(s0: Oms, n: nat) returns (qs: seq<u32>)
    requires Initial(s0)
    ensures Holds(Run(s0, Parts(s0.nextId, qs)), s0.nextId, 2, 0, 1, n)
  {
    if n == 0 {
      OpeningHolds(s0);
      qs := [];
    } else {
      var qs' := EmptyFills(s0, n - 1);
      PartFollows(s0, qs', 0, 0, n - 1);
      qs := qs' + [0];
    }
  }

  /** The hit rate has no bound: one order accepted can be counted as filled any number of times. */
  lemma HitRateUnbounded(s0: Oms, n: nat)
    requires Initial(s0)
    ensures exists es: seq<Event> :: Run(s0, es).stats.accepted == 1 && Run(s0, es).stats.filledOrders == n
  {
    var qs := EmptyFills(s0, n);
    var es := Parts(s0.nextId, qs);
    assert Holds(Run(s0, es), s0.nextId, 2, 0, 1, n);
  }

  /** A fill of 1 and one of 2^32 - 1 leave the order counted as filled, open and with nothing filled. */
  lemma WrapEmpties(s0: Oms)
    requires Initial(s0)
    ensures Holds(Run(s0, Parts(s0.nextId, [1, 0xFFFF_FFFF])), s0.nextId, 2, 0, 1, 1)
  {
    OpeningHolds(s0);
    PartFollows(s0, [], 1, 0, 0);
    assert [] + [1] == [1];
    PartFollows(s0, [1], 0xFFFF_FFFF, 1, 1);
    assert [1] + [0xFFFF_FFFF] == [1, 0xFFFF_FFFF];
  }

  /** So the hit rate exceeds 100% without an empty fill too. */
  lemma WrappedFillCountsAgain(s0: Oms)
    requires Initial(s0)
    ensures var s := Run(s0, Parts(s0.nextId, [1, 0xFFFF_FFFF] + [1]));
            s.stats.filledOrders == 2 && s.stats.accepted == 1
  {
    WrapEmpties(s0);
    PartFollows(s0, [1, 0xFFFF_FFFF], 1, 0, 1);
  }
}
