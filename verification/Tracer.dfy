/** The hop tracer: a power-of-two ring of trace records that overwrites the oldest, compared with the unbounded log of
    everything the pipeline loop completed. */
module Tracer {
  import opened Bits

  datatype Hop =
    | RecvStart | RecvDone | BookUpdated | StrategyDone | OrderSent
    | AckReceived | AckProcessed | FillReceived | FillProcessed

  /** Raw ticks ever written to the record, and the hops recorded since it was last opened. */
  datatype Record = Record(ticks: map<Hop, nat>, mask: set<Hop>)

  const BLANK := Record(map[], {})

  /** What a reader sees: the ticks of the recorded hops. */
  function Visible(r: Record): map<Hop, nat> {
    map h | h in r.mask && h in r.ticks :: r.ticks[h]
  }

  function Noted(r: Record, h: Hop, t: nat): Record {
    Record(r.ticks[h := t], r.mask + {h})
  }

  // ----- the tracer as a value -----

  datatype Ring = Ring(slots: seq<Record>, total: nat, enabled: bool, open: bool)

  predicate Sized(r: Ring) {
    |r.slots| > 0
  }

  function WritePos(r: Ring): (p: nat)
    requires Sized(r)
    ensures p < |r.slots|
  {
    Slot(r.total, |r.slots|)
  }

  function StartTrace(r: Ring): (r': Ring)
    requires Sized(r)
    ensures Sized(r')
  {
    if !r.enabled then r else
    r.(open := true, slots := r.slots[WritePos(r) := r.slots[WritePos(r)].(mask := {})])
  }

  function RecordAt(r: Ring, h: Hop, t: nat): (r': Ring)
    requires Sized(r)
    ensures Sized(r')
  {
    if !r.open then r else r.(slots := r.slots[WritePos(r) := Noted(r.slots[WritePos(r)], h, t)])
  }

  /** A round trip to the exchange: from sending to the acknowledgement, or from there to the fill. */
  datatype Ack = OrderAck(sent: nat, received: nat, processed: nat) | FillAck(acked: nat, received: nat, processed: nat)

  function AckRecord(prior: Record, a: Ack): Record {
    match a
    case OrderAck(s, r, p) => Noted(Noted(Noted(prior.(mask := {}), OrderSent, s), AckReceived, r), AckProcessed, p)
    case FillAck(s, r, p) => Noted(Noted(Noted(prior.(mask := {}), AckReceived, s), FillReceived, r), FillProcessed, p)
  }

  /** Where an acknowledgement goes: behind the open trace if there is one. */
  function AckPos(r: Ring): (p: nat)
    requires Sized(r)
    ensures p < |r.slots|
  {
    Slot(r.total + (if r.open then 1 else 0), |r.slots|)
  }

  function RecordAck(r: Ring, a: Ack): (r': Ring)
    requires Sized(r)
    ensures Sized(r')
  {
    if !r.enabled then r else
    r.(slots := r.slots[AckPos(r) := AckRecord(r.slots[AckPos(r)], a)], total := r.total + 1)
  }

  function EndTrace(r: Ring): Ring {
    if !r.open then r else r.(open := false, total := r.total + 1)
  }

  function DiscardTrace(r: Ring): Ring {
    r.(open := false)
  }

  function Count(r: Ring): nat {
    if r.total < |r.slots| then r.total else |r.slots|
  }

  function TraceAt(r: Ring, idx: nat): Record
    requires Sized(r) && idx < Count(r)
  {
    if r.total <= |r.slots| then r.slots[idx]
    else r.slots[Slot(Slot(r.total, |r.slots|) + idx, |r.slots|)]
  }

  // ----- the pipeline loop -----

  /** One turn of the pipeline loop: with data, the trace of its hops followed by the reports polled; without, only the
      reports. */
  datatype Turn = Busy(tick: nat, hops: seq<(Hop, nat)>, acks: seq<Ack>) | Quiet(tick: nat, acks: seq<Ack>)

  function RecordAll(r: Ring, hops: seq<(Hop, nat)>): (r': Ring)
    requires Sized(r)
    ensures Sized(r')
  {
    if hops == [] then r
    else RecordAt(RecordAll(r, hops[..|hops| - 1]), hops[|hops| - 1].0, hops[|hops| - 1].1)
  }

  function AckAll(r: Ring, acks: seq<Ack>): (r': Ring)
    requires Sized(r)
    ensures Sized(r')
  {
    if acks == [] then r else RecordAck(AckAll(r, acks[..|acks| - 1]), acks[|acks| - 1])
  }

  function TakeTurn(r: Ring, t: Turn): (r': Ring)
    requires Sized(r)
    ensures Sized(r')
  {
    var begun := RecordAt(StartTrace(r), RecvStart, t.tick);
    match t
    case Busy(_, hops, acks) => EndTrace(AckAll(RecordAll(begun, hops), acks))
    case Quiet(_, acks) => AckAll(DiscardTrace(begun), acks)
  }

  function TakeTurns(r: Ring, ts: seq<Turn>): (r': Ring)
    requires Sized(r)
    ensures Sized(r')
  {
    if ts == [] then r else TakeTurn(TakeTurns(r, ts[..|ts| - 1]), ts[|ts| - 1])
  }

  // ----- the unbounded log -----

  type Trace = map<Hop, nat>

  function HopTrace(tick: nat, hops: seq<(Hop, nat)>): Trace {
    if hops == [] then map[RecvStart := tick]
    else HopTrace(tick, hops[..|hops| - 1])[hops[|hops| - 1].0 := hops[|hops| - 1].1]
  }

  function AckTrace(a: Ack): Trace {
    match a
    case OrderAck(s, r, p) => map[OrderSent := s, AckReceived := r, AckProcessed := p]
    case FillAck(s, r, p) => map[AckReceived := s, FillReceived := r, FillProcessed := p]
  }

  function AckTraces(acks: seq<Ack>): seq<Trace> {
    if acks == [] then [] else AckTraces(acks[..|acks| - 1]) + [AckTrace(acks[|acks| - 1])]
  }

  function TurnLog(t: Turn): seq<Trace> {
    match t
    case Busy(tick, hops, acks) => [HopTrace(tick, hops)] + AckTraces(acks)
    case Quiet(_, acks) => AckTraces(acks)
  }

  function Log(ts: seq<Turn>): seq<Trace> {
    if ts == [] then [] else Log(ts[..|ts| - 1]) + TurnLog(ts[|ts| - 1])
  }

  // ----- what the ring shows -----

  /** Record j of the log is in the slot of j, for every j >= from. */
  ghost predicate Holds(slots: seq<Record>, log: seq<Trace>, from: int)
    requires |slots| > 0
  {
    forall j :: 0 <= j < |log| && from <= j ==> Visible(slots[Slot(j, |slots|)]) == log[j]
  }

  /** Between turns.  `spoilt` is the start tick of a trace that was opened and discarded since the last completion; it
      sits where the oldest entry would be once the ring is full. */
  datatype Spoilt = Clean | Since(tick: nat)

  ghost predicate Shows(r: Ring, log: seq<Trace>, spoilt: Spoilt) {
    && Sized(r) && r.enabled && !r.open && r.total == |log|
    && Holds(r.slots, log, |log| - |r.slots| + (if spoilt.Since? then 1 else 0))
    && (spoilt.Since? ==> Visible(r.slots[WritePos(r)]) == map[RecvStart := spoilt.tick])
  }

  /** With a trace open: `log` ends with it or with the acknowledgements behind it. */
  ghost predicate ShowsOpen(r: Ring, log: seq<Trace>) {
    && Sized(r) && r.enabled && r.open && r.total + 1 == |log|
    && Holds(r.slots, log, |log| - |r.slots|)
  }

  /** Writing the slot of the next log entry disturbs only the one a capacity behind. */
  lemma HoldsAppend(slots: seq<Record>, log: seq<Trace>, from: int, rec: Record, t: Trace)
    requires |slots| > 0 && Holds(slots, log, from) && from <= |log| - |slots| + 1 && Visible(rec) == t
    ensures Holds(slots[Slot(|log|, |slots|) := rec], log + [t], |log| + 1 - |slots|)
  {
    var log', slots' := log + [t], slots[Slot(|log|, |slots|) := rec];
    forall j | 0 <= j < |log'| && |log| + 1 - |slots| <= j ensures Visible(slots'[Slot(j, |slots'|)]) == log'[j] {
      if j < |log| {
        SlotsDiffer(j, |log|, |slots|);
      }
    }
  }

  lemma AckVisible(prior: Record, a: Ack)
    ensures Visible(AckRecord(prior, a)) == AckTrace(a)
  {
  }

  /** Opening a trace: the oldest entry of a full ring makes room for it. */
  lemma OpensTrace(r: Ring, log: seq<Trace>, spoilt: Spoilt, tick: nat)
    requires Shows(r, log, spoilt)
    ensures ShowsOpen(RecordAt(StartTrace(r), RecvStart, tick), log + [map[RecvStart := tick]])
  {
    var p := WritePos(r);
    var rec := Noted(r.slots[p].(mask := {}), RecvStart, tick);
    HoldsAppend(r.slots, log, |log| - |r.slots| + (if spoilt.Since? then 1 else 0), rec, map[RecvStart := tick]);
    assert r.slots[p := r.slots[p].(mask := {})][p := rec] == r.slots[p := rec];
  }

  lemma NotedVisible(rec: Record, h: Hop, t: nat)
    ensures Visible(Noted(rec, h, t)) == Visible(rec)[h := t]
  {
  }

  /** Recording a hop extends the open trace, as long as nothing was put behind it. */
  lemma RecordsHop(r: Ring, log: seq<Trace>, cur: Trace, h: Hop, t: nat)
    requires ShowsOpen(r, log + [cur])
    ensures ShowsOpen(RecordAt(r, h, t), log + [cur[h := t]])
  {
    var p := WritePos(r);
    NotedVisible(r.slots[p], h, t);
    var slots', log' := RecordAt(r, h, t).slots, log + [cur[h := t]];
    assert Visible(r.slots[p]) == (log + [cur])[|log|];
    forall j | 0 <= j < |log'| && |log'| - |slots'| <= j ensures Visible(slots'[Slot(j, |slots'|)]) == log'[j] {
      if j < |log| {
        SlotsDiffer(j, |log|, |slots'|);
        assert (log + [cur])[j] == log'[j];
      }
    }
  }

  lemma {:induction false} RecordsHops(r: Ring, log: seq<Trace>, tick: nat, hops: seq<(Hop, nat)>)
    requires ShowsOpen(r, log + [map[RecvStart := tick]])
    ensures ShowsOpen(RecordAll(r, hops), log + [HopTrace(tick, hops)])
  {
    if hops != [] {
      var n := |hops| - 1;
      RecordsHops(r, log, tick, hops[..n]);
      RecordsHop(RecordAll(r, hops[..n]), log, HopTrace(tick, hops[..n]), hops[n].0, hops[n].1);
    }
  }

  lemma AcksBehindTrace(r: Ring, log: seq<Trace>, a: Ack)
    requires ShowsOpen(r, log)
    ensures ShowsOpen(RecordAck(r, a), log + [AckTrace(a)])
  {
    AckVisible(r.slots[AckPos(r)], a);
    HoldsAppend(r.slots, log, |log| - |r.slots|, AckRecord(r.slots[AckPos(r)], a), AckTrace(a));
  }

  lemma AcksBetweenTraces(r: Ring, log: seq<Trace>, spoilt: Spoilt, a: Ack)
    requires Shows(r, log, spoilt)
    ensures Shows(RecordAck(r, a), log + [AckTrace(a)], Clean)
  {
    AckVisible(r.slots[AckPos(r)], a);
    HoldsAppend(r.slots, log, |log| - |r.slots| + (if spoilt.Since? then 1 else 0),
                AckRecord(r.slots[AckPos(r)], a), AckTrace(a));
  }

  lemma {:induction false} AckTracesExtend(log: seq<Trace>, acks: seq<Ack>)
    requires acks != []
    ensures var n := |acks| - 1; log + AckTraces(acks) == log + AckTraces(acks[..n]) + [AckTrace(acks[n])]
  {
  }

  lemma {:induction false} AllAcksBehindTrace(r: Ring, log: seq<Trace>, acks: seq<Ack>)
    requires ShowsOpen(r, log)
    ensures ShowsOpen(AckAll(r, acks), log + AckTraces(acks))
  {
    if acks == [] {
      assert log + [] == log;
    } else {
      var n := |acks| - 1;
      AckTracesExtend(log, acks);
      AllAcksBehindTrace(r, log, acks[..n]);
      AcksBehindTrace(AckAll(r, acks[..n]), log + AckTraces(acks[..n]), acks[n]);
    }
  }

  lemma {:induction false} AllAcksBetweenTraces(r: Ring, log: seq<Trace>, spoilt: Spoilt, acks: seq<Ack>)
    requires Shows(r, log, spoilt)
    ensures Shows(AckAll(r, acks), log + AckTraces(acks), if acks == [] then spoilt else Clean)
  {
    if acks == [] {
      assert log + [] == log;
    } else {
      var n := |acks| - 1;
      AckTracesExtend(log, acks);
      AllAcksBetweenTraces(r, log, spoilt, acks[..n]);
      AcksBetweenTraces(AckAll(r, acks[..n]), log + AckTraces(acks[..n]), if n == 0 then spoilt else Clean, acks[n]);
    }
  }

  lemma EndsTrace(r: Ring, log: seq<Trace>)
    requires ShowsOpen(r, log)
    ensures Shows(EndTrace(r), log, Clean)
  {
  }

  lemma DiscardsTrace(r: Ring, log: seq<Trace>, tick: nat)
    requires ShowsOpen(r, log + [map[RecvStart := tick]])
    ensures Shows(DiscardTrace(r), log, Since(tick))
  {
    var log' := log + [map[RecvStart := tick]];
    assert Visible(r.slots[Slot(|log|, |r.slots|)]) == log'[|log|];
    forall j | 0 <= j < |log| && |log| - |r.slots| + 1 <= j ensures Visible(r.slots[Slot(j, |r.slots|)]) == log[j] {
      assert log'[j] == log[j];
    }
  }

  /** Spoilt after a turn: only a quiet one without reports leaves a discarded trace in place. */
  function Leaves(t: Turn): Spoilt {
    if t.Quiet? && t.acks == [] then Since(t.tick) else Clean
  }

  lemma Regroup(log: seq<Trace>, t: Trace, more: seq<Trace>)
    ensures log + [t] + more == log + ([t] + more)
  {
  }

  lemma {:induction false} BusyShows(begun: Ring, log: seq<Trace>, tick: nat, hops: seq<(Hop, nat)>, acks: seq<Ack>)
    requires ShowsOpen(begun, log + [map[RecvStart := tick]])
    ensures Shows(EndTrace(AckAll(RecordAll(begun, hops), acks)), log + TurnLog(Busy(tick, hops, acks)), Clean)
  {
    RecordsHops(begun, log, tick, hops);
    AllAcksBehindTrace(RecordAll(begun, hops), log + [HopTrace(tick, hops)], acks);
    Regroup(log, HopTrace(tick, hops), AckTraces(acks));
    EndsTrace(AckAll(RecordAll(begun, hops), acks), log + TurnLog(Busy(tick, hops, acks)));
  }

  lemma {:induction false} QuietShows(begun: Ring, log: seq<Trace>, tick: nat, acks: seq<Ack>)
    requires ShowsOpen(begun, log + [map[RecvStart := tick]])
    ensures Shows(AckAll(DiscardTrace(begun), acks), log + AckTraces(acks), if acks == [] then Since(tick) else Clean)
  {
    DiscardsTrace(begun, log, tick);
    AllAcksBetweenTraces(DiscardTrace(begun), log, Since(tick), acks);
  }

  lemma {:induction false} TurnShows(r: Ring, log: seq<Trace>, spoilt: Spoilt, t: Turn)
    requires Shows(r, log, spoilt)
    ensures Shows(TakeTurn(r, t), log + TurnLog(t), Leaves(t))
  {
    OpensTrace(r, log, spoilt, t.tick);
    match t
    case Busy(tick, hops, acks) => BusyShows(RecordAt(StartTrace(r), RecvStart, tick), log, tick, hops, acks);
    case Quiet(tick, acks) => QuietShows(RecordAt(StartTrace(r), RecvStart, tick), log, tick, acks);
  }

  /** A tracer as constructed, with any capacity. */
  ghost predicate Fresh(r: Ring) {
    Sized(r) && r.enabled && !r.open && r.total == 0
  }

  lemma {:induction false} TurnsShow(r: Ring, ts: seq<Turn>)
    requires Fresh(r)
    ensures Shows(TakeTurns(r, ts), Log(ts), if ts == [] then Clean else Leaves(ts[|ts| - 1]))
  {
    if ts != [] {
      var n := |ts| - 1;
      TurnsShow(r, ts[..n]);
      TurnShows(TakeTurns(r, ts[..n]), Log(ts[..n]), if n == 0 then Clean else Leaves(ts[n - 1]), ts[n]);
    }
  }

  /** Reading index `idx` finds the slot of the idx-th of the last `Count` log entries. */
  lemma TraceAtIsSlot(r: Ring, idx: nat)
    requires Sized(r) && idx < Count(r)
    ensures TraceAt(r, idx) == r.slots[Slot(r.total - Count(r) + idx, |r.slots|)]
  {
    var cap := |r.slots|;
    if r.total > cap {
      SlotAdds(r.total, idx, cap);
      assert Slot(r.total + idx, cap) == Slot(r.total + idx - cap, cap);
    }
  }

  /** Reading index `idx` gives the idx-th of the last `Count` log entries, except that a spoilt full ring shows the
      start of the discarded trace at index 0. */
  ghost predicate ReadsAs(r: Ring, log: seq<Trace>, spoilt: Spoilt, idx: nat) {
    && Sized(r) && idx < Count(r) <= |log|
    && Visible(TraceAt(r, idx)) ==
         if idx == 0 && |log| >= |r.slots| && spoilt.Since? then map[RecvStart := spoilt.tick]
         else log[|log| - Count(r) + idx]
  }

  lemma {:induction false} ReadsLog(r: Ring, log: seq<Trace>, spoilt: Spoilt, idx: nat)
    requires Shows(r, log, spoilt) && idx < Count(r)
    ensures r.total == |log| && ReadsAs(r, log, spoilt, idx)
  {
    TraceAtIsSlot(r, idx);
    if idx == 0 && |log| >= |r.slots| {
      assert Slot(r.total - |r.slots|, |r.slots|) == WritePos(r);
    }
  }

  /** A tracer that is switched off, with no trace open, is not touched by any turns. */
  lemma {:induction false} DisabledIsSilent(r: Ring, ts: seq<Turn>)
    requires Sized(r) && !r.enabled && !r.open
    ensures TakeTurns(r, ts) == r
  {
    if ts != [] {
      DisabledIsSilent(r, ts[..|ts| - 1]);
      DisabledTurn(r, ts[|ts| - 1]);
    }
  }

  lemma {:induction false} DisabledTurn(r: Ring, t: Turn)
    requires Sized(r) && !r.enabled && !r.open
    ensures TakeTurn(r, t) == r
  {
    DisabledAcks(r, t.acks);
    if t.Busy? {
      DisabledHops(r, t.hops);
    }
  }

  lemma {:induction false} DisabledAcks(r: Ring, acks: seq<Ack>)
    requires Sized(r) && !r.enabled
    ensures AckAll(r, acks) == r
  {
    if acks != [] {
      DisabledAcks(r, acks[..|acks| - 1]);
    }
  }

  lemma {:induction false} DisabledHops(r: Ring, hops: seq<(Hop, nat)>)
    requires Sized(r) && !r.open
    ensures RecordAll(r, hops) == r
  {
    if hops != [] {
      DisabledHops(r, hops[..|hops| - 1]);
    }
  }

  function SpoiltBy(ts: seq<Turn>): Spoilt {
    if ts == [] then Clean else Leaves(ts[|ts| - 1])
  }

  /** For every sequence of pipeline turns on an enabled tracer: the ring holds the last `Count` entries of the
      unbounded log, in order.  Index 0 is the one exception, exactly when the ring is full and the last turn opened a
      trace and discarded it with no report after it: then it shows only that trace's start. */
  lemma {:induction false} RingShowsEndOfLog(r0: Ring, ts: seq<Turn>, idx: nat)
    requires Fresh(r0) && idx < Count(TakeTurns(r0, ts))
    ensures TakeTurns(r0, ts).total == |Log(ts)|
    ensures ReadsAs(TakeTurns(r0, ts), Log(ts), SpoiltBy(ts), idx)
  {
    TurnsShow(r0, ts);
    ReadsLog(TakeTurns(r0, ts), Log(ts), SpoiltBy(ts), idx);
  }

  // ----- the tracer -----

  class HopTracer {
    const traces: array<Record>
    const capacity: nat
    ghost const bits: nat
    var total: nat
    var enabled: bool
    var inTrace: bool

    ghost predicate Valid()
      reads this
    {
      capacity == Pow2(bits) && traces.Length == capacity
    }

    ghost function View(): Ring
      reads this, traces
    {
      Ring(traces[..], total, enabled, inTrace)
    }

    /** The capacity is the least power of two that is at least the one asked for; a request beyond 2^63 gives a tracer
        without any room, which is not valid. */
    constructor (request: nat)
      requires request < 0x1_0000_0000_0000_0000
      ensures fresh(traces) && traces.Length == capacity && total == 0 && enabled && !inTrace
      ensures request <= 0x8000_0000_0000_0000 ==> Valid() && Fresh(View()) && IsRounded(capacity, request)
      ensures request > 0x8000_0000_0000_0000 ==> capacity == 0 && !Valid()
    {
      var cap := RoundUpPow2(request);
      ghost var k: nat := 0;
      if request <= 0x8000_0000_0000_0000 {
        k :| LeastPow2(cap, request, k);
      }
      capacity, bits := cap, k;
      traces := new Record[cap](i => BLANK);
      total, enabled, inTrace := 0, true, false;
    }

    /** `n` masked with capacity - 1. */
    method Position(n: nat) returns (p: nat)
      requires Valid()
      ensures p == Slot(n, capacity)
    {
      MaskIsSlot(n, bits);
      p := And(n, capacity - 1);
    }

    method Start()
      requires Valid()
      modifies this`inTrace, traces
      ensures Valid() && View() == StartTrace(old(View()))
    {
      if !enabled {
        return;
      }
      inTrace := true;
      var pos := Position(total);
      traces[pos] := traces[pos].(mask := {});
    }

    method RecordHop(h: Hop, t: nat)
      requires Valid()
      modifies traces
      ensures Valid() && View() == RecordAt(old(View()), h, t)
    {
      if !inTrace {
        return;
      }
      var pos := Position(total);
      traces[pos] := Noted(traces[pos], h, t);
    }

    /** `record_order_ack` and `record_ack_fill`. */
    method RecordReport(a: Ack)
      requires Valid()
      modifies this`total, traces
      ensures Valid() && View() == RecordAck(old(View()), a)
    {
      if !enabled {
        return;
      }
      var pos := Position(total + if inTrace then 1 else 0);
      var rec := traces[pos].(mask := {});
      match a {
        case OrderAck(sent, received, processed) =>
          rec := Noted(rec, OrderSent, sent);
          rec := Noted(rec, AckReceived, received);
          rec := Noted(rec, AckProcessed, processed);
        case FillAck(acked, received, processed) =>
          rec := Noted(rec, AckReceived, acked);
          rec := Noted(rec, FillReceived, received);
          rec := Noted(rec, FillProcessed, processed);
      }
      traces[pos] := rec;
      total := total + 1;
    }

    method End()
      requires Valid()
      modifies this`inTrace, this`total
      ensures Valid() && View() == EndTrace(old(View()))
    {
      if !inTrace {
        return;
      }
      inTrace := false;
      total := total + 1;
    }

    method Discard()
      requires Valid()
      modifies this`inTrace
      ensures Valid() && View() == DiscardTrace(old(View()))
    {
      inTrace := false;
    }

    method Reset()
      requires Valid()
      modifies this`inTrace, this`total
      ensures Valid() && View() == old(View()).(total := 0, open := false)
      ensures enabled ==> Fresh(View())
    {
      total := 0;
      inTrace := false;
    }

    method Trace(idx: nat) returns (rec: Record)
      requires Valid() && idx < Count(View())
      ensures rec == TraceAt(View(), idx)
    {
      if total <= capacity {
        return traces[idx];
      }
      var oldest := Position(total);
      var pos := Position(oldest + idx);
      return traces[pos];
    }

    // ----- the calls of the pipeline loop -----

    method RecordHops(hops: seq<(Hop, nat)>)
      requires Valid()
      modifies traces
      ensures Valid() && View() == RecordAll(old(View()), hops)
    {
      for i := 0 to |hops|
        invariant View() == RecordAll(old(View()), hops[..i])
      {
        RecordHop(hops[i].0, hops[i].1);
        assert hops[..i + 1][..i] == hops[..i];
      }
      assert hops[..|hops|] == hops;
    }

    method RecordReports(acks: seq<Ack>)
      requires Valid()
      modifies this`total, traces
      ensures Valid() && View() == AckAll(old(View()), acks)
    {
      for i := 0 to |acks|
        invariant View() == AckAll(old(View()), acks[..i])
      {
        RecordReport(acks[i]);
        assert acks[..i + 1][..i] == acks[..i];
      }
      assert acks[..|acks|] == acks;
    }

    /** One turn of the loop: the trace is opened first, and ended after the reports or discarded before them. */
    method Turn(turn: Turn)
      requires Valid()
      modifies this`inTrace, this`total, traces
      ensures Valid() && View() == TakeTurn(old(View()), turn)
    {
      Start();
      RecordHop(RecvStart, turn.tick);
      match turn {
        case Busy(_, hops, acks) =>
          RecordHops(hops);
          RecordReports(acks);
          End();
        case Quiet(_, acks) =>
          Discard();
          RecordReports(acks);
      }
    }

    /** The loop: a tracer just built then shows the end of the log. */
    method Loop(turns: seq<Turn>)
      requires Valid()
      modifies this`inTrace, this`total, traces
      ensures Valid() && View() == TakeTurns(old(View()), turns)
      ensures old(Fresh(View())) ==>
                forall idx :: 0 <= idx < Count(View()) ==> ReadsAs(View(), Log(turns), SpoiltBy(turns), idx)
    {
      for i := 0 to |turns|
        invariant View() == TakeTurns(old(View()), turns[..i])
      {
        Turn(turns[i]);
        assert turns[..i + 1][..i] == turns[..i];
      }
      assert turns[..|turns|] == turns;
      if old(Fresh(View())) {
        forall idx | 0 <= idx < Count(View()) ensures ReadsAs(View(), Log(turns), SpoiltBy(turns), idx) {
          RingShowsEndOfLog(old(View()), turns, idx);
        }
      }
    }
  }
}
