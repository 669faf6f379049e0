/** The TSC synchronisation check: a request/acknowledge ping-pong between two threads, as interleaved atomic steps,
    and the skew estimate computed from it.

    The reference core's counter is the time base; the target core's counter reads `skew` more.  A step of either
    thread happens at a time no earlier than the previous step.  All computation is on 64-bit machine words. */
module TscSync {
  const U64_MAX: nat := 0xFFFF_FFFF_FFFF_FFFF

  /** Counter readings stay below this for as long as the check runs (many years after reset). */
  const HORIZON: int := 0x4000_0000_0000_0000

  // ----- the arithmetic of one sample -----

  type u64 = x: nat | x < 0x1_0000_0000_0000_0000
  type int64 = x: int | -0x8000_0000_0000_0000 <= x < 0x8000_0000_0000_0000

  /** What a counter shows at time `x`. */
  function Reading(x: int): u64 {
    x % 0x1_0000_0000_0000_0000
  }

  function Add64(x: u64, y: u64): u64 {
    if x + y < 0x1_0000_0000_0000_0000 then x + y else x + y - 0x1_0000_0000_0000_0000
  }

  function Sub64(x: u64, y: u64): u64 {
    if x >= y then x - y else x - y + 0x1_0000_0000_0000_0000
  }

  /** Cast of a uint64 to int64. */
  function ToInt64(x: u64): int64 {
    if x < 0x8000_0000_0000_0000 then x else x - 0x1_0000_0000_0000_0000
  }

  /** The int64 that a sum or difference of two of them wraps to. */
  function Wrap64(x: int): int64
    requires -0x1_0000_0000_0000_0000 <= x < 0x1_0000_0000_0000_0000
  {
    if x >= 0x8000_0000_0000_0000 then x - 0x1_0000_0000_0000_0000
    else if x < -0x8000_0000_0000_0000 then x + 0x1_0000_0000_0000_0000
    else x
  }

  /** Negation of an int64, the least value being its own negative. */
  function Negate64(x: int64): int64 {
    if x == -0x8000_0000_0000_0000 then x else -x
  }

  function TscDelta(lhs: u64, rhs: u64): int64 {
    if lhs >= rhs then ToInt64(lhs - rhs) else Negate64(ToInt64(rhs - lhs))
  }

  /** The signed difference is exact precisely when it fits in an int64. */
  lemma TscDeltaExactIff(lhs: u64, rhs: u64)
    ensures TscDelta(lhs, rhs) == lhs - rhs <==> -0x8000_0000_0000_0000 <= lhs - rhs < 0x8000_0000_0000_0000
  {
  }

  /** The exact midpoint, rounded down, and the exact uncertainty, rounded up. */
  function Midpoint(start: int, end: int): int {
    start + (end - start) / 2
  }

  function Uncertainty(roundtrip: int): int {
    (roundtrip + 1) / 2
  }

  function Abs(x: int): nat {
    if x < 0 then -x else x
  }

  /** The offset the code computes from the three readings of a sample. */
  function Offset(start: u64, end: u64, target: u64): int64 {
    TscDelta(target, Add64(start, Sub64(end, start) / 2))
  }

  /** The configuration holds C++ ints. */
  type cint = x: nat | x < 0x8000_0000

  datatype Config = Config(samples: cint, warmup: cint, threshold: cint)

  /** The best sample so far. */
  datatype Best = Best(roundtrip: u64, offset: int64, aux: nat)

  datatype Stats = Stats(best: Best, uncertainty: u64, low: int64, high: int64, pass: bool)

  function Summarise(cfg: Config, best: Best): Stats {
    var u: u64 := Add64(best.roundtrip, 1) / 2;
    Stats(best, u, Wrap64(best.offset - ToInt64(u)), Wrap64(best.offset + ToInt64(u)),
          (if best.offset < 0 then Negate64(best.offset) else best.offset) <= ToInt64(Add64(cfg.threshold, u)))
  }

  /** With readings up to the horizon the machine arithmetic of a sample is the mathematical one: round trip and
      midpoint do not wrap and the offset is exact. */
  lemma MachineArithmeticIsExact(start: u64, end: u64, target: u64)
    requires start <= end <= HORIZON && target <= HORIZON
    ensures Sub64(end, start) == end - start && Offset(start, end, target) == target - Midpoint(start, end)
    ensures -HORIZON <= Offset(start, end, target) <= HORIZON
  {
  }

  /** ... and so is that of the summary. */
  lemma SummaryIsExact(cfg: Config, best: Best)
    requires best.roundtrip <= HORIZON && -HORIZON <= best.offset <= HORIZON
    ensures var u, st := Uncertainty(best.roundtrip), Summarise(cfg, best);
            && st.uncertainty == u && st.low == best.offset - u && st.high == best.offset + u
            && (st.pass <==> Abs(best.offset) <= cfg.threshold + u)
  {
  }

  // ----- the two threads -----

  datatype TargetPc =
    | Launch                  // before `ready` is set
    | Poll                    // about to test `stop`
    | Fetch                   // about to load `request`
    | Sample                  // a new request is seen; about to read the counter
    | StoreTsc                // about to publish the timestamp
    | StoreAux                // about to publish the core number
    | StoreAck                // about to acknowledge
    | Exit

  datatype RefPc =
    | AwaitReady
    | Begin                   // about to read the start time
    | Request                 // about to store the request
    | Await                   // spinning on the acknowledgement
    | Finish                  // about to read the end time
    | Evaluate                // about to load the target's timestamp and compare
    | LoadAux                 // about to load the core number of a new best sample
    | Close                   // about to set `stop`
    | Bump                    // about to add one to `request`
    | Done

  /** A completed measurement: readings, and the true time `at` of the target's reading. */
  datatype Sampled = Sampled(start: u64, end: u64, target: u64, at: int, aux: nat)

  function Roundtrip(m: Sampled): int {
    m.end - m.start
  }

  datatype State = State(
    now: nat,
    request: nat, ack: nat, targetTsc: u64, targetAux: nat, ready: bool, stop: bool,
    tpc: TargetPc, seen: nat, tsc: u64, aux: nat,
    rpc: RefPc, i: nat, start: u64, end: u64, best: Best,
    at: int, log: seq<Sampled>)

  /** The sample about to be evaluated. */
  function Current(s: State): Sampled {
    Sampled(s.start, s.end, s.targetTsc, s.at, s.aux)
  }

  function Total(cfg: Config): nat {
    cfg.warmup + cfg.samples
  }

  ghost predicate Initial(s: State) {
    && s.request == s.ack == s.seen == s.i == 0 && !s.ready && !s.stop && s.tpc.Launch? && s.rpc.AwaitReady?
    && s.best == Best(U64_MAX, 0, 0) && s.log == []
  }

  function NextIteration(cfg: Config, s: State): State {
    s.(i := s.i + 1, rpc := if s.i + 1 < Total(cfg) then Begin else Close)
  }

  /** One atomic step of the target thread; `cpu` is the core number its counter read reports. */
  function TargetStep(skew: int, s: State, cpu: nat): State {
    match s.tpc
    case Launch => s.(ready := true, tpc := Poll)
    case Poll => s.(tpc := if s.stop then Exit else Fetch)
    case Fetch => if s.request == s.seen then s.(tpc := Poll) else s.(seen := s.request, tpc := Sample)
    case Sample => s.(tsc := Reading(s.now + skew), aux := cpu, at := s.now, tpc := StoreTsc)
    case StoreTsc => s.(targetTsc := s.tsc, tpc := StoreAux)
    case StoreAux => s.(targetAux := s.aux, tpc := StoreAck)
    case StoreAck => s.(ack := s.seen, tpc := Poll)
    case Exit => s
  }

  /** One atomic step of the reference thread. */
  function RefStep(cfg: Config, s: State): State {
    match s.rpc
    case AwaitReady => if s.ready then s.(rpc := if 0 < Total(cfg) then Begin else Close) else s
    case Begin => s.(start := Reading(s.now), rpc := Request)
    case Request => s.(request := s.i + 1, rpc := Await)
    case Await => if s.ack == s.i + 1 then s.(rpc := Finish) else s
    case Finish => s.(end := Reading(s.now), rpc := Evaluate)
    case Evaluate =>
      if s.i < cfg.warmup then NextIteration(cfg, s) else
      var s1 := s.(log := s.log + [Current(s)]);
      var roundtrip := Sub64(s.end, s.start);
      if roundtrip < s.best.roundtrip then
        s1.(best := s.best.(roundtrip := roundtrip, offset := Offset(s.start, s.end, s.targetTsc)), rpc := LoadAux)
      else NextIteration(cfg, s1)
    case LoadAux => NextIteration(cfg, s.(best := s.best.(aux := s.targetAux)))
    case Close => s.(stop := true, rpc := Bump)
    case Bump => s.(request := s.request + 1, rpc := Done)
    case Done => s
  }

  /** Time passes, or one of the threads takes its next step. */
  datatype Move = Wait(elapsed: nat) | Target(cpu: nat) | Reference

  function Step(cfg: Config, skew: int, s: State, m: Move): State {
    match m
    case Wait(elapsed) => s.(now := s.now + elapsed)
    case Target(cpu) => TargetStep(skew, s, cpu)
    case Reference => RefStep(cfg, s)
  }

  function Run(cfg: Config, skew: int, s: State, ms: seq<Move>): State {
    if ms == [] then s else Step(cfg, skew, Run(cfg, skew, s, ms[..|ms| - 1]), ms[|ms| - 1])
  }

  // ----- the protocol invariant -----

  predicate TargetIdle(s: State) {
    s.tpc.Launch? || s.tpc.Poll? || s.tpc.Fetch? || s.tpc.Exit?
  }

  /** What the target holds locally while it serves a request. */
  predicate TargetLocal(skew: int, s: State) {
    && (s.tpc.StoreTsc? || s.tpc.StoreAux? || s.tpc.StoreAck? ==> s.tsc == s.at + skew && s.start <= s.at <= s.now)
    && (s.tpc.StoreAux? || s.tpc.StoreAck? ==> s.targetTsc == s.tsc)
    && (s.tpc.StoreAck? ==> s.targetAux == s.aux)
  }

  /** The answer to the current request is complete and published. */
  predicate Answered(skew: int, s: State) {
    && TargetIdle(s) && s.ack == s.seen == s.request == s.i + 1
    && s.targetTsc == s.at + skew && s.start <= s.at <= s.now && s.targetAux == s.aux
  }

  /** Neither counter has wrapped around or passed the horizon. */
  predicate Ticking(skew: int, now: nat) {
    now <= HORIZON && 0 <= now + skew <= HORIZON
  }

  lemma ReadsTrue(x: int)
    requires 0 <= x <= HORIZON
    ensures Reading(x) == x
  {
  }

  /** Where the two threads can be relative to each other. */
  predicate InStep(cfg: Config, skew: int, s: State) {
    match s.rpc
    case AwaitReady => TargetIdle(s) && s.request == s.ack == s.seen == s.i == 0
    case Begin => TargetIdle(s) && s.request == s.ack == s.seen == s.i
    case Request => TargetIdle(s) && s.request == s.ack == s.seen == s.i && s.start <= s.now
    case Await =>
      && s.request == s.i + 1 && s.start <= s.now
      && (if s.seen == s.i then TargetIdle(s) && s.ack == s.i
          else if TargetIdle(s) then Answered(skew, s)
          else s.seen == s.i + 1 && s.ack == s.i && TargetLocal(skew, s))
    case Finish => Answered(skew, s)
    case Evaluate => Answered(skew, s) && s.at <= s.end && s.start <= s.end <= s.now
    case LoadAux => Answered(skew, s) && s.start <= s.end
    case Close => true
    case Bump => true
    case Done => true
  }

  /** Sample `m` has the round trip and offset of `best`, and its core number if that was loaded already. */
  predicate Describes(best: Best, m: Sampled, withAux: bool) {
    Roundtrip(m) == best.roundtrip && best.offset == m.target - Midpoint(m.start, m.end)
        && (withAux ==> best.aux == m.aux)
  }

  predicate Sound(skew: int, m: Sampled) {
    m.start <= m.at <= m.end <= HORIZON && m.target == m.at + skew <= HORIZON
  }

  /** Every logged sample was read between its start and its end. */
  ghost predicate AllSound(skew: int, log: seq<Sampled>) {
    forall k :: 0 <= k < |log| ==> Sound(skew, log[k])
  }

  /** `best` has the shortest round trip of the log. */
  ghost predicate Shortest(best: Best, log: seq<Sampled>) {
    forall k :: 0 <= k < |log| ==> best.roundtrip <= Roundtrip(log[k])
  }

  /** Every sample before the k-th took longer. */
  ghost predicate FirstSoShort(best: Best, log: seq<Sampled>, k: nat) {
    forall j :: 0 <= j < k && j < |log| ==> best.roundtrip < Roundtrip(log[j])
  }

  /** `best` is the first of the shortest samples. */
  ghost predicate FirstShortest(best: Best, log: seq<Sampled>) {
    exists k :: 0 <= k < |log| && Describes(best, log[k], true) && FirstSoShort(best, log, k)
  }

  ghost predicate Recorded(s: State) {
    && Shortest(s.best, s.log)
    && if s.rpc.LoadAux? then
         && s.log != [] && Describes(s.best, s.log[|s.log| - 1], false) && s.log[|s.log| - 1].aux == s.aux
         && FirstSoShort(s.best, s.log, |s.log| - 1)
       else if s.log == [] then s.best == Best(U64_MAX, 0, 0)
       else FirstShortest(s.best, s.log)
  }

  /** How far the measurement loop is. */
  predicate Counted(cfg: Config, s: State) {
    match s.rpc
    case AwaitReady => s.i == 0 && s.log == []
    case Close => s.i == Total(cfg) && |s.log| == cfg.samples
    case Bump => s.i == Total(cfg) && |s.log| == cfg.samples
    case Done => s.i == Total(cfg) && |s.log| == cfg.samples
    case LoadAux => cfg.warmup <= s.i < Total(cfg) && |s.log| == s.i - cfg.warmup + 1
    case _ => s.i < Total(cfg) && |s.log| == if s.i <= cfg.warmup then 0 else s.i - cfg.warmup
  }

  ghost predicate Inv(cfg: Config, skew: int, s: State) {
    && InStep(cfg, skew, s) && Counted(cfg, s) && AllSound(skew, s.log) && Recorded(s)
    && Ticking(skew, s.now)
  }

  // ----- every step keeps it -----

  /** With no new request the target stays idle and changes nothing the reference thread looks at. */
  lemma IdleTargetStaysIdle(skew: int, s: State, cpu: nat)
    requires TargetIdle(s) && s.request == s.seen
    ensures var s' := TargetStep(skew, s, cpu);
            TargetIdle(s') && s' == s.(tpc := s'.tpc, ready := s'.ready)
  {
  }

  /** While the reference thread waits, the target serves the request step by step. */
  lemma TargetServes(cfg: Config, skew: int, s: State, cpu: nat)
    requires InStep(cfg, skew, s) && s.rpc.Await? && Ticking(skew, s.now)
    ensures InStep(cfg, skew, TargetStep(skew, s, cpu))
  {
    if s.tpc.Sample? {
      TargetSamples(cfg, skew, s, cpu);
    } else if TargetIdle(s) {
      TargetLooks(cfg, skew, s, cpu);
    }
  }

  lemma TargetSamples(cfg: Config, skew: int, s: State, cpu: nat)
    requires InStep(cfg, skew, s) && s.rpc.Await? && s.tpc.Sample? && Ticking(skew, s.now)
    ensures InStep(cfg, skew, TargetStep(skew, s, cpu))
  {
    ReadsTrue(s.now + skew);
  }

  lemma TargetLooks(cfg: Config, skew: int, s: State, cpu: nat)
    requires InStep(cfg, skew, s) && s.rpc.Await? && TargetIdle(s)
    ensures InStep(cfg, skew, TargetStep(skew, s, cpu))
  {
  }

  lemma IdleKeepsInStep(cfg: Config, skew: int, s: State, s': State)
    requires InStep(cfg, skew, s) && !s.rpc.Await?
    requires TargetIdle(s') && s' == s.(tpc := s'.tpc, ready := s'.ready)
    ensures InStep(cfg, skew, s')
  {
  }

  lemma TargetKeepsInStep(cfg: Config, skew: int, s: State, cpu: nat)
    requires InStep(cfg, skew, s) && Ticking(skew, s.now)
    ensures InStep(cfg, skew, TargetStep(skew, s, cpu))
  {
    if s.rpc.Await? {
      TargetServes(cfg, skew, s, cpu);
    } else if !(s.rpc.Close? || s.rpc.Bump? || s.rpc.Done?) {
      IdleTargetStaysIdle(skew, s, cpu);
      IdleKeepsInStep(cfg, skew, s, TargetStep(skew, s, cpu));
    }
  }

  /** The target touches nothing the reference thread has recorded. */
  lemma TargetKeepsRecord(cfg: Config, skew: int, s: State, cpu: nat)
    requires InStep(cfg, skew, s)
    ensures var s' := TargetStep(skew, s, cpu);
            && s'.rpc == s.rpc && s'.i == s.i && s'.log == s.log && s'.best == s.best && s'.now == s.now
            && (s.rpc.LoadAux? ==> s'.aux == s.aux)
  {
  }

  lemma TargetKeepsInv(cfg: Config, skew: int, s: State, cpu: nat)
    requires Inv(cfg, skew, s)
    ensures Inv(cfg, skew, TargetStep(skew, s, cpu))
  {
    TargetKeepsInStep(cfg, skew, s, cpu);
    TargetKeepsRecord(cfg, skew, s, cpu);
    RecordStays(s, TargetStep(skew, s, cpu));
  }

  lemma RecordStays(s: State, s': State)
    requires Recorded(s) && s'.rpc == s.rpc && s'.log == s.log && s'.best == s.best
    requires s.rpc.LoadAux? ==> s'.aux == s.aux
    ensures Recorded(s')
  {
  }

  lemma TimePasses(cfg: Config, skew: int, s: State, elapsed: nat)
    requires Inv(cfg, skew, s) && Ticking(skew, s.now + elapsed)
    ensures Inv(cfg, skew, s.(now := s.now + elapsed))
  {
  }

  /** It is sound, and the machine words say what they should. */
  lemma CurrentIsSound(cfg: Config, skew: int, s: State)
    requires InStep(cfg, skew, s) && s.rpc.Evaluate? && Ticking(skew, s.now)
    ensures Sound(skew, Current(s)) && Sub64(s.end, s.start) == Roundtrip(Current(s)) <= HORIZON
    ensures Offset(s.start, s.end, s.targetTsc) == s.targetTsc - Midpoint(s.start, s.end)
  {
    MachineArithmeticIsExact(s.start, s.end, s.targetTsc);
  }

  lemma LogStaysSound(skew: int, log: seq<Sampled>, m: Sampled)
    requires AllSound(skew, log) && Sound(skew, m)
    ensures AllSound(skew, log + [m])
  {
  }

  /** Logging a sample that is no shorter than the best one keeps the record. */
  lemma LongerSampleIsRecorded(best: Best, log: seq<Sampled>, m: Sampled)
    requires Shortest(best, log) && FirstShortest(best, log) && best.roundtrip <= Roundtrip(m)
    ensures Shortest(best, log + [m]) && FirstShortest(best, log + [m])
  {
    var k :| 0 <= k < |log| && Describes(best, log[k], true) && FirstSoShort(best, log, k);
    assert Describes(best, (log + [m])[k], true) && FirstSoShort(best, log + [m], k);
  }

  lemma EvaluateKeepsRecord(cfg: Config, skew: int, s: State)
    requires Inv(cfg, skew, s) && s.rpc.Evaluate?
    ensures AllSound(skew, RefStep(cfg, s).log) && Recorded(RefStep(cfg, s))
  {
    if s.i >= cfg.warmup {
      var m := Current(s);
      CurrentIsSound(cfg, skew, s);
      LogStaysSound(skew, s.log, m);
      if Roundtrip(m) >= s.best.roundtrip {
        LongerSampleIsRecorded(s.best, s.log, m);
      }
    }
  }

  lemma EvaluateKeepsInStep(cfg: Config, skew: int, s: State)
    requires InStep(cfg, skew, s) && Counted(cfg, s) && s.rpc.Evaluate? && Ticking(skew, s.now)
    ensures var s' := RefStep(cfg, s); InStep(cfg, skew, s') && Counted(cfg, s') && s'.now == s.now
  {
  }

  /** The handshake steps of the reference thread. */
  lemma HandshakeKeepsInStep(cfg: Config, skew: int, s: State)
    requires InStep(cfg, skew, s) && Counted(cfg, s) && cfg.samples > 0 && Ticking(skew, s.now)
    requires !s.rpc.Evaluate? && !s.rpc.LoadAux?
    ensures var s' := RefStep(cfg, s);
            && InStep(cfg, skew, s') && Counted(cfg, s')
            && s'.log == s.log && s'.best == s.best && s'.now == s.now && !s'.rpc.LoadAux?
  {
    ReadsTrue(s.now);
  }

  lemma LoadAuxKeepsInv(cfg: Config, skew: int, s: State)
    requires Inv(cfg, skew, s) && s.rpc.LoadAux?
    ensures Inv(cfg, skew, RefStep(cfg, s))
  {
    var s' := RefStep(cfg, s);
    assert Describes(s'.best, s.log[|s.log| - 1], true) && FirstSoShort(s'.best, s.log, |s.log| - 1);
  }

  lemma RefKeepsInv(cfg: Config, skew: int, s: State)
    requires Inv(cfg, skew, s) && cfg.samples > 0
    ensures Inv(cfg, skew, RefStep(cfg, s))
  {
    if s.rpc.Evaluate? {
      EvaluateKeepsRecord(cfg, skew, s);
      EvaluateKeepsInStep(cfg, skew, s);
    } else if s.rpc.LoadAux? {
      LoadAuxKeepsInv(cfg, skew, s);
    } else {
      HandshakeKeepsInStep(cfg, skew, s);
    }
  }

  lemma StepKeepsInv(cfg: Config, skew: int, s: State, m: Move)
    requires Inv(cfg, skew, s) && cfg.samples > 0 && Ticking(skew, Step(cfg, skew, s, m).now)
    ensures Inv(cfg, skew, Step(cfg, skew, s, m))
  {
    match m
    case Wait(elapsed) => TimePasses(cfg, skew, s, elapsed);
    case Target(cpu) => TargetKeepsInv(cfg, skew, s, cpu);
    case Reference => RefKeepsInv(cfg, skew, s);
  }

  lemma StepAdvances(cfg: Config, skew: int, s: State, m: Move)
    ensures Step(cfg, skew, s, m).now == s.now + (if m.Wait? then m.elapsed else 0)
  {
  }

  lemma {:induction false} RunAdvances(cfg: Config, skew: int, s: State, ms: seq<Move>)
    ensures Run(cfg, skew, s, ms).now >= s.now
    ensures (forall k :: 0 <= k < |ms| ==> !ms[k].Wait?) ==> Run(cfg, skew, s, ms).now == s.now
  {
    if ms != [] {
      RunAdvances(cfg, skew, s, ms[..|ms| - 1]);
      StepAdvances(cfg, skew, Run(cfg, skew, s, ms[..|ms| - 1]), ms[|ms| - 1]);
    }
  }

  lemma {:induction false} RunKeepsInv(cfg: Config, skew: int, s: State, ms: seq<Move>)
    requires cfg.samples > 0 && Inv(cfg, skew, s) && Ticking(skew, Run(cfg, skew, s, ms).now)
    ensures Inv(cfg, skew, Run(cfg, skew, s, ms))
  {
    if ms != [] {
      var s', m := Run(cfg, skew, s, ms[..|ms| - 1]), ms[|ms| - 1];
      StepAdvances(cfg, skew, s', m);
      RunAdvances(cfg, skew, s, ms[..|ms| - 1]);
      RunKeepsInv(cfg, skew, s, ms[..|ms| - 1]);
      StepKeepsInv(cfg, skew, s', m);
    }
  }

  /** The check starts, and both counters run from the first step to the last without wrapping around. */
  ghost predicate Measured(cfg: Config, skew: int, s0: State, ms: seq<Move>) {
    cfg.samples > 0 && Initial(s0) && Ticking(skew, s0.now) && Ticking(skew, Run(cfg, skew, s0, ms).now)
  }

  /** Every interleaving of the two threads, with any passage of time, keeps the protocol invariant. */
  lemma EveryInterleaving(cfg: Config, skew: int, s0: State, ms: seq<Move>)
    requires Measured(cfg, skew, s0, ms)
    ensures Inv(cfg, skew, Run(cfg, skew, s0, ms))
  {
    RunKeepsInv(cfg, skew, s0, ms);
  }

  /** The handshake: in every interleaving, when the reference thread has seen the acknowledgement of request `i + 1`,
      this is the request the target served last, and the published timestamp and core number are those the target
      took for it, after `start` and before now. */
  lemma AcknowledgedSampleIsFresh(cfg: Config, skew: int, s0: State, ms: seq<Move>)
    requires Measured(cfg, skew, s0, ms)
    ensures var s := Run(cfg, skew, s0, ms);
            s.rpc.Finish? || s.rpc.Evaluate? ==>
              && s.ack == s.seen == s.request == s.i + 1
              && s.targetTsc == s.at + skew && s.start <= s.at <= s.now && s.targetAux == s.aux
              && (s.rpc.Evaluate? ==> s.at <= s.end)
  {
    EveryInterleaving(cfg, skew, s0, ms);
  }

  // ----- what the estimate means -----

  /** The three readings of a sample are explained by this skew and a target read at time `at`. */
  predicate Explains(start: int, end: int, target: int, at: int, skew: int) {
    start <= at <= end && target == at + skew
  }

  /** One sample bounds the skew: exactly the skews in [low, high - roundtrip % 2] are consistent with its three
      readings.  The lower end is exact; the upper one is exact up to the rounding of an odd round trip. */
  lemma ConsistentSkewsIff(start: nat, end: nat, target: int, skew: int)
    requires start <= end
    ensures var offset, u := target - Midpoint(start, end), Uncertainty(end - start);
            (exists at: int :: Explains(start, end, target, at, skew)) <==>
            offset - u <= skew <= offset + u - (end - start) % 2
  {
    if target - end <= skew <= target - start {
      assert Explains(start, end, target, target - skew, skew);
    }
  }

  lemma SoundSampleBounds(best: Best, m: Sampled, skew: int)
    requires Sound(skew, m) && Describes(best, m, true)
    ensures best.roundtrip <= HORIZON && -HORIZON <= best.offset <= HORIZON
    ensures best.offset - Uncertainty(best.roundtrip) <= skew <= best.offset + Uncertainty(best.roundtrip)
  {
  }

  /** A synchronised core always passes, and a core that passes is off by at most the threshold plus twice the
      uncertainty. */
  lemma VerdictIsSound(cfg: Config, best: Best, skew: int)
    requires best.roundtrip <= HORIZON && -HORIZON <= best.offset <= HORIZON
    requires best.offset - Uncertainty(best.roundtrip) <= skew <= best.offset + Uncertainty(best.roundtrip)
    ensures var st := Summarise(cfg, best);
            && st.low <= skew <= st.high
            && (Abs(skew) <= cfg.threshold ==> st.pass)
            && (st.pass ==> Abs(skew) <= cfg.threshold + 2 * st.uncertainty)
  {
    SummaryIsExact(cfg, best);
  }

  /** The check as a whole: in every interleaving that reaches the end, exactly the configured number of samples was
      evaluated, the reported one is sound and the first of shortest round trip, with the core number read along with
      it, the true skew lies in the reported interval, and the verdict is sound. */
  lemma MeasurementIsSound(cfg: Config, skew: int, s0: State, ms: seq<Move>)
    requires Measured(cfg, skew, s0, ms) && Run(cfg, skew, s0, ms).rpc.Done?
    ensures var s := Run(cfg, skew, s0, ms);
            var st := Summarise(cfg, s.best);
            && |s.log| == cfg.samples && AllSound(skew, s.log) && Shortest(s.best, s.log)
                && FirstShortest(s.best, s.log)
            && st.low <= skew <= st.high
            && (Abs(skew) <= cfg.threshold ==> st.pass)
            && (st.pass ==> Abs(skew) <= cfg.threshold + 2 * st.uncertainty)
  {
    EveryInterleaving(cfg, skew, s0, ms);
    var s := Run(cfg, skew, s0, ms);
    var k :| 0 <= k < |s.log| && Describes(s.best, s.log[k], true);
    SoundSampleBounds(s.best, s.log[k], skew);
    VerdictIsSound(cfg, s.best, skew);
  }

  // ----- the check finishes -----

  /** Neither thread gives up early: the target leaves its loop only after `stop`, which is set only at the end, and
      the reference thread starts only after the target is in its loop. */
  predicate Alive(s: State) {
    && (s.tpc.Launch? <==> !s.ready)
    && (!s.rpc.AwaitReady? ==> s.ready)
    && (if s.rpc.Bump? || s.rpc.Done? then s.stop else !s.stop && !s.tpc.Exit?)
  }

  lemma StepKeepsAlive(cfg: Config, skew: int, s: State, m: Move)
    requires Alive(s)
    ensures Alive(Step(cfg, skew, s, m))
  {
  }

  lemma {:induction false} RunKeepsAlive(cfg: Config, skew: int, s: State, ms: seq<Move>)
    requires Alive(s)
    ensures Alive(Run(cfg, skew, s, ms))
  {
    if ms != [] {
      RunKeepsAlive(cfg, skew, s, ms[..|ms| - 1]);
      StepKeepsAlive(cfg, skew, Run(cfg, skew, s, ms[..|ms| - 1]), ms[|ms| - 1]);
    }
  }

  /** Both threads are through: the samples are evaluated and `join` returns. */
  predicate Finished(s: State) {
    s.rpc.Done? && s.tpc.Exit?
  }

  /** How many steps the target is away from answering. */
  function ToAnswer(s: State): nat {
    match s.tpc
    case Launch => 7
    case Poll => if s.ack == s.request then 0 else 6
    case Fetch => if s.ack == s.request then 0 else 5
    case Sample => 4
    case StoreTsc => 3
    case StoreAux => 2
    case StoreAck => 1
    case Exit => 0
  }

  /** How many steps, at most, it is away from its exit once `stop` is set. */
  function ToExit(s: State): nat {
    match s.tpc
    case Launch => 7
    case Fetch => 6
    case Sample => 5
    case StoreTsc => 4
    case StoreAux => 3
    case StoreAck => 2
    case Poll => 1
    case Exit => 0
  }

  /** A bound on the steps left. */
  function Rank(cfg: Config, s: State): int {
    match s.rpc
    case AwaitReady => 20 * Total(cfg) + (if s.ready then 21 else 22)
    case Begin => 20 * (Total(cfg) - s.i) + 19
    case Request => 20 * (Total(cfg) - s.i) + 18
    case Await => 20 * (Total(cfg) - s.i) + 10 + ToAnswer(s)
    case Finish => 20 * (Total(cfg) - s.i) + 9
    case Evaluate => 20 * (Total(cfg) - s.i) + 8
    case LoadAux => 20 * (Total(cfg) - s.i) + 7
    case Close => 9
    case Bump => 8
    case Done => ToExit(s)
  }

  /** Whose turn it is: the target's while the reference thread waits for it. */
  predicate TargetsTurn(s: State) {
    (s.rpc.AwaitReady? && !s.ready) || (s.rpc.Await? && s.ack != s.i + 1) || s.rpc.Done?
  }

  predicate TakesTurn(s: State, m: Move) {
    if TargetsTurn(s) then m.Target? else m.Reference?
  }

  /** The rank is 0 only at the end. */
  lemma RankZero(cfg: Config, skew: int, s: State)
    requires Inv(cfg, skew, s)
    ensures Rank(cfg, s) >= 0 && (Rank(cfg, s) == 0 <==> Finished(s))
  {
  }

  lemma TargetTurnHelps(cfg: Config, skew: int, s: State, cpu: nat)
    requires Inv(cfg, skew, s) && Alive(s) && TargetsTurn(s) && !Finished(s)
    ensures Rank(cfg, TargetStep(skew, s, cpu)) < Rank(cfg, s)
  {
  }

  lemma ReferenceTurnHelps(cfg: Config, skew: int, s: State)
    requires Inv(cfg, skew, s) && Alive(s) && !TargetsTurn(s)
    ensures Rank(cfg, RefStep(cfg, s)) < Rank(cfg, s)
  {
  }

  /** The thread whose turn it is makes progress. */
  lemma TurnHelps(cfg: Config, skew: int, s: State, m: Move)
    requires Inv(cfg, skew, s) && Alive(s) && TakesTurn(s, m) && !Finished(s)
    ensures Rank(cfg, Step(cfg, skew, s, m)) < Rank(cfg, s)
  {
    if TargetsTurn(s) {
      TargetTurnHelps(cfg, skew, s, m.cpu);
    } else {
      ReferenceTurnHelps(cfg, skew, s);
    }
  }

  /** Nothing else does harm: it leaves the rank and the turn as they are. */
  lemma OthersSpin(cfg: Config, skew: int, s: State, m: Move)
    requires Inv(cfg, skew, s) && Alive(s) && (!TakesTurn(s, m) || Finished(s))
    ensures var s' := Step(cfg, skew, s, m); Rank(cfg, s') == Rank(cfg, s) && TargetsTurn(s') == TargetsTurn(s)
  {
  }

  ghost predicate Moved(ms: seq<Move>, target: bool) {
    exists k :: 0 <= k < |ms| && if target then ms[k].Target? else ms[k].Reference?
  }

  /** Both threads take a step. */
  ghost predicate Fair(ms: seq<Move>) {
    Moved(ms, true) && Moved(ms, false)
  }

  /** A run of moves lowers the rank or leaves it and the turn as they are; the latter only if the thread whose turn it
      is does not move. */
  lemma {:induction false} RunHelps(cfg: Config, skew: int, s: State, ms: seq<Move>)
    requires cfg.samples > 0 && Inv(cfg, skew, s) && Alive(s) && Ticking(skew, Run(cfg, skew, s, ms).now)
    ensures var s' := Run(cfg, skew, s, ms);
            || Rank(cfg, s') < Rank(cfg, s)
            || (Rank(cfg, s') == Rank(cfg, s) && TargetsTurn(s') == TargetsTurn(s)
                && (Moved(ms, TargetsTurn(s)) ==> Rank(cfg, s) == 0))
  {
    if ms != [] {
      var ms', m := ms[..|ms| - 1], ms[|ms| - 1];
      var s1 := Run(cfg, skew, s, ms');
      StepAdvances(cfg, skew, s1, m);
      RunAdvances(cfg, skew, s, ms');
      RunHelps(cfg, skew, s, ms');
      RunKeepsInv(cfg, skew, s, ms');
      RunKeepsAlive(cfg, skew, s, ms');
      RankZero(cfg, skew, s1);
      if TakesTurn(s1, m) && !Finished(s1) {
        TurnHelps(cfg, skew, s1, m);
      } else {
        OthersSpin(cfg, skew, s1, m);
        LastMoved(ms, TargetsTurn(s));
      }
    }
  }

  lemma LastMoved(ms: seq<Move>, target: bool)
    requires ms != []
    ensures Moved(ms, target) ==>
              Moved(ms[..|ms| - 1], target) || if target then ms[|ms| - 1].Target? else ms[|ms| - 1].Reference?
  {
    if k :| 0 <= k < |ms| - 1 && if target then ms[k].Target? else ms[k].Reference? {
      assert ms[..|ms| - 1][k] == ms[k];
    }
  }

  // ----- schedules -----

  function Concat(rounds: seq<seq<Move>>): seq<Move> {
    if rounds == [] then [] else Concat(rounds[..|rounds| - 1]) + rounds[|rounds| - 1]
  }

  lemma {:induction false} RunAppend(cfg: Config, skew: int, s: State, ms: seq<Move>, ms': seq<Move>)
    ensures Run(cfg, skew, s, ms + ms') == Run(cfg, skew, Run(cfg, skew, s, ms), ms')
  {
    if ms' == [] {
      assert ms + ms' == ms;
    } else {
      assert (ms + ms')[..|ms + ms'| - 1] == ms + ms'[..|ms'| - 1];
      RunAppend(cfg, skew, s, ms, ms'[..|ms'| - 1]);
    }
  }

  /** Each round in which both threads move lowers the rank, down to 0. */
  lemma {:induction false} RoundsHelp(cfg: Config, skew: int, s: State, rounds: seq<seq<Move>>)
    requires cfg.samples > 0 && Inv(cfg, skew, s) && Alive(s) && Ticking(skew, Run(cfg, skew, s, Concat(rounds)).now)
    requires forall k :: 0 <= k < |rounds| ==> Fair(rounds[k])
    ensures var r := Rank(cfg, Run(cfg, skew, s, Concat(rounds))); r == 0 || r + |rounds| <= Rank(cfg, s)
  {
    if rounds != [] {
      var front, last := rounds[..|rounds| - 1], rounds[|rounds| - 1];
      var s1 := Run(cfg, skew, s, Concat(front));
      RunAppend(cfg, skew, s, Concat(front), last);
      RunAdvances(cfg, skew, s, Concat(front));
      RunAdvances(cfg, skew, s1, last);
      RoundsHelp(cfg, skew, s, front);
      RunKeepsInv(cfg, skew, s, Concat(front));
      RunKeepsAlive(cfg, skew, s, Concat(front));
      RunHelps(cfg, skew, s1, last);
      RunKeepsInv(cfg, skew, s1, last);
      RankZero(cfg, skew, s1);
      RankZero(cfg, skew, Run(cfg, skew, s1, last));
    }
  }

  /** The check finishes under every schedule in which both threads keep moving: after 20 rounds per sample and 22 more,
      in each of which each thread takes at least one step, the reference thread is done and the target has exited. */
  lemma EveryFairScheduleFinishes(cfg: Config, skew: int, s0: State, rounds: seq<seq<Move>>)
    requires Measured(cfg, skew, s0, Concat(rounds))
    requires forall k :: 0 <= k < |rounds| ==> Fair(rounds[k])
    requires |rounds| >= 20 * Total(cfg) + 22
    ensures Finished(Run(cfg, skew, s0, Concat(rounds)))
  {
    RoundsHelp(cfg, skew, s0, rounds);
    RunKeepsInv(cfg, skew, s0, Concat(rounds));
    RankZero(cfg, skew, Run(cfg, skew, s0, Concat(rounds)));
  }

  /** Rounds of one step each. */
  function Alternate(n: nat): (rounds: seq<seq<Move>>)
    ensures |rounds| == n && forall k :: 0 <= k < n ==> rounds[k] == [Target(0), Reference]
  {
    if n == 0 then [] else Alternate(n - 1) + [[Target(0), Reference]]
  }

  lemma {:induction false} AlternateIsFair(n: nat)
    ensures forall k :: 0 <= k < n ==> Fair(Alternate(n)[k])
    ensures forall k :: 0 <= k < |Concat(Alternate(n))| ==> !Concat(Alternate(n))[k].Wait?
  {
    var round := [Target(0), Reference];
    assert round[0].Target? && round[1].Reference?;
    assert Fair(round);
    if n > 0 {
      AlternateIsFair(n - 1);
      assert Alternate(n)[..n - 1] == Alternate(n - 1);
    }
  }

  /** No deadlock: whatever the interleaving so far, both threads can go on to their ends without any time passing. */
  lemma DeadlockFree(cfg: Config, skew: int, s0: State, ms: seq<Move>)
    requires Measured(cfg, skew, s0, ms)
    ensures exists more: seq<Move> :: Finished(Run(cfg, skew, Run(cfg, skew, s0, ms), more))
  {
    var s := Run(cfg, skew, s0, ms);
    EveryInterleaving(cfg, skew, s0, ms);
    RunKeepsAlive(cfg, skew, s0, ms);
    RankZero(cfg, skew, s);
    var rounds := Alternate(Rank(cfg, s) + 1);
    AlternateIsFair(Rank(cfg, s) + 1);
    RunAdvances(cfg, skew, s, Concat(rounds));
    RoundsHelp(cfg, skew, s, rounds);
    RunKeepsInv(cfg, skew, s, Concat(rounds));
    RankZero(cfg, skew, Run(cfg, skew, s, Concat(rounds)));
  }
}
