/** Reassembly of execution reports from the TCP stream: a 4096-byte buffer is filled by non-blocking reads and
    40-byte reports are taken off its front.  The socket is an arbitrary script of read results. */
module Gateway {
  import opened Wrappers

  type byte = x: nat | x < 256

  const BUF_SIZE: nat := 4096
  const REPORT_SIZE: nat := 40

  /** What a read may meet: bytes that have arrived (a read takes at most what fits), an interrupted call,
      nothing available, an orderly shutdown, or an error. */
  datatype Recv = Data(bytes: seq<byte>) | Interrupted | WouldBlock | Closed | Failed

  // ----- specification -----

  datatype Drained = Drained(buf: seq<byte>, net: seq<Recv>, up: bool)

  /** Reads until the buffer is full, nothing is available or the connection is gone. */
  function Drain(buf: seq<byte>, net: seq<Recv>): Drained
    decreases |net|
  {
    if |buf| >= BUF_SIZE || net == [] then Drained(buf, net, true) else
    match net[0]
    case Data(bytes) =>
      if bytes == [] then Drained([], net[1..], false)
      else if |buf| + |bytes| <= BUF_SIZE then Drain(buf + bytes, net[1..])
      else Drained(buf + bytes[..BUF_SIZE - |buf|], [Data(bytes[BUF_SIZE - |buf|..])] + net[1..], true)
    case Interrupted => Drain(buf, net[1..])
    case WouldBlock => Drained(buf, net[1..], true)
    case Closed => Drained([], net[1..], false)
    case Failed => Drained([], net[1..], false)
  }

  /** The gateway as a value: buffered bytes, whether it is connected, and the reads still to come. */
  datatype Link = Link(buf: seq<byte>, up: bool, net: seq<Recv>)

  function Polled(l: Link): (r: (Option<seq<byte>>, Link))
    ensures r.0.Some? ==> |r.0.value| == REPORT_SIZE
  {
    if !l.up then (None, l) else
    var d := Drain(l.buf, l.net);
    if !d.up || |d.buf| < REPORT_SIZE then (None, Link(d.buf, d.up, d.net))
    else (Some(d.buf[..REPORT_SIZE]), Link(d.buf[REPORT_SIZE..], true, d.net))
  }

  // ----- the gateway -----

  class OrderGateway {
    var connected: bool
    const readBuf: array<byte>
    var readLen: nat

    ghost predicate Valid()
      reads this
    {
      readBuf.Length == BUF_SIZE && readLen <= BUF_SIZE && (!connected ==> readLen == 0)
    }

    ghost function Buffered(): seq<byte>
      requires Valid()
      reads this, readBuf
    {
      readBuf[..readLen]
    }

    constructor ()
      ensures Valid() && connected && Buffered() == [] && fresh(readBuf)
    {
      connected := true;
      readBuf := new byte[BUF_SIZE](i => 0);
      readLen := 0;
    }

    method Close()
      requires Valid()
      modifies this
      ensures Valid() && !connected && Buffered() == []
    {
      connected := false;
      readLen := 0;
    }

    /** One successful read: up to the free space is copied behind what is buffered; `rest` is what did not fit. */
    method Receive(bytes: seq<byte>) returns (rest: seq<byte>)
      requires Valid() && connected && readLen < BUF_SIZE
      modifies this`readLen, readBuf
      ensures Valid()
      ensures var room := BUF_SIZE - old(readLen);
              var n := if |bytes| <= room then |bytes| else room;
              Buffered() == old(Buffered()) + bytes[..n] && rest == bytes[n..]
    {
      var room := BUF_SIZE - readLen;
      var n := if |bytes| <= room then |bytes| else room;
      forall k | 0 <= k < n {
        readBuf[readLen + k] := bytes[k];
      }
      readLen := readLen + n;
      rest := bytes[n..];
      assert readBuf[..readLen] == old(readBuf[..readLen]) + bytes[..n];
    }

    /** The read loop. */
    method Fill(net: seq<Recv>) returns (rest: seq<Recv>)
      requires Valid() && connected
      modifies this, readBuf
      ensures Valid() && Drained(Buffered(), rest, connected) == Drain(old(Buffered()), net)
    {
      rest := net;
      while readLen < BUF_SIZE && rest != []
        invariant Valid() && connected
        invariant Drain(Buffered(), rest) == Drain(old(Buffered()), net)
        decreases |rest| + if readLen < BUF_SIZE then 1 else 0
      {
        var next := rest[0];
        match next {
          case Data(bytes) =>
            if bytes == [] {
              Close();
              rest := rest[1..];
              return;
            }
            assert bytes[..|bytes|] == bytes;
            var more := Receive(bytes);
            rest := if more == [] then rest[1..] else [Data(more)] + rest[1..];
          case Interrupted =>
            rest := rest[1..];
          case WouldBlock =>
            rest := rest[1..];
            return;
          case Closed =>
            Close();
            rest := rest[1..];
            return;
          case Failed =>
            Close();
            rest := rest[1..];
            return;
        }
      }
    }

    /** Decodes the first report of the buffer and shifts the rest forward. */
    method TakeReport() returns (report: Report)
      requires Valid() && connected && readLen >= REPORT_SIZE
      modifies this`readLen, readBuf
      ensures Valid()
      ensures report == Decode(old(Buffered())[..REPORT_SIZE]) && Buffered() == old(Buffered())[REPORT_SIZE..]
    {
      assert readBuf[..REPORT_SIZE] == Buffered()[..REPORT_SIZE];
      report := Decode(readBuf[..REPORT_SIZE]);
      readLen := readLen - REPORT_SIZE;
      forall k | 0 <= k < readLen {
        readBuf[k] := readBuf[REPORT_SIZE + k];
      }
    }

    /** One poll: drains the socket and hands out the first complete report, decoded, if there is one. */
    method PollExecution(net: seq<Recv>) returns (report: Option<Report>, rest: seq<Recv>)
      requires Valid()
      modifies this, readBuf
      ensures Valid()
      ensures var (frame, link) := Polled(Link(old(Buffered()), old(connected), net));
              && Link(Buffered(), connected, rest) == link
              && report == if frame.Some? then Some(Decode(frame.value)) else None
    {
      report, rest := None, net;
      if !connected {
        return;
      }
      rest := Fill(net);
      if !connected || readLen < REPORT_SIZE {
        return;
      }
      var first := TakeReport();
      report := Some(first);
    }

    /** The inner loop of the pipeline: polls until nothing is handed out, `n` times in all. */
    method PollAll(net: seq<Recv>) returns (reports: seq<Report>, rest: seq<Recv>, ghost n: nat)
      requires Valid()
      modifies this, readBuf
      ensures Valid() && n == |reports| + 1
      ensures var (frames, link) := Polls(Link(old(Buffered()), old(connected), net), n);
              Link(Buffered(), connected, rest) == link && reports == Decoded(frames)
    {
      ghost var start := Link(Buffered(), connected, net);
      var report;
      reports, n := [], 1;
      report, rest := PollExecution(net);
      PollsOne(start);
      while report.Some?
        invariant Valid() && n == |reports| + 1
        invariant Link(Buffered(), connected, rest) == Polls(start, n).1
        invariant (if report.Some? then reports + [report.value] else reports) == Decoded(Polls(start, n).0)
        decreases if report.Some? then 1 + |Buffered()| + |Stream(rest)| else 0
      {
        ghost var before := Link(Buffered(), connected, rest);
        reports := reports + [report.value];
        report, rest := PollExecution(rest);
        n := n + 1;
        if report.Some? {
          PolledConserves(before);
        }
      }
    }

    /** The pipeline loop as far as the gateway is concerned: in each turn it polls until nothing is handed out.  All
        the polls together, `n` of them, are those of one connection. */
    method PollTurns(net: seq<Recv>, turns: nat) returns (reports: seq<Report>, rest: seq<Recv>, ghost n: nat)
      requires Valid()
      modifies this, readBuf
      ensures Valid() && n >= turns
      ensures var (frames, link) := Polls(Link(old(Buffered()), old(connected), net), n);
              Link(Buffered(), connected, rest) == link && reports == Decoded(frames)
    {
      ghost var start := Link(Buffered(), connected, net);
      reports, rest, n := [], net, 0;
      for i := 0 to turns
        invariant Valid() && n >= i
        invariant Link(Buffered(), connected, rest) == Polls(start, n).1 && reports == Decoded(Polls(start, n).0)
      {
        var more;
        ghost var k;
        more, rest, k := PollAll(rest);
        PollsAppend(start, n, k);
        reports, n := reports + more, n + k;
      }
    }
  }

  // ----- one drain -----

  /** Interrupted calls are simply repeated: leaving them out of the script changes nothing. */
  function Uninterrupted(net: seq<Recv>): seq<Recv> {
    if net == [] then []
    else if net[0].Interrupted? then Uninterrupted(net[1..])
    else [net[0]] + Uninterrupted(net[1..])
  }

  lemma {:induction false} InterruptionsAreInvisible(buf: seq<byte>, net: seq<Recv>)
    ensures var d := Drain(buf, net);
            Drain(buf, Uninterrupted(net)) == Drained(d.buf, Uninterrupted(d.net), d.up)
    decreases |net|
  {
    if |buf| < BUF_SIZE && net != [] {
      var rest := Uninterrupted(net[1..]);
      if !net[0].Interrupted? {
        assert Uninterrupted(net)[1..] == rest;
      }
      match net[0]
      case Data(bytes) =>
        if bytes != [] && |buf| + |bytes| <= BUF_SIZE {
          InterruptionsAreInvisible(buf + bytes, net[1..]);
        } else if bytes != [] {
          var more := [Data(bytes[BUF_SIZE - |buf|..])];
          assert (more + net[1..])[1..] == net[1..];
          assert Uninterrupted(more + net[1..]) == more + rest;
        }
      case Interrupted => InterruptionsAreInvisible(buf, net[1..]);
      case WouldBlock =>
      case Closed =>
      case Failed =>
    }
  }

  /** A read that goes on: bytes, or an interrupted call. */
  predicate Flows(x: Recv) {
    x.Interrupted? || (x.Data? && x.bytes != [])
  }

  /** A drain takes everything there is up to the first pause, in one poll, if there is room for it. */
  lemma {:induction false} DrainTakesAll(buf: seq<byte>, net: seq<Recv>, later: seq<Recv>)
    requires forall k :: 0 <= k < |net| ==> Flows(net[k])
    requires |buf| + |Stream(net)| < BUF_SIZE
    ensures Drain(buf, net + [WouldBlock] + later) == Drained(buf + Stream(net), later, true)
    decreases |net|
  {
    var all := net + [WouldBlock] + later;
    if net == [] {
      assert all[1..] == later;
      assert buf + [] == buf;
    } else {
      assert all[0] == net[0] && all[1..] == net[1..] + [WouldBlock] + later;
      if net[0].Data? {
        DrainTakesAll(buf + net[0].bytes, net[1..], later);
        assert buf + net[0].bytes + Stream(net[1..]) == buf + (net[0].bytes + Stream(net[1..]));
      } else {
        DrainTakesAll(buf, net[1..], later);
      }
    }
  }

  /** What ends a connection: a shutdown, an error, or a read of nothing. */
  predicate Ends(x: Recv) {
    x.Closed? || x.Failed? || (x.Data? && x.bytes == [])
  }

  /** The k-th read ends the connection and is reached, with room in the buffer. */
  predicate EndsAt(buf: seq<byte>, net: seq<Recv>, k: nat) {
    && k < |net| && Ends(net[k]) && (forall j :: 0 <= j < k ==> Flows(net[j]))
    && |buf| + |Stream(net[..k])| < BUF_SIZE
  }

  lemma EndsLater(buf: seq<byte>, net: seq<Recv>, k: nat)
    requires net != [] && Flows(net[0])
    ensures var buf' := if net[0].Data? then buf + net[0].bytes else buf;
            EndsAt(buf, net, k + 1) <==> EndsAt(buf', net[1..], k)
  {
    if k + 1 <= |net| {
      assert net[..k + 1][1..] == net[1..][..k];
      assert forall j :: 0 <= j < k ==> net[1..][j] == net[j + 1];
      assert forall j :: 0 < j < k + 1 ==> net[j] == net[1..][j - 1];
    }
  }

  /** The gateway goes down in a drain if and only if a read that ends the connection is reached before a pause and
      before the buffer is full. */
  lemma {:induction false} GoesDownIff(buf: seq<byte>, net: seq<Recv>)
    ensures !Drain(buf, net).up <==> exists k: nat :: EndsAt(buf, net, k)
    decreases |net|
  {
    if |buf| < BUF_SIZE && net != [] {
      if Ends(net[0]) {
        assert net[..0] == [];
        assert EndsAt(buf, net, 0);
      } else if Flows(net[0]) {
        FlowsOn(buf, net);
      }
    }
  }

  lemma {:induction false} FlowsOn(buf: seq<byte>, net: seq<Recv>)
    requires |buf| < BUF_SIZE && net != [] && Flows(net[0])
    ensures !Drain(buf, net).up <==> exists k: nat :: EndsAt(buf, net, k)
    decreases |net|, 0
  {
    var buf' := if net[0].Data? then buf + net[0].bytes else buf;
    if |buf'| <= BUF_SIZE {
      GoesDownIff(buf', net[1..]);
    }
    if k: nat :| EndsAt(buf, net, k) {
      EndsLater(buf, net, k - 1);
    }
    if k: nat :| EndsAt(buf', net[1..], k) {
      EndsLater(buf, net, k);
    }
  }

  /** Once down, the gateway has dropped what was buffered, and hands out nothing any more. */
  lemma {:induction false} DownForGood(net: seq<Recv>, n: nat, more: nat)
    requires !Polls(Link([], true, net), n).1.up
    ensures var l := Polls(Link([], true, net), n).1;
            l.buf == [] && Polls(l, more) == ([], l)
  {
    if more > 0 {
      DownForGood(net, n, more - 1);
    } else if n > 0 && !Polls(Link([], true, net), n - 1).1.up {
      DownForGood(net, n - 1, 0);
    } else {
      DownIsEmpty(Polls(Link([], true, net), n - 1).1);
    }
  }

  lemma DownIsEmpty(l: Link)
    requires l.up && !Polled(l).1.up
    ensures Polled(l).0 == None && Polled(l).1.buf == []
  {
    DrainDownIsEmpty(l.buf, l.net);
  }

  lemma {:induction false} DrainDownIsEmpty(buf: seq<byte>, net: seq<Recv>)
    requires !Drain(buf, net).up
    ensures Drain(buf, net).buf == []
    decreases |net|
  {
    match net[0]
    case Data(bytes) =>
      if bytes != [] && |buf| + |bytes| <= BUF_SIZE {
        DrainDownIsEmpty(buf + bytes, net[1..]);
      }
    case Interrupted => DrainDownIsEmpty(buf, net[1..]);
    case WouldBlock =>
    case Closed =>
    case Failed =>
  }

  // ----- the stream -----

  /** The bytes the peer sends before the connection ends. */
  function Stream(net: seq<Recv>): seq<byte> {
    if net == [] then [] else
    match net[0]
    case Data(bytes) => if bytes == [] then [] else bytes + Stream(net[1..])
    case Interrupted => Stream(net[1..])
    case WouldBlock => Stream(net[1..])
    case Closed => []
    case Failed => []
  }

  /** Reading moves bytes from the stream to the buffer and loses none, as long as the connection is up. */
  lemma {:induction false} DrainConserves(buf: seq<byte>, net: seq<Recv>)
    requires Drain(buf, net).up
    ensures var d := Drain(buf, net); d.buf + Stream(d.net) == buf + Stream(net)
    decreases |net|
  {
    if !(|buf| >= BUF_SIZE || net == []) {
      match net[0]
      case Data(bytes) =>
        if |buf| + |bytes| <= BUF_SIZE {
          DrainConserves(buf + bytes, net[1..]);
          assert buf + (bytes + Stream(net[1..])) == buf + bytes + Stream(net[1..]);
        } else {
          var n := BUF_SIZE - |buf|;
          assert ([Data(bytes[n..])] + net[1..])[1..] == net[1..];
          assert buf + bytes[..n] + (bytes[n..] + Stream(net[1..])) == buf + (bytes + Stream(net[1..]));
        }
      case Interrupted => DrainConserves(buf, net[1..]);
      case WouldBlock =>
    }
  }

  /** Reports of `n` polls, and the gateway after them. */
  function Polls(l: Link, n: nat): (r: (seq<seq<byte>>, Link))
    ensures forall i :: 0 <= i < |r.0| ==> |r.0[i]| == REPORT_SIZE
  {
    if n == 0 then ([], l) else
    var (reports, l1) := Polls(l, n - 1);
    var (report, l2) := Polled(l1);
    (if report.Some? then reports + [report.value] else reports, l2)
  }

  lemma PollsOne(l: Link)
    ensures var (report, l') := Polled(l);
            Polls(l, 1) == (if report.Some? then [report.value] else [], l')
  {
    assert Polls(l, 0) == ([], l);
    var report := Polled(l).0;
    assert report.Some? ==> [] + [report.value] == [report.value];
  }

  /** Polls go on where the earlier ones stopped. */
  lemma {:induction false} PollsAppend(l: Link, a: nat, b: nat)
    ensures Polls(l, a + b).0 == Polls(l, a).0 + Polls(Polls(l, a).1, b).0
    ensures Polls(l, a + b).1 == Polls(Polls(l, a).1, b).1
  {
    if b > 0 {
      PollsAppend(l, a, b - 1);
    }
  }

  function Decoded(frames: seq<seq<byte>>): seq<Report>
    requires forall i :: 0 <= i < |frames| ==> |frames[i]| == REPORT_SIZE
  {
    seq(|frames|, i requires 0 <= i < |frames| => Decode(frames[i]))
  }

  function Joined(reports: seq<seq<byte>>): seq<byte> {
    if reports == [] then [] else Joined(reports[..|reports| - 1]) + reports[|reports| - 1]
  }

  /** Once the connection is gone it stays gone. */
  lemma PolledConserves(l: Link)
    requires Polled(l).1.up
    ensures l.up
    ensures var (report, l') := Polled(l);
            (if report.Some? then report.value else []) + l'.buf + Stream(l'.net) == l.buf + Stream(l.net)
  {
    DrainConserves(l.buf, l.net);
    var d := Drain(l.buf, l.net);
    if |d.buf| >= REPORT_SIZE {
      assert d.buf[..REPORT_SIZE] + d.buf[REPORT_SIZE..] == d.buf;
    } else {
      assert [] + d.buf == d.buf;
    }
  }

  lemma {:induction false} JoinedAt(reports: seq<seq<byte>>, i: nat)
    requires i < |reports| && forall k :: 0 <= k < |reports| ==> |reports[k]| == REPORT_SIZE
    ensures |Joined(reports)| == REPORT_SIZE * |reports|
    ensures reports[i] == Joined(reports)[REPORT_SIZE * i..REPORT_SIZE * i + REPORT_SIZE]
  {
    var n := |reports| - 1;
    if n > 0 {
      JoinedAt(reports[..n], if i < n then i else 0);
    }
    if i < n {
      assert reports[..n][i] == reports[i];
    }
  }

  /** What one poll hands out moves from the front of the buffered and coming bytes to the reports. */
  lemma PollConserves(reports: seq<seq<byte>>, l: Link)
    requires Polled(l).1.up
    ensures var (report, l') := Polled(l);
            Joined(if report.Some? then reports + [report.value] else reports) + (l'.buf + Stream(l'.net))
            == Joined(reports) + (l.buf + Stream(l.net))
  {
    PolledConserves(l);
    var (report, l') := Polled(l);
    var rest := l'.buf + Stream(l'.net);
    if report.Some? {
      assert (reports + [report.value])[..|reports|] == reports;
      assert report.value + l'.buf + Stream(l'.net) == report.value + rest;
      assert Joined(reports) + report.value + rest == Joined(reports) + (report.value + rest);
    } else {
      assert [] + l'.buf + Stream(l'.net) == rest;
    }
  }

  /** Conservation: until the connection closes, the reports handed out, the bytes buffered and the bytes still to come
      make up exactly the stream, whatever the sizes of the chunks. */
  lemma {:induction false} PollsConserve(net: seq<Recv>, n: nat)
    requires Polls(Link([], true, net), n).1.up
    ensures var (reports, l) := Polls(Link([], true, net), n);
            Joined(reports) + (l.buf + Stream(l.net)) == Stream(net)
  {
    if n > 0 {
      var (reports, l) := Polls(Link([], true, net), n - 1);
      PolledConserves(l);
      PollsConserve(net, n - 1);
      PollConserves(reports, l);
    }
  }

  /** Framing: report i is bytes [40i, 40i + 40) of the stream, for every chunking. */
  lemma ReportIsStreamSlice(net: seq<Recv>, n: nat, i: nat)
    requires Polls(Link([], true, net), n).1.up && i < |Polls(Link([], true, net), n).0|
    ensures REPORT_SIZE * i + REPORT_SIZE <= |Stream(net)|
    ensures Polls(Link([], true, net), n).0[i] == Stream(net)[REPORT_SIZE * i..REPORT_SIZE * i + REPORT_SIZE]
  {
    var (reports, l) := Polls(Link([], true, net), n);
    PollsConserve(net, n);
    JoinedAt(reports, i);
  }

  /** Chunking independence: two sockets that deliver the same bytes, cut and delayed in any two ways, hand out the
      same i-th report. */
  lemma ChunkingIndependence(net: seq<Recv>, net': seq<Recv>, n: nat, n': nat, i: nat)
    requires Stream(net) == Stream(net')
    requires var (reports, l) := Polls(Link([], true, net), n); l.up && i < |reports|
    requires var (reports, l) := Polls(Link([], true, net'), n'); l.up && i < |reports|
    ensures Polls(Link([], true, net), n).0[i] == Polls(Link([], true, net'), n').0[i]
  {
    ReportIsStreamSlice(net, n, i);
    ReportIsStreamSlice(net', n', i);
  }

  lemma {:induction false} ReportsCount(reports: seq<seq<byte>>)
    requires forall k :: 0 <= k < |reports| ==> |reports[k]| == REPORT_SIZE
    ensures |Joined(reports)| == REPORT_SIZE * |reports|
  {
    if reports != [] {
      JoinedAt(reports, 0);
    }
  }

  /** Completeness: a poll that returns nothing on a live connection with no reads left has handed out every complete
      report of the stream. */
  lemma NothingIsHeldBack(net: seq<Recv>, n: nat)
    requires var l := Polls(Link([], true, net), n).1; l.up && l.net == [] && |l.buf| < REPORT_SIZE
    ensures |Polls(Link([], true, net), n).0| == |Stream(net)| / REPORT_SIZE
  {
    var (reports, l) := Polls(Link([], true, net), n);
    PollsConserve(net, n);
    ReportsCount(reports);
    assert |Stream(net)| == REPORT_SIZE * |reports| + |l.buf|;
  }

  /** A peer that neither closes nor fails: only interruptions, pauses and bytes. */
  ghost predicate Lasting(net: seq<Recv>) {
    forall k :: 0 <= k < |net| ==> net[k].Interrupted? || net[k].WouldBlock? || (net[k].Data? && net[k].bytes != [])
  }

  /** What is left to be done: reads to come, their bytes, and bytes buffered. */
  function Work(buf: seq<byte>, net: seq<Recv>): nat {
    |net| + 2 * |Stream(net)| + |buf|
  }

  /** Reading keeps the connection up and lowers the work, unless there is nothing to read or no room. */
  lemma {:induction false} DrainWorks(buf: seq<byte>, net: seq<Recv>)
    requires Lasting(net) && |buf| <= BUF_SIZE
    ensures var d := Drain(buf, net);
            && d.up && Lasting(d.net) && |d.buf| <= BUF_SIZE && Work(d.buf, d.net) <= Work(buf, net)
            && (net != [] && |buf| < BUF_SIZE ==> Work(d.buf, d.net) < Work(buf, net))
    decreases |net|
  {
    if |buf| < BUF_SIZE && net != [] {
      match net[0]
      case Data(bytes) =>
        if |buf| + |bytes| <= BUF_SIZE {
          DrainWorks(buf + bytes, net[1..]);
        } else {
          var rest := [Data(bytes[BUF_SIZE - |buf|..])] + net[1..];
          assert rest[1..] == net[1..];
        }
      case Interrupted => DrainWorks(buf, net[1..]);
      case WouldBlock =>
    }
  }

  /** Nothing is left to read and no complete report is buffered. */
  predicate Idle(l: Link) {
    l.net == [] && |l.buf| < REPORT_SIZE
  }

  lemma PolledWorks(l: Link)
    requires l.up && Lasting(l.net) && |l.buf| <= BUF_SIZE
    ensures var l' := Polled(l).1;
            && l'.up && Lasting(l'.net) && |l'.buf| <= BUF_SIZE
            && (Idle(l) ==> Idle(l')) && (Idle(l) || Work(l'.buf, l'.net) < Work(l.buf, l.net))
  {
    DrainWorks(l.buf, l.net);
  }

  lemma {:induction false} PollsWork(net: seq<Recv>, n: nat)
    requires Lasting(net)
    ensures var l := Polls(Link([], true, net), n).1;
            && l.up && Lasting(l.net) && |l.buf| <= BUF_SIZE
            && (Idle(l) || Work(l.buf, l.net) + n <= Work([], net))
  {
    if n > 0 {
      PollsWork(net, n - 1);
      PolledWorks(Polls(Link([], true, net), n - 1).1);
    }
  }

  /** On a lasting connection enough polls hand out every complete report of the stream, and what is left in the buffer
      is less than one: two polls per byte and one per read are enough. */
  lemma EverythingIsHandedOut(net: seq<Recv>, n: nat)
    requires Lasting(net) && n >= |net| + 2 * |Stream(net)|
    ensures var (reports, l) := Polls(Link([], true, net), n);
            l.up && Idle(l) && |reports| == |Stream(net)| / REPORT_SIZE
  {
    PollsWork(net, n);
    NothingIsHeldBack(net, n);
  }

  // ----- the wire layout of a report -----

  function Pow256(n: nat): (p: nat)
    ensures p > 0
  {
    if n == 0 then 1 else 256 * Pow256(n - 1)
  }

  /** Little-endian value of a field. */
  function FromBytes(bs: seq<byte>): nat {
    if bs == [] then 0 else bs[0] + 256 * FromBytes(bs[1..])
  }

  function ToBytes(n: nat, x: nat): (bs: seq<byte>)
    ensures |bs| == n
  {
    if n == 0 then [] else [x % 256] + ToBytes(n - 1, x / 256)
  }

  lemma {:induction false} BytesRoundTrip(n: nat, x: nat)
    requires x < Pow256(n)
    ensures FromBytes(ToBytes(n, x)) == x
  {
    if n > 0 {
      BytesRoundTrip(n - 1, x / 256);
      assert ToBytes(n, x)[1..] == ToBytes(n - 1, x / 256);
    }
  }

  /** An execution report; the price is the bit pattern of its double. */
  datatype Report = Report(execType: byte, fillQty: nat, orderId: nat, priceBits: nat, leavesQty: nat, timestamp: nat)

  predicate Fits(r: Report) {
    r.fillQty < Pow256(4) && r.leavesQty < Pow256(4) && r.orderId < Pow256(8) && r.priceBits < Pow256(8)
        && r.timestamp < Pow256(8)
  }

  /** The struct as the peer sends it: type, side, 2 padding bytes, quantity, id, price, leaves, 4 padding bytes,
      time. */
  function Layout(r: Report, side: byte, pad1: seq<byte>, pad2: seq<byte>): seq<byte> {
    [r.execType, side] + pad1 + ToBytes(4, r.fillQty) + ToBytes(8, r.orderId) + ToBytes(8, r.priceBits)
    + ToBytes(4, r.leavesQty) + pad2 + ToBytes(8, r.timestamp)
  }

  function Decode(bs: seq<byte>): Report
    requires |bs| == REPORT_SIZE
  {
    Report(bs[0], FromBytes(bs[4..8]), FromBytes(bs[8..16]), FromBytes(bs[16..24]), FromBytes(bs[24..28]),
        FromBytes(bs[32..40]))
  }

  /** Where the fields of a layout are. */
  lemma LayoutHead(r: Report, side: byte, pad1: seq<byte>, pad2: seq<byte>)
    requires |pad1| == 2 && |pad2| == 4
    ensures var bs := Layout(r, side, pad1, pad2);
            && |bs| == REPORT_SIZE && bs[0] == r.execType
            && bs[4..8] == ToBytes(4, r.fillQty) && bs[8..16] == ToBytes(8, r.orderId)
  {
  }

  lemma LayoutTail(r: Report, side: byte, pad1: seq<byte>, pad2: seq<byte>)
    requires |pad1| == 2 && |pad2| == 4
    ensures var bs := Layout(r, side, pad1, pad2);
            && |bs| == REPORT_SIZE
            && bs[16..24] == ToBytes(8, r.priceBits) && bs[24..28] == ToBytes(4, r.leavesQty)
            && bs[32..40] == ToBytes(8, r.timestamp)
  {
  }

  /** Decoding reads every field back, whatever the side byte and the padding. */
  lemma DecodeLayout(r: Report, side: byte, pad1: seq<byte>, pad2: seq<byte>)
    requires Fits(r) && |pad1| == 2 && |pad2| == 4
    ensures |Layout(r, side, pad1, pad2)| == REPORT_SIZE
    ensures Decode(Layout(r, side, pad1, pad2)) == r
  {
    LayoutHead(r, side, pad1, pad2);
    LayoutTail(r, side, pad1, pad2);
    BytesRoundTrip(4, r.fillQty);
    BytesRoundTrip(8, r.orderId);
    BytesRoundTrip(8, r.priceBits);
    BytesRoundTrip(4, r.leavesQty);
    BytesRoundTrip(8, r.timestamp);
  }

  /** A report together with the bytes of its layout that carry no field of it. */
  datatype Sent = Sent(report: Report, side: byte, pad1: seq<byte>, pad2: seq<byte>)

  predicate Proper(x: Sent) {
    Fits(x.report) && |x.pad1| == 2 && |x.pad2| == 4
  }

  function Frames(xs: seq<Sent>): (frames: seq<seq<byte>>)
    ensures |frames| == |xs|
  {
    seq(|xs|, i requires 0 <= i < |xs| => Layout(xs[i].report, xs[i].side, xs[i].pad1, xs[i].pad2))
  }

  lemma FrameAt(xs: seq<Sent>, i: nat, rest: seq<byte>)
    requires i < |xs| && forall k :: 0 <= k < |xs| ==> Proper(xs[k])
    ensures |Joined(Frames(xs))| >= REPORT_SIZE * i + REPORT_SIZE
    ensures Decode((Joined(Frames(xs)) + rest)[REPORT_SIZE * i..REPORT_SIZE * i + REPORT_SIZE]) == xs[i].report
  {
    forall k | 0 <= k < |xs| ensures |Frames(xs)[k]| == REPORT_SIZE {
      DecodeLayout(xs[k].report, xs[k].side, xs[k].pad1, xs[k].pad2);
    }
    JoinedAt(Frames(xs), i);
    var all, from := Joined(Frames(xs)), REPORT_SIZE * i;
    assert (all + rest)[from..from + REPORT_SIZE] == all[from..from + REPORT_SIZE];
    DecodeLayout(xs[i].report, xs[i].side, xs[i].pad1, xs[i].pad2);
  }

  /** End to end: if the peer's stream starts with the wire layouts of some reports, with any side and padding bytes,
      then whenever the gateway has handed out its i-th report, it decodes to the i-th of them. */
  lemma ReportsArriveInOrder(net: seq<Recv>, n: nat, i: nat, xs: seq<Sent>, rest: seq<byte>)
    requires forall k :: 0 <= k < |xs| ==> Proper(xs[k])
    requires Stream(net) == Joined(Frames(xs)) + rest && i < |xs|
    requires var (reports, l) := Polls(Link([], true, net), n); l.up && i < |reports|
    ensures Decode(Polls(Link([], true, net), n).0[i]) == xs[i].report
  {
    ReportIsStreamSlice(net, n, i);
    FrameAt(xs, i, rest);
  }
}
