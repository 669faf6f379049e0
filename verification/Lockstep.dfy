/** The two book implementations side by side: on every command sequence they give the same replies and show the
    same book after every command. */
module Lockstep {
  import opened Wrappers
  import opened BookSpec
  import A = OrderBookImpl
  import B = MatchingEngineImpl

  datatype Reply = Filled(fills: seq<Fill>) | Cancelled(ok: bool)

  /** What a client can see after a command: the reply and every observer, the depth at one chosen price. */
  datatype Seen = Seen(reply: Reply, bid: Option<Price>, ask: Option<Price>, spread: Option<nat>, len: nat, depth: nat)

  function Answer(b: Book, c: Command): Reply {
    match c
    case AddOrder(o) => Filled(Fills(b, o))
    case CancelOrder(id) => Cancelled(id in b.index)
  }

  function Look(b: Book, reply: Reply, side: Side, price: Price): Seen {
    Seen(reply, BestBid(b), BestAsk(b), Spread(b), |b.index|, DepthAt(b, side, price))
  }

  /** The reference transcript of a command sequence. */
  function Transcript(cs: seq<Command>, side: Side, price: Price): (t: seq<Seen>)
    ensures |t| == |cs|
  {
    if cs == [] then [] else
    var b, c := Run(EMPTY, cs[..|cs| - 1]), cs[|cs| - 1];
    Transcript(cs[..|cs| - 1], side, price) + [Look(Step(b, c), Answer(b, c), side, price)]
  }

  /** `t` is what the commands should show. */
  ghost predicate Shown(t: seq<Seen>, cs: seq<Command>, side: Side, price: Price) {
    t == Transcript(cs, side, price)
  }

  lemma TranscriptExtends(cs: seq<Command>, c: Command, side: Side, price: Price)
    ensures var b := Run(EMPTY, cs);
            Transcript(cs + [c], side, price)
                == Transcript(cs, side, price) + [Look(Step(b, c), Answer(b, c), side, price)]
  {
    assert (cs + [c])[..|cs|] == cs;
  }

  method LookAtA(book: A.OrderBook, reply: Reply, side: Side, price: Price) returns (seen: Seen)
    requires book.Valid()
    ensures seen == Look(book.View(), reply, side, price)
  {
    var bid := book.BestBidPrice();
    var ask := book.BestAskPrice();
    var spread := book.SpreadNow();
    var n := book.Len();
    var depth := book.QuantityAt(side, price);
    seen := Seen(reply, bid, ask, spread, n, depth);
  }

  method ServeA(book: A.OrderBook, c: Command, side: Side, price: Price, t: seq<Seen>) returns (t': seq<Seen>)
    requires book.Valid() && Shown(t, book.history, side, price)
    modifies book
    ensures book.Valid() && book.history == old(book.history) + [c]
    ensures Shown(t', book.history, side, price)
  {
    var seen;
    TranscriptExtends(book.history, c, side, price);
    match c {
      case AddOrder(o) =>
        ghost var b := book.View();
        var fills := book.Add(o, []);
        assert fills == Fills(b, o);
        seen := LookAtA(book, Filled(fills), side, price);
      case CancelOrder(id) =>
        var ok := book.Cancel(id);
        seen := LookAtA(book, Cancelled(ok), side, price);
    }
    t' := t + [seen];
  }

  method LookAtB(book: B.OrderBook, reply: Reply, side: Side, price: Price) returns (seen: Seen)
    requires book.Valid()
    ensures seen == Look(book.View(), reply, side, price)
  {
    var bid := book.BestBidPrice();
    var ask := book.BestAskPrice();
    var spread := book.SpreadNow();
    var n := book.Len();
    var depth := book.QuantityAt(side, price);
    seen := Seen(reply, bid, ask, spread, n, depth);
  }

  method ServeB(book: B.OrderBook, c: Command, side: Side, price: Price, t: seq<Seen>) returns (t': seq<Seen>)
    requires book.Valid() && Shown(t, book.history, side, price)
    modifies book
    ensures book.Valid() && book.history == old(book.history) + [c]
    ensures Shown(t', book.history, side, price)
  {
    var seen;
    TranscriptExtends(book.history, c, side, price);
    match c {
      case AddOrder(o) =>
        ghost var b := book.View();
        var fills := book.Add(o, []);
        assert fills == Fills(b, o);
        seen := LookAtB(book, Filled(fills), side, price);
      case CancelOrder(id) =>
        var ok := book.Cancel(id);
        seen := LookAtB(book, Cancelled(ok), side, price);
    }
    t' := t + [seen];
  }

  method RunA(cs: seq<Command>, side: Side, price: Price) returns (book: A.OrderBook, t: seq<Seen>)
    ensures fresh(book) && book.Valid() && book.history == cs
    ensures Shown(t, cs, side, price)
  {
    if cs == [] {
      book := new A.OrderBook();
      t := [];
    } else {
      var n := |cs| - 1;
      book, t := RunA(cs[..n], side, price);
      assert cs == cs[..n] + [cs[n]];
      t := ServeA(book, cs[n], side, price, t);
    }
  }

  method RunB(cs: seq<Command>, side: Side, price: Price) returns (book: B.OrderBook, t: seq<Seen>)
    ensures fresh(book) && book.Valid() && book.history == cs
    ensures Shown(t, cs, side, price)
  {
    if cs == [] {
      book := new B.OrderBook();
      t := [];
    } else {
      var n := |cs| - 1;
      book, t := RunB(cs[..n], side, price);
      assert cs == cs[..n] + [cs[n]];
      t := ServeB(book, cs[n], side, price, t);
    }
  }

  /** Both implementations, fed the same commands, produce the same transcript, the reference one: identical fills and
      cancel results, and identical observers after every command. */
  method RunBoth(cs: seq<Command>, side: Side, price: Price) returns (a: seq<Seen>, b: seq<Seen>)
    ensures a == b == Transcript(cs, side, price)
  {
    var bookA, bookB;
    bookA, a := RunA(cs, side, price);
    bookB, b := RunB(cs, side, price);
  }
}
