/** Buy and sell are mirror images: swapping the sides and reflecting every price p to top - p commutes with every
    command, so selling into a book is buying from its mirror image. */
module BookMirror {
  import opened BookSpec

  function Flip(top: Price, p: Price): Price {
    if p <= top then top - p else 0
  }

  function FlipResting(top: Price, r: Resting): Resting {
    r.(price := Flip(top, r.price))
  }

  function FlipList(top: Price, rs: seq<Resting>): (rs': seq<Resting>)
    ensures |rs'| == |rs|
  {
    if rs == [] then [] else [FlipResting(top, rs[0])] + FlipList(top, rs[1..])
  }

  function FlipIndex(top: Price, index: map<OrderId, Location>): map<OrderId, Location> {
    map id | id in index :: Location(Other(index[id].side), Flip(top, index[id].price), index[id].node)
  }

  function FlipFill(top: Price, f: Fill): Fill {
    f.(price := Flip(top, f.price), side := Other(f.side))
  }

  function FlipFills(top: Price, fs: seq<Fill>): seq<Fill> {
    if fs == [] then [] else [FlipFill(top, fs[0])] + FlipFills(top, fs[1..])
  }

  function FlipOrder(top: Price, o: Order): Order {
    o.(price := Flip(top, o.price), side := Other(o.side))
  }

  function Mirror(top: Price, b: Book): Book {
    Book(FlipList(top, b.asks), FlipList(top, b.bids), FlipIndex(top, b.index), b.nextNode)
  }

  function FlipCommand(top: Price, c: Command): Command {
    match c
    case AddOrder(o) => AddOrder(FlipOrder(top, o))
    case CancelOrder(id) => CancelOrder(id)
  }

  function FlipCommands(top: Price, cs: seq<Command>): (cs': seq<Command>)
    ensures |cs'| == |cs|
  {
    if cs == [] then [] else FlipCommands(top, cs[..|cs| - 1]) + [FlipCommand(top, cs[|cs| - 1])]
  }

  // ----- all prices stay below the top -----

  predicate Below(top: Price, rs: seq<Resting>) {
    forall i :: 0 <= i < |rs| ==> rs[i].price <= top
  }

  predicate BookBelow(top: Price, b: Book) {
    Below(top, b.bids) && Below(top, b.asks)
  }

  predicate CommandBelow(top: Price, c: Command) {
    c.AddOrder? && c.order.kind.Limit? ==> c.order.price <= top
  }

  // ----- each operation commutes with the mirror -----

  lemma FlipIndexMinus(top: Price, index: map<OrderId, Location>, id: OrderId)
    ensures FlipIndex(top, index - {id}) == FlipIndex(top, index) - {id}
  {
  }

  lemma {:induction false} MirrorMatch(top: Price, o: Order, q: Qty, ms: seq<Resting>, index: map<OrderId, Location>)
    requires Below(top, ms) && (o.kind.Limit? ==> o.price <= top)
    ensures var r, r' := Match(o, q, ms, index), Match(FlipOrder(top, o), q, FlipList(top, ms), FlipIndex(top, index));
            && r'.fills == FlipFills(top, r.fills) && r'.makers == FlipList(top, r.makers)
            && r'.index == FlipIndex(top, r.index) && r'.remaining == r.remaining
            && Below(top, r.makers)
  {
    var o', ms', index' := FlipOrder(top, o), FlipList(top, ms), FlipIndex(top, index);
    if q == 0 || ms == [] {
    } else {
      assert ms'[0] == FlipResting(top, ms[0]) && ms'[1..] == FlipList(top, ms[1..]);
      assert Crosses(o', ms'[0].price) == Crosses(o, ms[0].price);
      if Crosses(o, ms[0].price) {
        if ms[0].qty <= q {
          MirrorMatch(top, o, q - ms[0].qty, ms[1..], index - {ms[0].id});
          FlipIndexMinus(top, index, ms[0].id);
          var fs := Match(o, q - ms[0].qty, ms[1..], index - {ms[0].id}).fills;
          assert ([FillAgainst(o, ms[0], q)] + fs)[1..] == fs;
        } else {
          var left := [ms[0].(qty := ms[0].qty - q)] + ms[1..];
          assert left[1..] == ms[1..];
        }
      }
    }
  }

  lemma {:induction false} MirrorInsert(top: Price, side: Side, rs: seq<Resting>, r: Resting)
    requires Below(top, rs) && r.price <= top
    ensures FlipList(top, Insert(side, rs, r)) == Insert(Other(side), FlipList(top, rs), FlipResting(top, r))
    ensures Below(top, Insert(side, rs, r))
  {
    if rs == [] || Better(side, r.price, rs[0].price) {
      assert ([r] + rs)[1..] == rs;
    } else {
      MirrorInsert(top, side, rs[1..], r);
      assert ([rs[0]] + Insert(side, rs[1..], r))[1..] == Insert(side, rs[1..], r);
      assert FlipList(top, rs)[1..] == FlipList(top, rs[1..]);
    }
  }

  lemma {:induction false} MirrorWithout(top: Price, rs: seq<Resting>, node: nat)
    requires Below(top, rs)
    ensures FlipList(top, Without(rs, node)) == Without(FlipList(top, rs), node)
    ensures Below(top, Without(rs, node))
  {
    if rs != [] {
      assert FlipList(top, rs)[1..] == FlipList(top, rs[1..]);
      if rs[0].node != node {
        MirrorWithout(top, rs[1..], node);
        assert ([rs[0]] + Without(rs[1..], node))[1..] == Without(rs[1..], node);
      }
    }
  }

  lemma MirrorTaken(top: Price, b: Book, o: Order)
    requires BookBelow(top, b) && (o.kind.Limit? ==> o.price <= top)
    ensures Mirror(top, Taken(b, o)) == Taken(Mirror(top, b), FlipOrder(top, o))
    ensures BookBelow(top, Taken(b, o))
    ensures Outcome(Mirror(top, b), FlipOrder(top, o)).remaining == Outcome(b, o).remaining
    ensures Fills(Mirror(top, b), FlipOrder(top, o)) == FlipFills(top, Fills(b, o))
  {
    MirrorMatch(top, o, o.qty, SideOf(b, Other(o.side)), b.index);
  }

  lemma MirrorPlace(top: Price, b: Book, id: OrderId, side: Side, price: Price, qty: Qty)
    requires BookBelow(top, b) && price <= top
    ensures Mirror(top, Place(b, id, side, price, qty)) == Place(Mirror(top, b), id, Other(side), Flip(top, price), qty)
    ensures BookBelow(top, Place(b, id, side, price, qty))
  {
    MirrorInsert(top, side, SideOf(b, side), Resting(b.nextNode, id, price, qty));
    var loc := Location(side, price, b.nextNode);
    assert FlipIndex(top, b.index[id := loc])
           == FlipIndex(top, b.index)[id := Location(Other(side), Flip(top, price), b.nextNode)];
  }

  lemma MirrorAdd(top: Price, b: Book, o: Order)
    requires BookBelow(top, b) && (o.kind.Limit? ==> o.price <= top)
    ensures Mirror(top, Add(b, o)) == Add(Mirror(top, b), FlipOrder(top, o)) && BookBelow(top, Add(b, o))
  {
    MirrorTaken(top, b, o);
    var left := Outcome(b, o).remaining;
    if left > 0 && o.kind.Limit? {
      MirrorPlace(top, Taken(b, o), o.id, o.side, o.price, left);
    }
  }

  lemma MirrorCancel(top: Price, b: Book, id: OrderId)
    requires BookBelow(top, b)
    ensures Mirror(top, Cancel(b, id)) == Cancel(Mirror(top, b), id) && BookBelow(top, Cancel(b, id))
  {
    if id in b.index {
      MirrorWithout(top, b.bids, b.index[id].node);
      MirrorWithout(top, b.asks, b.index[id].node);
      FlipIndexMinus(top, b.index, id);
    }
  }

  /** Over whole runs: the mirrored commands lead to the mirrored book. */
  lemma {:induction false} MirrorRun(top: Price, cs: seq<Command>)
    requires forall c :: c in cs ==> CommandBelow(top, c)
    ensures Run(EMPTY, FlipCommands(top, cs)) == Mirror(top, Run(EMPTY, cs)) && BookBelow(top, Run(EMPTY, cs))
  {
    if cs != [] {
      var cs', c := cs[..|cs| - 1], cs[|cs| - 1];
      MirrorRun(top, cs');
      assert FlipCommands(top, cs)[..|cs| - 1] == FlipCommands(top, cs');
      assert c in cs;
      match c
      case AddOrder(o) => MirrorAdd(top, Run(EMPTY, cs'), o);
      case CancelOrder(id) => MirrorCancel(top, Run(EMPTY, cs'), id);
    }
  }

  /** ... so the fills of any add after any run are the mirrored fills. */
  lemma MirrorFills(top: Price, cs: seq<Command>, o: Order)
    requires forall c :: c in cs ==> CommandBelow(top, c)
    requires CommandBelow(top, AddOrder(o))
    ensures Fills(Run(EMPTY, FlipCommands(top, cs)), FlipOrder(top, o)) == FlipFills(top, Fills(Run(EMPTY, cs), o))
  {
    MirrorRun(top, cs);
    MirrorTaken(top, Run(EMPTY, cs), o);
  }
}
