/** What an add and a cancel do to the book as a whole, and what the observers show of it. */
module BookEffects {
  import opened Wrappers
  import opened BookSpec
  import opened BookInvariant
  import opened BookLaws
  import opened BookIndex

  // ----- adding -----

  /** What is left of an order after all it can reach. */
  function Rest(b: Book, o: Order): nat {
    o.qty - Min(o.qty, Reachable(o, SideOf(b, Other(o.side))))
  }

  lemma RestIsUnfilled(b: Book, o: Order)
    requires Inv(b)
    ensures Outcome(b, o).remaining == Rest(b, o) && Filled(Fills(b, o)) == o.qty - Rest(b, o)
  {
    var ms := SideOf(b, Other(o.side));
    SortedIsRanked(o, ms, b.nextNode);
    FillsAllItCan(o, o.qty, ms, b.index);
    Conservation(o, o.qty, ms, b.index);
  }

  function RestingPart(b: Book, o: Order): Resting {
    Resting(b.nextNode, o.id, o.price, Rest(b, o))
  }

  /** `b'` has the two lists of an add of `o` to `b`. */
  ghost predicate AddsTo(b: Book, o: Order, b': Book) {
    && SideOf(b', Other(o.side)) == Outcome(b, o).makers
    && SideOf(b', o.side) == if o.kind.Limit?
        && Rest(b, o) > 0 then Insert(o.side, SideOf(b, o.side), RestingPart(b, o))
                             else SideOf(b, o.side)
  }

  /** The index after an add: the consumed makers are forgotten, and a resting remainder is recorded. */
  ghost predicate IndexAfter(b: Book, o: Order, index: map<OrderId, Location>) {
    var left := b.index - IdsOf(SideOf(b, Other(o.side))[..Consumed(o, o.qty, SideOf(b, Other(o.side)))]);
    index == if o.kind.Limit? && Rest(b, o) > 0 then left[o.id := Location(o.side, o.price, b.nextNode)] else left
  }

  lemma {:induction false} AddLists(b: Book, o: Order)
    requires Outcome(b, o).remaining == Rest(b, o)
    ensures AddsTo(b, o, Add(b, o))
  {
  }

  lemma {:induction false} AddIndex(b: Book, o: Order)
    requires Outcome(b, o).remaining == Rest(b, o)
    ensures IndexAfter(b, o, Add(b, o).index)
    ensures Add(b, o).nextNode == if o.kind.Limit? && Rest(b, o) > 0 then b.nextNode + 1 else b.nextNode
  {
    MatchForgets(o, o.qty, SideOf(b, Other(o.side)), b.index);
  }

  /** The own side of `o` after an add: one new entry with all that was not filled, or nothing new. */
  ghost predicate RestsRemainder(b: Book, o: Order, rs: seq<Resting>) {
    var own := SideOf(b, o.side);
    if o.kind.Limit? && Rest(b, o) > 0 then
      Spliced(rs, own, InsertPos(o.side, own, o.price), Resting(b.nextNode, o.id, o.price, Rest(b, o)))
    else rs == own
  }

  lemma AddsRemainder(b: Book, o: Order, b': Book)
    requires AddsTo(b, o, b')
    ensures RestsRemainder(b, o, SideOf(b', o.side))
  {
    InsertIsSplice(o.side, SideOf(b, o.side), RestingPart(b, o));
  }

  lemma AddsTakeShares(b: Book, o: Order, b': Book)
    requires Inv(b) && AddsTo(b, o, b')
    ensures var ms := SideOf(b, Other(o.side));
            LessShares(o, o.qty, ms, SideOf(b', Other(o.side)), Consumed(o, o.qty, ms))
  {
    SortedIsRanked(o, SideOf(b, Other(o.side)), b.nextNode);
    ResidualIsQuantityLessShare(o, o.qty, SideOf(b, Other(o.side)), b.index);
  }

  /** An add, for any order and any reachable book: a limit order comes to rest with exactly what it could not fill, in
      one new entry of its own side; nothing rests of a market order or of one that is filled; the opposite side loses
      what was filled and nothing else. */
  lemma AddEffect(b: Book, o: Order)
    requires Inv(b)
    ensures var b', ms := Add(b, o), SideOf(b, Other(o.side));
            && RestsRemainder(b, o, SideOf(b', o.side))
            && LessShares(o, o.qty, ms, SideOf(b', Other(o.side)), Consumed(o, o.qty, ms))
            && IndexAfter(b, o, b'.index)
            && b'.nextNode == if o.kind.Limit? && Rest(b, o) > 0 then b.nextNode + 1 else b.nextNode
  {
    RestIsUnfilled(b, o);
    AddLists(b, o);
    AddIndex(b, o);
    AddsRemainder(b, o, Add(b, o));
    AddsTakeShares(b, o, Add(b, o));
  }

  lemma AddsToTotals(b: Book, o: Order, b': Book)
    requires Inv(b) && AddsTo(b, o, b')
    ensures Total(SideOf(b', o.side)) ==
            Total(SideOf(b, o.side)) + (if o.kind.Limit? then o.qty - Filled(Fills(b, o)) else 0)
    ensures Total(SideOf(b', Other(o.side))) == Total(SideOf(b, Other(o.side))) - Filled(Fills(b, o))
  {
    RestIsUnfilled(b, o);
    Conservation(o, o.qty, SideOf(b, Other(o.side)), b.index);
    TotalInsert(o.side, SideOf(b, o.side), RestingPart(b, o));
  }

  /** The resting quantity of a limit order's own side grows by what it did not fill, that of the other side shrinks by
      what it filled. */
  lemma AddTotals(b: Book, o: Order)
    requires Inv(b)
    ensures Total(SideOf(Add(b, o), o.side)) ==
            Total(SideOf(b, o.side)) + (if o.kind.Limit? then o.qty - Filled(Fills(b, o)) else 0)
    ensures Total(SideOf(Add(b, o), Other(o.side))) == Total(SideOf(b, Other(o.side))) - Filled(Fills(b, o))
  {
    RestIsUnfilled(b, o);
    AddLists(b, o);
    AddsToTotals(b, o, Add(b, o));
  }

  lemma {:induction false} TotalInsert(side: Side, rs: seq<Resting>, r: Resting)
    ensures Total(Insert(side, rs, r)) == Total(rs) + r.qty
  {
    if rs == [] || Better(side, r.price, rs[0].price) {
      assert ([r] + rs)[1..] == rs;
    } else {
      TotalInsert(side, rs[1..], r);
      assert ([rs[0]] + Insert(side, rs[1..], r))[1..] == Insert(side, rs[1..], r);
    }
  }

  // ----- cancelling -----

  /** The place of an indexed order in its side's list. */
  function PlaceOf(b: Book, id: OrderId): nat
    requires id in b.index
  {
    NodePos(SideOf(b, b.index[id].side), b.index[id].node)
  }

  /** `b'` has the two lists of `b` without the order of an indexed id. */
  ghost predicate TakesOut(b: Book, id: OrderId, b': Book)
    requires id in b.index
  {
    var side := b.index[id].side;
    SideOf(b', side) == Without(SideOf(b, side), b.index[id].node) && SideOf(b', Other(side)) == SideOf(b, Other(side))
  }

  lemma CancelShape(b: Book, id: OrderId)
    requires id in b.index
    ensures var b' := Cancel(b, id);
            TakesOut(b, id, b') && b'.index == b.index - {id} && b'.nextNode == b.nextNode
  {
  }

  /** `b'` is `b` with one entry less: the one of this id, with the node and the price that the index gives. */
  ghost predicate LosesOne(b: Book, id: OrderId, b': Book)
    requires id in b.index
  {
    var loc, p := b.index[id], PlaceOf(b, id);
    var rs := SideOf(b, loc.side);
    && p < |rs| && rs[p].node == loc.node && rs[p].id == id && rs[p].price == loc.price
    && SideOf(b', loc.side) == rs[..p] + rs[p + 1..]
    && SideOf(b', Other(loc.side)) == SideOf(b, Other(loc.side))
  }

  lemma TakesOutOne(b: Book, id: OrderId, b': Book)
    requires Inv(b) && id in b.index && TakesOut(b, id, b')
    ensures LosesOne(b, id, b')
  {
    IndexedPosition(b, id);
    CutIsSplit(SideOf(b, b.index[id].side), b.index[id].node);
  }

  /** A cancel of any indexed order takes exactly that order out of its side, wherever it stands, and its id out of the
      index; a cancel of any other id changes nothing. */
  lemma CancelEffect(b: Book, id: OrderId)
    requires Inv(b)
    ensures id !in b.index ==> Cancel(b, id) == b
    ensures id in b.index ==>
              var b' := Cancel(b, id);
              LosesOne(b, id, b') && b'.index == b.index - {id} && b'.nextNode == b.nextNode
  {
    if id in b.index {
      CancelShape(b, id);
      TakesOutOne(b, id, Cancel(b, id));
    }
  }

  lemma IndexedPosition(b: Book, id: OrderId)
    requires Inv(b) && id in b.index
    ensures var loc, p := b.index[id], PlaceOf(b, id);
            var rs := SideOf(b, loc.side);
            p < |rs| && rs[p].node == loc.node && rs[p].id == id && rs[p].price == loc.price
  {
    var loc := b.index[id];
    var rs := SideOf(b, loc.side);
    var i :| 0 <= i < |rs| && rs[i].node == loc.node && rs[i].id == id && rs[i].price == loc.price;
    assert NodePos(rs, loc.node) == i;
  }

  lemma CutIsSplit(rs: seq<Resting>, node: nat)
    requires NodePos(rs, node) < |rs|
    ensures var p := NodePos(rs, node); Without(rs, node) == rs[..p] + rs[p + 1..]
  {
    WithoutIsCut(rs, node);
  }

  // ----- best prices and spread -----

  /** A bid rests at the best bid and none rests higher; an ask rests at the best ask and none rests lower; the spread
      is the difference of the two, and there is one exactly when both exist. */
  lemma BestPrices(b: Book)
    requires Inv(b)
    ensures BestBid(b) == None <==> b.bids == []
    ensures BestAsk(b) == None <==> b.asks == []
    ensures b.bids != [] ==>
              && (exists r :: r in b.bids && BestBid(b) == Some(r.price))
              && forall r :: r in b.bids ==> r.price <= BestBid(b).value
    ensures b.asks != [] ==>
              && (exists r :: r in b.asks && BestAsk(b) == Some(r.price))
              && forall r :: r in b.asks ==> r.price >= BestAsk(b).value
    ensures b.bids == [] || b.asks == [] ==> Spread(b) == None
    ensures b.bids != [] && b.asks != [] ==>
              BestBid(b).value < BestAsk(b).value && Spread(b) == Some(BestAsk(b).value - BestBid(b).value)
  {
    if b.bids != [] {
      assert b.bids[0] in b.bids;
    }
    if b.asks != [] {
      assert b.asks[0] in b.asks;
    }
  }

  // ----- depth -----

  /** Filled quantity at one price. */
  function FilledAt(fs: seq<Fill>, price: Price): nat {
    if fs == [] then 0 else (if fs[0].price == price then fs[0].qty else 0) + FilledAt(fs[1..], price)
  }

  lemma {:induction false} DepthInsert(side: Side, rs: seq<Resting>, r: Resting, price: Price)
    ensures Depth(Insert(side, rs, r), price) == Depth(rs, price) + (if r.price == price then r.qty else 0)
  {
    if rs == [] || Better(side, r.price, rs[0].price) {
      assert ([r] + rs)[1..] == rs;
    } else {
      DepthInsert(side, rs[1..], r, price);
      assert ([rs[0]] + Insert(side, rs[1..], r))[1..] == Insert(side, rs[1..], r);
    }
  }

  lemma {:induction false} DepthMatch(o: Order, q: Qty, ms: seq<Resting>, index: map<OrderId, Location>, price: Price)
    ensures var r := Match(o, q, ms, index); Depth(ms, price) == Depth(r.makers, price) + FilledAt(r.fills, price)
  {
    if q == 0 || ms == [] || !Crosses(o, ms[0].price) {
    } else if ms[0].qty <= q {
      var r := Match(o, q - ms[0].qty, ms[1..], index - {ms[0].id});
      DepthMatch(o, q - ms[0].qty, ms[1..], index - {ms[0].id}, price);
      assert ([FillAgainst(o, ms[0], q)] + r.fills)[1..] == r.fills;
    } else {
      assert ([ms[0].(qty := ms[0].qty - q)] + ms[1..])[1..] == ms[1..];
    }
  }

  lemma {:induction false} DepthWithout(rs: seq<Resting>, node: nat, price: Price)
    requires NodePos(rs, node) < |rs|
    ensures var r := rs[NodePos(rs, node)];
            Depth(rs, price) == Depth(Without(rs, node), price) + (if r.price == price then r.qty else 0)
  {
    if rs[0].node != node {
      DepthWithout(rs[1..], node, price);
      assert ([rs[0]] + Without(rs[1..], node))[1..] == Without(rs[1..], node);
    }
  }

  /** The depth of the empty book. */
  lemma EmptyDepth(side: Side, price: Price)
    ensures DepthAt(EMPTY, side, price) == 0
  {
  }

  lemma WrappedSum(x: nat, y: nat, d: int)
    requires y == x + d
    ensures y % 0x1_0000_0000_0000_0000 == (x % 0x1_0000_0000_0000_0000 + d) % 0x1_0000_0000_0000_0000
  {
  }

  lemma AddsToDepth(b: Book, o: Order, b': Book, price: Price)
    requires Inv(b) && AddsTo(b, o, b')
    ensures Depth(SideOf(b', o.side), price) ==
            Depth(SideOf(b, o.side), price)
            + (if o.kind.Limit? && price == o.price then o.qty - Filled(Fills(b, o)) else 0)
    ensures Depth(SideOf(b', Other(o.side)), price) ==
            Depth(SideOf(b, Other(o.side)), price) - FilledAt(Fills(b, o), price)
  {
    RestIsUnfilled(b, o);
    DepthMatch(o, o.qty, SideOf(b, Other(o.side)), b.index, price);
    DepthInsert(o.side, SideOf(b, o.side), RestingPart(b, o), price);
  }

  /** An add, modulo 2^64: a limit order adds what it did not fill to the depth of its own side at its own price and
      nowhere else; the fills lower the depth of the other side at their prices. */
  lemma AddDepth(b: Book, o: Order, price: Price)
    requires Inv(b)
    ensures var rested := if o.kind.Limit? && price == o.price then o.qty - Filled(Fills(b, o)) else 0;
            DepthAt(Add(b, o), o.side, price) == (DepthAt(b, o.side, price) + rested) % 0x1_0000_0000_0000_0000
    ensures DepthAt(Add(b, o), Other(o.side), price) ==
            (DepthAt(b, Other(o.side), price) - FilledAt(Fills(b, o), price)) % 0x1_0000_0000_0000_0000
  {
    RestIsUnfilled(b, o);
    AddLists(b, o);
    var b', rested := Add(b, o), if o.kind.Limit? && price == o.price then o.qty - Filled(Fills(b, o)) else 0;
    AddsToDepth(b, o, b', price);
    WrappedSum(Depth(SideOf(b, o.side), price), Depth(SideOf(b', o.side), price), rested);
    WrappedSum(Depth(SideOf(b, Other(o.side)), price), Depth(SideOf(b', Other(o.side)), price),
               0 - FilledAt(Fills(b, o), price));
  }

  /** What a cancel takes from the depth at this side and price. */
  function Withdrawn(b: Book, id: OrderId, side: Side, price: Price): nat
    requires Inv(b) && id in b.index
  {
    IndexedPosition(b, id);
    if side == b.index[id].side && price == b.index[id].price then SideOf(b, side)[PlaceOf(b, id)].qty else 0
  }

  lemma TakesOutDepth(b: Book, id: OrderId, b': Book, side: Side, price: Price)
    requires Inv(b) && id in b.index && TakesOut(b, id, b')
    ensures Depth(SideOf(b', side), price) == Depth(SideOf(b, side), price) - Withdrawn(b, id, side, price)
  {
    IndexedPosition(b, id);
    DepthWithout(SideOf(b, b.index[id].side), b.index[id].node, price);
  }

  /** A cancel, modulo 2^64: it lowers the depth at the side and price of the order by the order's quantity, and no
      other depth. */
  lemma CancelDepth(b: Book, id: OrderId, side: Side, price: Price)
    requires Inv(b)
    ensures DepthAt(Cancel(b, id), side, price) ==
            if id in b.index then (DepthAt(b, side, price) - Withdrawn(b, id, side, price)) % 0x1_0000_0000_0000_0000
            else DepthAt(b, side, price)
  {
    if id in b.index {
      var b' := Cancel(b, id);
      CancelShape(b, id);
      TakesOutDepth(b, id, b', side, price);
      WrappedSum(Depth(SideOf(b, side), price), Depth(SideOf(b', side), price), 0 - Withdrawn(b, id, side, price));
    }
  }

  // ----- the book follows from the replies -----

  /** Quantity resting under an id. */
  function QtyUnder(rs: seq<Resting>, id: OrderId): nat {
    if rs == [] then 0 else (if rs[0].id == id then rs[0].qty else 0) + QtyUnder(rs[1..], id)
  }

  /** Quantity that these fills take from the maker `id`. */
  function TakenFrom(fs: seq<Fill>, id: OrderId): nat {
    if fs == [] then 0 else (if fs[0].maker == id then fs[0].qty else 0) + TakenFrom(fs[1..], id)
  }

  /** One step of that reckoning: the unfilled part of the client's own limit order, less the fills against it, until it
      cancels. */
  function Reckon(b: Book, c: Command, id: OrderId, before: int): int {
    match c
    case AddOrder(o) =>
      if o.id != id then before - TakenFrom(Fills(b, o), id)
      else if o.kind.Limit? then o.qty - Filled(Fills(b, o)) else 0
    case CancelOrder(x) => if x == id then 0 else before
  }

  /** What a client who sees only the fills and its own cancels reckons is still resting under its id. */
  function Outstanding(cs: seq<Command>, id: OrderId): int {
    if cs == [] then 0 else
    Reckon(Run(EMPTY, cs[..|cs| - 1]), cs[|cs| - 1], id, Outstanding(cs[..|cs| - 1], id))
  }

  lemma {:induction false} UnderInsert(side: Side, rs: seq<Resting>, r: Resting, id: OrderId)
    ensures QtyUnder(Insert(side, rs, r), id) == QtyUnder(rs, id) + (if r.id == id then r.qty else 0)
  {
    if rs == [] || Better(side, r.price, rs[0].price) {
      assert ([r] + rs)[1..] == rs;
    } else {
      UnderInsert(side, rs[1..], r, id);
      assert ([rs[0]] + Insert(side, rs[1..], r))[1..] == Insert(side, rs[1..], r);
    }
  }

  lemma {:induction false} UnderMatch(o: Order, q: Qty, ms: seq<Resting>, index: map<OrderId, Location>, id: OrderId)
    ensures var r := Match(o, q, ms, index); QtyUnder(ms, id) == QtyUnder(r.makers, id) + TakenFrom(r.fills, id)
  {
    if q == 0 || ms == [] || !Crosses(o, ms[0].price) {
    } else if ms[0].qty <= q {
      var r := Match(o, q - ms[0].qty, ms[1..], index - {ms[0].id});
      UnderMatch(o, q - ms[0].qty, ms[1..], index - {ms[0].id}, id);
      assert ([FillAgainst(o, ms[0], q)] + r.fills)[1..] == r.fills;
    } else {
      assert ([ms[0].(qty := ms[0].qty - q)] + ms[1..])[1..] == ms[1..];
    }
  }

  lemma {:induction false} UnderWithout(rs: seq<Resting>, node: nat, id: OrderId)
    requires NodePos(rs, node) < |rs|
    ensures var r := rs[NodePos(rs, node)];
            QtyUnder(rs, id) == QtyUnder(Without(rs, node), id) + (if r.id == id then r.qty else 0)
  {
    if rs[0].node != node {
      UnderWithout(rs[1..], node, id);
      assert ([rs[0]] + Without(rs[1..], node))[1..] == Without(rs[1..], node);
    }
  }

  /** Nothing rests under an id that no order carries, and something does under one that an order carries. */
  lemma {:induction false} UnderIff(rs: seq<Resting>, id: OrderId)
    requires forall i :: 0 <= i < |rs| ==> rs[i].qty > 0
    ensures QtyUnder(rs, id) > 0 <==> Rests(rs, id)
  {
    if rs != [] {
      UnderIff(rs[1..], id);
      if i :| 0 <= i < |rs| && rs[i].id == id {
        assert i > 0 ==> rs[1..][i - 1].id == id;
      }
      if i :| 0 <= i < |rs| - 1 && rs[1..][i].id == id {
        assert rs[i + 1].id == id;
      }
    }
  }

  function Under(b: Book, id: OrderId): nat {
    QtyUnder(b.bids, id) + QtyUnder(b.asks, id)
  }

  lemma UnderInBook(b: Book, id: OrderId)
    requires Inv(b)
    ensures Under(b, id) > 0 <==> RestsIn(b, id)
  {
    UnderIff(b.bids, id);
    UnderIff(b.asks, id);
  }

  lemma AddsToUnder(b: Book, o: Order, b': Book, id: OrderId)
    requires Inv(b) && AddsTo(b, o, b')
    ensures Under(b', id) ==
            Under(b, id) - TakenFrom(Fills(b, o), id)
            + (if o.id == id && o.kind.Limit? then o.qty - Filled(Fills(b, o)) else 0)
    ensures TakenFrom(Fills(b, o), id) <= Under(b, id)
  {
    RestIsUnfilled(b, o);
    UnderMatch(o, o.qty, SideOf(b, Other(o.side)), b.index, id);
    UnderInsert(o.side, SideOf(b, o.side), RestingPart(b, o), id);
  }

  lemma TakesOutUnder(b: Book, x: OrderId, b': Book, id: OrderId)
    requires Inv(b) && x in b.index && TakesOut(b, x, b') && x != id
    ensures Under(b', id) == Under(b, id)
  {
    IndexedPosition(b, x);
    UnderWithout(SideOf(b, b.index[x].side), b.index[x].node, id);
  }

  lemma NotIndexedNotResting(b: Book, id: OrderId)
    requires Inv(b) && Exact(b) && id !in b.index
    ensures Under(b, id) == 0
  {
    UnderInBook(b, id);
  }

  /** With an exact index a cancelled id no longer rests, and the others rest as before. */
  lemma CancelUnder(b: Book, x: OrderId, id: OrderId)
    requires Inv(b) && Exact(b)
    ensures Under(Cancel(b, x), id) == if x == id then 0 else Under(b, id)
  {
    if x == id {
      CancelKeepsExact(b, x);
      CancelKeepsInv(b, x);
      NotIndexedNotResting(Cancel(b, x), x);
    } else if x in b.index {
      CancelShape(b, x);
      TakesOutUnder(b, x, Cancel(b, x), id);
    }
  }

  lemma {:induction false} FreshPrefix(cs: seq<Command>)
    requires FreshIds(cs) && cs != []
    ensures FreshIds(cs[..|cs| - 1])
    ensures cs[|cs| - 1].AddOrder? ==> !Added(cs[..|cs| - 1], cs[|cs| - 1].order.id)
  {
    assert forall k :: 0 <= k < |cs| - 1 ==> cs[..|cs| - 1][k] == cs[k];
  }

  lemma ReckonStep(b: Book, c: Command, id: OrderId)
    requires Inv(b) && Exact(b) && (c.AddOrder? && c.order.id == id ==> Under(b, id) == 0)
    ensures Under(Step(b, c), id) == Reckon(b, c, id, Under(b, id))
  {
    match c
    case AddOrder(o) =>
      RestIsUnfilled(b, o);
      AddLists(b, o);
      AddsToUnder(b, o, Add(b, o), id);
    case CancelOrder(x) => CancelUnder(b, x, id);
  }

  /** In every run that adds no id twice the book follows from the replies: under each id rests exactly what a client
      reckons from the fills and cancels it has seen. */
  lemma {:induction false} BookFollowsReplies(cs: seq<Command>, id: OrderId)
    requires FreshIds(cs)
    ensures Under(Run(EMPTY, cs), id) == Outstanding(cs, id)
  {
    if cs != [] {
      var cs', c := cs[..|cs| - 1], cs[|cs| - 1];
      FreshPrefix(cs);
      BookFollowsReplies(cs', id);
      EveryBookKeepsInv(cs');
      FreshIdsKeepIndexExact(cs');
      UnderInBook(Run(EMPTY, cs'), id);
      if c.AddOrder? && c.order.id == id {
        NewIdIsNotResting(cs', id);
      }
      ReckonStep(Run(EMPTY, cs'), c, id);
    }
  }
}
