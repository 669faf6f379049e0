/** Price levels: the ordered map from prices to queues that both book implementations keep, as a sequence of
    levels in key order, and how it flattens to the reference book's list. */
module Levels {
  import opened BookSpec
  import opened BookInvariant

  datatype Node = Node(node: nat, id: OrderId, qty: Qty)
  datatype Level = Level(price: Price, queue: seq<Node>)

  function Item(price: Price, n: Node): Resting {
    Resting(n.node, n.id, price, n.qty)
  }

  function Items(price: Price, queue: seq<Node>): (rs: seq<Resting>)
    ensures |rs| == |queue|
    ensures forall i :: 0 <= i < |queue| ==> rs[i] == Item(price, queue[i])
  {
    if queue == [] then [] else [Item(price, queue[0])] + Items(price, queue[1..])
  }

  /** Levels in storage order, one queue after the other. */
  function Flat(ls: seq<Level>): seq<Resting> {
    if ls == [] then [] else Items(ls[0].price, ls[0].queue) + Flat(ls[1..])
  }

  /** Levels in reverse storage order. */
  function FlatBack(ls: seq<Level>): seq<Resting> {
    if ls == [] then [] else Items(ls[|ls| - 1].price, ls[|ls| - 1].queue) + FlatBack(ls[..|ls| - 1])
  }

  /** Keys in strict order: ascending for `Sell`, descending for `Buy`; no level is empty. */
  ghost predicate Ordered(side: Side, ls: seq<Level>) {
    && (forall i, j :: 0 <= i < j < |ls| ==> Better(side, ls[i].price, ls[j].price))
    && (forall i :: 0 <= i < |ls| ==> ls[i].queue != [])
  }

  // ----- the operations of the ordered map -----

  /** Position of the level with this price, or `|ls|`. */
  function Find(ls: seq<Level>, price: Price): (k: nat)
    ensures k <= |ls|
    ensures k < |ls| ==> ls[k].price == price
    ensures forall i :: 0 <= i < k ==> ls[i].price != price
  {
    if ls == [] || ls[0].price == price then 0 else 1 + Find(ls[1..], price)
  }

  /** Append a node to the level of this price, creating the level where the key order wants it. */
  function Push(side: Side, ls: seq<Level>, price: Price, n: Node): seq<Level> {
    if ls == [] || Better(side, price, ls[0].price) then [Level(price, [n])] + ls
    else if ls[0].price == price then [Level(price, ls[0].queue + [n])] + ls[1..]
    else [ls[0]] + Push(side, ls[1..], price, n)
  }

  function Unlink(queue: seq<Node>, node: nat): seq<Node> {
    if queue == [] then [] else
    if queue[0].node == node then queue[1..] else [queue[0]] + Unlink(queue[1..], node)
  }

  /** Erase a node from level `k`, and the level with it if it was the last one. */
  function Erase(ls: seq<Level>, k: nat, node: nat): seq<Level>
    requires k < |ls|
  {
    var q := Unlink(ls[k].queue, node);
    if q == [] then ls[..k] + ls[k + 1..] else ls[k := Level(ls[k].price, q)]
  }

  // ----- flattening -----

  lemma {:induction false} ItemsAppend(price: Price, q: seq<Node>, q': seq<Node>)
    ensures Items(price, q + q') == Items(price, q) + Items(price, q')
  {
    assert forall i :: 0 <= i < |q + q'| ==> Items(price, q + q')[i] == (Items(price, q) + Items(price, q'))[i];
  }

  lemma {:induction false} FlatAppend(ls: seq<Level>, ls': seq<Level>)
    ensures Flat(ls + ls') == Flat(ls) + Flat(ls')
  {
    if ls == [] {
      assert ls + ls' == ls';
    } else {
      assert (ls + ls')[1..] == ls[1..] + ls';
      FlatAppend(ls[1..], ls');
    }
  }

  lemma {:induction false} FlatBackAppend(ls: seq<Level>, ls': seq<Level>)
    ensures FlatBack(ls + ls') == FlatBack(ls') + FlatBack(ls)
  {
    if ls' == [] {
      assert ls + ls' == ls;
    } else {
      assert (ls + ls')[..|ls + ls'| - 1] == ls + ls'[..|ls'| - 1];
      FlatBackAppend(ls, ls'[..|ls'| - 1]);
    }
  }

  /** Every flattened entry comes from a level. */
  lemma {:induction false} FlatPrices(ls: seq<Level>, i: nat)
    requires i < |Flat(ls)|
    ensures exists k :: 0 <= k < |ls| && ls[k].price == Flat(ls)[i].price
  {
    var here := Items(ls[0].price, ls[0].queue);
    if i < |here| {
      assert Flat(ls)[i] == here[i];
    } else {
      FlatPrices(ls[1..], i - |here|);
      var k :| 0 <= k < |ls| - 1 && ls[1..][k].price == Flat(ls[1..])[i - |here|].price;
      assert ls[k + 1].price == Flat(ls)[i].price;
    }
  }

  lemma {:induction false} FlatBackPrices(ls: seq<Level>, i: nat)
    requires i < |FlatBack(ls)|
    ensures exists k :: 0 <= k < |ls| && ls[k].price == FlatBack(ls)[i].price
  {
    var n := |ls| - 1;
    var here := Items(ls[n].price, ls[n].queue);
    if i < |here| {
      assert FlatBack(ls)[i] == here[i];
    } else {
      FlatBackPrices(ls[..n], i - |here|);
      var k :| 0 <= k < n && ls[..n][k].price == FlatBack(ls[..n])[i - |here|].price;
      assert ls[k].price == FlatBack(ls)[i].price;
    }
  }

  // ----- insertion -----

  lemma {:induction false} InsertAfter(side: Side, a: seq<Resting>, b: seq<Resting>, r: Resting)
    requires forall i :: 0 <= i < |a| ==> !Better(side, r.price, a[i].price)
    ensures Insert(side, a + b, r) == a + Insert(side, b, r)
  {
    if a == [] {
      assert a + b == b;
    } else {
      assert (a + b)[1..] == a[1..] + b;
      InsertAfter(side, a[1..], b, r);
    }
  }

  lemma {:induction false} InsertBefore(side: Side, a: seq<Resting>, b: seq<Resting>, r: Resting)
    requires forall i :: 0 <= i < |b| ==> Better(side, r.price, b[i].price)
    ensures Insert(side, a + b, r) == Insert(side, a, r) + b
  {
    if a == [] {
      assert a + b == b;
      assert b != [] ==> Better(side, r.price, b[0].price);
    } else {
      assert (a + b)[1..] == a[1..] + b;
      InsertBefore(side, a[1..], b, r);
    }
  }

  lemma FlatHead(ls: seq<Level>)
    requires ls != [] && ls[0].queue != []
    ensures Flat(ls) != [] && Flat(ls)[0] == Item(ls[0].price, ls[0].queue[0])
  {
  }

  lemma FlatBackHead(ls: seq<Level>)
    requires ls != [] && ls[|ls| - 1].queue != []
    ensures FlatBack(ls) != [] && FlatBack(ls)[0] == Item(ls[|ls| - 1].price, ls[|ls| - 1].queue[0])
  {
  }

  lemma OrderedTail(side: Side, ls: seq<Level>)
    requires Ordered(side, ls) && ls != []
    ensures Ordered(side, ls[1..])
  {
  }

  /** On a book side stored best price first, pushing is inserting. */
  lemma {:induction false} FlatPush(side: Side, ls: seq<Level>, price: Price, n: Node)
    requires Ordered(side, ls)
    ensures Flat(Push(side, ls, price, n)) == Insert(side, Flat(ls), Item(price, n))
  {
    var r := Item(price, n);
    if ls == [] || Better(side, price, ls[0].price) {
      if ls != [] {
        FlatHead(ls);
      }
      assert ([Level(price, [n])] + ls)[1..] == ls;
      assert Items(price, [n]) == [r];
    } else {
      var here, rest := Items(ls[0].price, ls[0].queue), Flat(ls[1..]);
      InsertAfter(side, here, rest, r);
      if ls[0].price == price {
        assert ([Level(price, ls[0].queue + [n])] + ls[1..])[1..] == ls[1..];
        ItemsAppend(price, ls[0].queue, [n]);
        assert Items(price, [n]) == [r];
        if ls[1..] != [] {
          FlatHead(ls[1..]);
        }
        assert here + ([r] + rest) == here + [r] + rest;
      } else {
        OrderedTail(side, ls);
        FlatPush(side, ls[1..], price, n);
        assert ([ls[0]] + Push(side, ls[1..], price, n))[1..] == Push(side, ls[1..], price, n);
      }
    }
  }

  lemma FlatBackCons(l: Level, ls: seq<Level>)
    ensures FlatBack([l] + ls) == FlatBack(ls) + Items(l.price, l.queue)
  {
    FlatBackAppend([l], ls);
    assert [l][..0] == [];
    assert FlatBack([l]) == Items(l.price, l.queue);
  }

  /** The worst price of an ascending store is its first, so everything in it is at least as good for a buyer's
      queue. */
  lemma FlatBackAtLeast(ls: seq<Level>, price: Price)
    requires Ordered(Sell, ls) && (ls != [] ==> price <= ls[0].price)
    ensures forall i :: 0 <= i < |FlatBack(ls)| ==> FlatBack(ls)[i].price >= price
  {
    forall i | 0 <= i < |FlatBack(ls)| ensures FlatBack(ls)[i].price >= price {
      FlatBackPrices(ls, i);
    }
  }

  /** Pushing an order is inserting it into the list read from the back. */
  ghost predicate PushInserts(ls: seq<Level>, price: Price, n: Node) {
    FlatBack(Push(Sell, ls, price, n)) == Insert(Buy, FlatBack(ls), Item(price, n))
  }

  /** A new worst level. */
  lemma {:induction false} FlatBackPushNew(ls: seq<Level>, price: Price, n: Node)
    requires Ordered(Sell, ls) && (ls == [] || price < ls[0].price)
    ensures PushInserts(ls, price, n)
  {
    assert Items(price, [n]) == [Item(price, n)];
    FlatBackCons(Level(price, [n]), ls);
    FlatBackAtLeast(ls, price);
    InsertAfter(Buy, FlatBack(ls), [], Item(price, n));
    assert FlatBack(ls) + [] == FlatBack(ls);
  }

  /** The worst level is the one. */
  lemma {:induction false} FlatBackPushHere(ls: seq<Level>, price: Price, n: Node)
    requires Ordered(Sell, ls) && ls != [] && ls[0].price == price
    ensures PushInserts(ls, price, n)
  {
    var l, t, r := ls[0], ls[1..], Item(price, n);
    assert ls == [l] + t;
    assert Items(price, [n]) == [r];
    FlatBackCons(l, t);
    FlatBackCons(Level(price, l.queue + [n]), t);
    ItemsAppend(price, l.queue, [n]);
    FlatBackAtLeast(ls, price);
    InsertAfter(Buy, FlatBack(ls), [], r);
    assert FlatBack(ls) + [] == FlatBack(ls);
    assert FlatBack(t) + (Items(price, l.queue) + [r]) == FlatBack(t) + Items(price, l.queue) + [r];
  }

  /** The order goes to a better level. */
  lemma {:induction false} FlatBackPushOn(ls: seq<Level>, price: Price, n: Node)
    requires ls != [] && ls[0].price < price && PushInserts(ls[1..], price, n)
    ensures PushInserts(ls, price, n)
  {
    var l, t := ls[0], ls[1..];
    assert ls == [l] + t;
    FlatBackCons(l, t);
    FlatBackCons(l, Push(Sell, t, price, n));
    InsertBefore(Buy, FlatBack(t), Items(l.price, l.queue), Item(price, n));
  }

  /** On bids stored in ascending order, best at the back, pushing is inserting into the reversed list. */
  lemma {:induction false} FlatBackPush(ls: seq<Level>, price: Price, n: Node)
    requires Ordered(Sell, ls)
    ensures PushInserts(ls, price, n)
  {
    if ls == [] || price < ls[0].price {
      FlatBackPushNew(ls, price, n);
    } else if ls[0].price == price {
      FlatBackPushHere(ls, price, n);
    } else {
      OrderedTail(Sell, ls);
      FlatBackPush(ls[1..], price, n);
      FlatBackPushOn(ls, price, n);
    }
  }

  lemma {:induction false} PushKeepsOrder(side: Side, ls: seq<Level>, price: Price, n: Node)
    requires Ordered(side, ls)
    ensures Ordered(side, Push(side, ls, price, n))
    ensures Push(side, ls, price, n) != []
    ensures forall i :: 0 <= i < |Push(side, ls, price, n)| ==>
              || Push(side, ls, price, n)[i].price == price
              || exists j :: 0 <= j < |ls| && ls[j].price == Push(side, ls, price, n)[i].price
  {
    if !(ls == [] || Better(side, price, ls[0].price)) && ls[0].price != price {
      OrderedTail(side, ls);
      PushKeepsOrder(side, ls[1..], price, n);
      var t := Push(side, ls[1..], price, n);
      forall i | 0 <= i < |t|
        ensures Better(side, ls[0].price, t[i].price)
        ensures t[i].price == price || exists j :: 0 <= j < |ls| && ls[j].price == t[i].price
      {
        if t[i].price != price {
          var j :| 0 <= j < |ls| - 1 && ls[1..][j].price == t[i].price;
          assert ls[j + 1].price == t[i].price;
        }
      }
    }
  }

  // ----- erasing -----

  lemma {:induction false} WithoutAfter(a: seq<Resting>, b: seq<Resting>, node: nat)
    requires forall i :: 0 <= i < |a| ==> a[i].node != node
    ensures Without(a + b, node) == a + Without(b, node)
  {
    if a == [] {
      assert a + b == b;
    } else {
      assert (a + b)[1..] == a[1..] + b;
      WithoutAfter(a[1..], b, node);
    }
  }

  lemma {:induction false} WithoutBefore(a: seq<Resting>, b: seq<Resting>, node: nat)
    requires exists i :: 0 <= i < |a| && a[i].node == node
    ensures Without(a + b, node) == Without(a, node) + b
  {
    assert (a + b)[1..] == a[1..] + b;
    if a[0].node != node {
      var i :| 0 <= i < |a| && a[i].node == node;
      assert a[1..][i - 1].node == node;
      WithoutBefore(a[1..], b, node);
    }
  }

  lemma {:induction false} UnlinkItems(price: Price, queue: seq<Node>, node: nat)
    ensures Items(price, Unlink(queue, node)) == Without(Items(price, queue), node)
  {
    if queue != [] {
      assert Items(price, queue)[1..] == Items(price, queue[1..]);
      if queue[0].node != node {
        UnlinkItems(price, queue[1..], node);
        var u := [queue[0]] + Unlink(queue[1..], node);
        assert u[1..] == Unlink(queue[1..], node);
      }
    }
  }

  lemma FlatCons(l: Level, ls: seq<Level>)
    ensures Flat([l] + ls) == Items(l.price, l.queue) + Flat(ls)
  {
    assert ([l] + ls)[1..] == ls;
  }

  lemma SplitAt(ls: seq<Level>, k: nat)
    requires k < |ls|
    ensures ls == ls[..k] + ([ls[k]] + ls[k + 1..])
  {
  }

  lemma Associate(a: seq<Resting>, m: seq<Resting>, b: seq<Resting>)
    ensures a + (m + b) == a + m + b
  {
  }

  /** A list of levels around level `k`. */
  lemma {:induction false} FlatAround(ls: seq<Level>, k: nat)
    requires k < |ls|
    ensures Flat(ls) == Flat(ls[..k]) + Items(ls[k].price, ls[k].queue) + Flat(ls[k + 1..])
  {
    SplitAt(ls, k);
    FlatAppend(ls[..k], [ls[k]] + ls[k + 1..]);
    FlatCons(ls[k], ls[k + 1..]);
    Associate(Flat(ls[..k]), Items(ls[k].price, ls[k].queue), Flat(ls[k + 1..]));
  }

  lemma {:induction false} FlatBackAround(ls: seq<Level>, k: nat)
    requires k < |ls|
    ensures FlatBack(ls) == FlatBack(ls[k + 1..]) + Items(ls[k].price, ls[k].queue) + FlatBack(ls[..k])
  {
    SplitAt(ls, k);
    FlatBackAppend(ls[..k], [ls[k]] + ls[k + 1..]);
    FlatBackCons(ls[k], ls[k + 1..]);
  }

  lemma EraseAround(ls: seq<Level>, k: nat, node: nat)
    requires k < |ls|
    ensures var q := Items(ls[k].price, Unlink(ls[k].queue, node));
            && Flat(Erase(ls, k, node)) == Flat(ls[..k]) + q + Flat(ls[k + 1..])
            && FlatBack(Erase(ls, k, node)) == FlatBack(ls[k + 1..]) + q + FlatBack(ls[..k])
  {
    var u := Unlink(ls[k].queue, node);
    if u == [] {
      FlatAppend(ls[..k], ls[k + 1..]);
      FlatBackAppend(ls[..k], ls[k + 1..]);
      assert Flat(ls[..k]) + [] == Flat(ls[..k]);
      assert FlatBack(ls[k + 1..]) + [] == FlatBack(ls[k + 1..]);
    } else {
      var e := ls[k := Level(ls[k].price, u)];
      FlatAround(e, k);
      FlatBackAround(e, k);
      assert e[..k] == ls[..k] && e[k + 1..] == ls[k + 1..];
    }
  }

  ghost predicate HasNode(rs: seq<Resting>, node: nat) {
    exists i :: 0 <= i < |rs| && rs[i].node == node
  }

  /** The node of an order resting at `price` is in the level of that price, and nowhere else. */
  lemma {:induction false} NodeInLevel(side: Side, ls: seq<Level>, rs: seq<Resting>, a: seq<Resting>,
                                       b: seq<Resting>, id: OrderId, loc: Location, nextNode: nat)
    requires Ordered(side, ls) && Resident(rs, nextNode) && RestsAt(rs, id, loc)
    requires var k := Find(ls, loc.price); k < |ls| ==> rs == a + Items(ls[k].price, ls[k].queue) + b
    requires forall i :: 0 <= i < |a| ==> a[i].price != loc.price
    requires forall i :: 0 <= i < |b| ==> b[i].price != loc.price
    requires Find(ls, loc.price) < |ls|
    ensures var k := Find(ls, loc.price); HasNode(Items(ls[k].price, ls[k].queue), loc.node) && !HasNode(a, loc.node)
  {
    var m := Items(ls[Find(ls, loc.price)].price, ls[Find(ls, loc.price)].queue);
    var i :| 0 <= i < |rs| && rs[i].node == loc.node && rs[i].id == id && rs[i].price == loc.price;
    assert |a| <= i < |a| + |m|;
    assert m[i - |a|] == rs[i];
    forall j | 0 <= j < |a| ensures a[j].node != loc.node {
      assert rs[j] == a[j];
    }
  }

  /** No order in these levels has this price. */
  ghost predicate Misses(ls: seq<Level>, price: Price) {
    forall i :: 0 <= i < |ls| ==> ls[i].price != price
  }

  lemma MissesFlat(ls: seq<Level>, price: Price)
    requires Misses(ls, price)
    ensures forall i :: 0 <= i < |Flat(ls)| ==> Flat(ls)[i].price != price
    ensures forall i :: 0 <= i < |FlatBack(ls)| ==> FlatBack(ls)[i].price != price
  {
    forall i | 0 <= i < |Flat(ls)| ensures Flat(ls)[i].price != price { FlatPrices(ls, i); }
    forall i | 0 <= i < |FlatBack(ls)| ensures FlatBack(ls)[i].price != price { FlatBackPrices(ls, i); }
  }

  lemma FindIsUnique(side: Side, ls: seq<Level>, price: Price)
    requires Ordered(side, ls) && Find(ls, price) < |ls|
    ensures Misses(ls[..Find(ls, price)], price) && Misses(ls[Find(ls, price) + 1..], price)
  {
  }

  lemma FindsPrice(ls: seq<Level>, price: Price, k: nat)
    requires k < |ls| && ls[k].price == price
    ensures Find(ls, price) < |ls|
  {
    assert Find(ls, price) <= k;
  }

  /** An order that rests has a level. */
  lemma {:induction false} RestingHasLevel(ls: seq<Level>, id: OrderId, loc: Location)
    requires RestsAt(Flat(ls), id, loc)
    ensures Find(ls, loc.price) < |ls|
  {
    var i :| 0 <= i < |Flat(ls)| && Flat(ls)[i].node == loc.node && Flat(ls)[i].id == id
        && Flat(ls)[i].price == loc.price;
    FlatPrices(ls, i);
    var k :| 0 <= k < |ls| && ls[k].price == loc.price;
    FindsPrice(ls, loc.price, k);
  }

  lemma {:induction false} RestingHasLevelBack(ls: seq<Level>, id: OrderId, loc: Location)
    requires RestsAt(FlatBack(ls), id, loc)
    ensures Find(ls, loc.price) < |ls|
  {
    var i :| 0 <= i < |FlatBack(ls)| && FlatBack(ls)[i].node == loc.node && FlatBack(ls)[i].id == id
        && FlatBack(ls)[i].price == loc.price;
    FlatBackPrices(ls, i);
    var k :| 0 <= k < |ls| && ls[k].price == loc.price;
    FindsPrice(ls, loc.price, k);
  }

  lemma WithoutMiddle(a: seq<Resting>, m: seq<Resting>, b: seq<Resting>, node: nat)
    requires HasNode(m, node) && !HasNode(a, node)
    ensures Without(a + m + b, node) == a + Without(m, node) + b
  {
    assert a + m + b == a + (m + b);
    WithoutAfter(a, m + b, node);
    WithoutBefore(m, b, node);
    assert a + (Without(m, node) + b) == a + Without(m, node) + b;
  }

  /** Erasing an order's node from its level removes it from the flat list. */
  lemma {:induction false} FlatErase(side: Side, ls: seq<Level>, id: OrderId, loc: Location, nextNode: nat)
    requires Ordered(side, ls) && Resident(Flat(ls), nextNode) && RestsAt(Flat(ls), id, loc)
    ensures Find(ls, loc.price) < |ls|
    ensures Flat(Erase(ls, Find(ls, loc.price), loc.node)) == Without(Flat(ls), loc.node)
  {
    RestingHasLevel(ls, id, loc);
    var k := Find(ls, loc.price);
    var a, m, b := Flat(ls[..k]), Items(ls[k].price, ls[k].queue), Flat(ls[k + 1..]);
    FlatAround(ls, k);
    FindIsUnique(side, ls, loc.price);
    MissesFlat(ls[..k], loc.price);
    MissesFlat(ls[k + 1..], loc.price);
    NodeInLevel(side, ls, Flat(ls), a, b, id, loc, nextNode);
    WithoutMiddle(a, m, b, loc.node);
    UnlinkItems(ls[k].price, ls[k].queue, loc.node);
    EraseAround(ls, k, loc.node);
  }

  lemma {:induction false} FlatBackErase(side: Side, ls: seq<Level>, id: OrderId, loc: Location, nextNode: nat)
    requires Ordered(side, ls) && Resident(FlatBack(ls), nextNode) && RestsAt(FlatBack(ls), id, loc)
    ensures Find(ls, loc.price) < |ls|
    ensures FlatBack(Erase(ls, Find(ls, loc.price), loc.node)) == Without(FlatBack(ls), loc.node)
  {
    RestingHasLevelBack(ls, id, loc);
    var k := Find(ls, loc.price);
    var a, m, b := FlatBack(ls[k + 1..]), Items(ls[k].price, ls[k].queue), FlatBack(ls[..k]);
    FlatBackAround(ls, k);
    FindIsUnique(side, ls, loc.price);
    MissesFlat(ls[..k], loc.price);
    MissesFlat(ls[k + 1..], loc.price);
    NodeInLevel(side, ls, FlatBack(ls), a, b, id, loc, nextNode);
    WithoutMiddle(a, m, b, loc.node);
    UnlinkItems(ls[k].price, ls[k].queue, loc.node);
    EraseAround(ls, k, loc.node);
  }

  lemma EraseKeepsOrder(side: Side, ls: seq<Level>, k: nat, node: nat)
    requires Ordered(side, ls) && k < |ls|
    ensures Ordered(side, Erase(ls, k, node))
  {
  }

  // ----- matching level by level -----

  /** The taker seen by a level that is known to be within its limit. */
  function Sweeper(o: Order): Order {
    Order(o.id, o.side, 0, 0, Market)
  }

  /** A taker meets the first level with no regard to its limit, and the rest with what it has left. */
  lemma {:induction false} MatchLevel(o: Order, q: Qty, a: seq<Resting>, b: seq<Resting>, index: map<OrderId, Location>)
    requires forall i :: 0 <= i < |a| ==> Crosses(o, a[i].price)
    ensures var r := Match(Sweeper(o), q, a, index);
            Match(o, q, a + b, index) ==
              if r.makers == [] then Prepend(r.fills, Match(o, r.remaining, b, r.index))
              else Matched(r.fills, r.makers + b, r.index, 0)
  {
    if a == [] {
      assert a + b == b;
    } else if q > 0 {
      assert (a + b)[1..] == a[1..] + b;
      if a[0].qty <= q {
        MatchLevel(o, q - a[0].qty, a[1..], b, index - {a[0].id});
        var r := Match(Sweeper(o), q - a[0].qty, a[1..], index - {a[0].id});
        var f := [FillAgainst(o, a[0], q)];
        assert f + (r.fills + Match(o, r.remaining, b, r.index).fills)
               == f + r.fills + Match(o, r.remaining, b, r.index).fills;
      } else {
        assert [a[0].(qty := a[0].qty - q)] + (a[1..] + b) == [a[0].(qty := a[0].qty - q)] + a[1..] + b;
      }
    }
  }

  lemma ItemsTail(price: Price, queue: seq<Node>)
    requires queue != []
    ensures Items(price, queue) != [] && Items(price, queue)[0] == Item(price, queue[0])
    ensures Items(price, queue)[1..] == Items(price, queue[1..])
  {
  }

  /** One turn of the queue loop: the front order is filled, and unlinked when nothing is left of it. */
  lemma MatchFrontGone(o: Order, q: Qty, price: Price, queue: seq<Node>, index: map<OrderId, Location>)
    requires q > 0 && queue != [] && o.kind.Market? && queue[0].qty <= q
    ensures Match(o, q, Items(price, queue), index) ==
            Prepend([Fill(queue[0].id, o.id, price, queue[0].qty, o.side)],
                    Match(o, q - queue[0].qty, Items(price, queue[1..]), index - {queue[0].id}))
  {
    ItemsTail(price, queue);
  }

  lemma MatchFrontShrinks(o: Order, q: Qty, price: Price, queue: seq<Node>, index: map<OrderId, Location>)
    requires q > 0 && queue != [] && o.kind.Market? && queue[0].qty > q
    ensures Match(o, q, Items(price, queue), index) ==
            Prepend([Fill(queue[0].id, o.id, price, q, o.side)],
                    Match(o, 0, Items(price, queue[0 := queue[0].(qty := queue[0].qty - q)]), index))
  {
    var queue' := queue[0 := queue[0].(qty := queue[0].qty - q)];
    ItemsTail(price, queue);
    ItemsTail(price, queue');
    assert queue'[1..] == queue[1..];
    assert Items(price, queue') == [Item(price, queue'[0])] + Items(price, queue[1..]);
  }

  /** The queue after its front order was filled by `f`. */
  function AfterFront(queue: seq<Node>, f: Qty): seq<Node>
    requires queue != [] && f <= queue[0].qty
  {
    if queue[0].qty == f then queue[1..] else queue[0 := queue[0].(qty := queue[0].qty - f)]
  }

  lemma MatchFront(o: Order, q: Qty, price: Price, queue: seq<Node>, index: map<OrderId, Location>)
    requires q > 0 && queue != [] && o.kind.Market?
    ensures var n, f := queue[0], Min(q, queue[0].qty);
            Match(o, q, Items(price, queue), index) ==
            Prepend([Fill(n.id, o.id, price, f, o.side)],
                    Match(o, q - f, Items(price, AfterFront(queue, f)), if n.qty == f then index - {n.id} else index))
  {
    if queue[0].qty <= q {
      MatchFrontGone(o, q, price, queue, index);
    } else {
      MatchFrontShrinks(o, q, price, queue, index);
    }
  }

  lemma PrependPrepend(f: seq<Fill>, g: seq<Fill>, m: Matched)
    ensures Prepend(f, Prepend(g, m)) == Prepend(f + g, m)
  {
    assert f + (g + m.fills) == f + g + m.fills;
  }

  /** One turn of the level loop: the best level is swept, and what is left goes on to the other levels. */
  lemma MatchBestLevel(o: Order, q: Qty, price: Price, queue: seq<Node>, rest: seq<Resting>,
                       index: map<OrderId, Location>)
    requires Crosses(o, price)
    ensures var r := Match(Sweeper(o), q, Items(price, queue), index);
            && Match(o, q, Items(price, queue) + rest, index) ==
                 Prepend(r.fills, Match(o, r.remaining, r.makers + rest, r.index))
            && (r.makers != [] ==> r.remaining == 0)
  {
    var a := Items(price, queue);
    MatchLevel(o, q, a, rest, index);
    MatchConsumesPrefix(Sweeper(o), q, a, index);
    var r := Match(Sweeper(o), q, a, index);
    if r.makers == [] {
      assert r.makers + rest == rest;
    } else {
      assert r.fills + [] == r.fills;
    }
  }

  /** The level list after its first level was reduced to `queue`. */
  function DropFront(ls: seq<Level>, queue: seq<Node>): seq<Level>
    requires ls != []
  {
    if queue == [] then ls[1..] else ls[0 := Level(ls[0].price, queue)]
  }

  function DropBack(ls: seq<Level>, queue: seq<Node>): seq<Level>
    requires ls != []
  {
    if queue == [] then ls[..|ls| - 1] else ls[|ls| - 1 := Level(ls[|ls| - 1].price, queue)]
  }

  /** Sweeping the first level, for sides stored best price first. */
  lemma {:induction false} SweepFront(side: Side, o: Order, q: Qty, ls: seq<Level>, index: map<OrderId, Location>,
                                      queue: seq<Node>)
    requires Ordered(side, ls) && ls != [] && q > 0 && Crosses(o, ls[0].price)
    requires Items(ls[0].price, queue) == Match(Sweeper(o), q, Items(ls[0].price, ls[0].queue), index).makers
    ensures var r, ls' := Match(Sweeper(o), q, Items(ls[0].price, ls[0].queue), index), DropFront(ls, queue);
            && Ordered(side, ls')
            && Match(o, q, Flat(ls), index) == Prepend(r.fills, Match(o, r.remaining, Flat(ls'), r.index))
            && |ls'| + (if r.remaining > 0 then 1 else 0) < |ls| + 1
  {
    MatchBestLevel(o, q, ls[0].price, ls[0].queue, Flat(ls[1..]), index);
    if queue == [] {
      assert [] + Flat(ls[1..]) == Flat(ls[1..]);
    } else {
      var ls' := ls[0 := Level(ls[0].price, queue)];
      assert ls'[1..] == ls[1..];
    }
  }

  /** Sweeping the last level, for sides stored best price last. */
  lemma {:induction false} SweepBack(side: Side, o: Order, q: Qty, ls: seq<Level>, index: map<OrderId, Location>,
                                     queue: seq<Node>)
    requires Ordered(side, ls) && ls != [] && q > 0 && Crosses(o, ls[|ls| - 1].price)
    requires var l := ls[|ls| - 1]; Items(l.price, queue) == Match(Sweeper(o), q, Items(l.price, l.queue), index).makers
    ensures var l, ls' := ls[|ls| - 1], DropBack(ls, queue);
            var r := Match(Sweeper(o), q, Items(l.price, l.queue), index);
            && Ordered(side, ls')
            && Match(o, q, FlatBack(ls), index) == Prepend(r.fills, Match(o, r.remaining, FlatBack(ls'), r.index))
            && |ls'| + (if r.remaining > 0 then 1 else 0) < |ls| + 1
  {
    var n := |ls| - 1;
    MatchBestLevel(o, q, ls[n].price, ls[n].queue, FlatBack(ls[..n]), index);
    if queue == [] {
      assert [] + FlatBack(ls[..n]) == FlatBack(ls[..n]);
    } else {
      var ls' := ls[n := Level(ls[n].price, queue)];
      assert ls'[..n] == ls[..n];
    }
  }

  /** A taker that is satisfied, finds no level, or finds the best one outside its limit is done. */
  lemma SweepDone(o: Order, q: Qty, rs: seq<Resting>, index: map<OrderId, Location>, fs: seq<Fill>)
    requires q == 0 || rs == [] || !Crosses(o, rs[0].price)
    ensures Prepend(fs, Match(o, q, rs, index)) == Matched(fs, rs, index, q)
  {
    assert fs + [] == fs;
  }

  /** Fills made so far and the match still to come add up to `goal`. */
  ghost predicate OnTrack(goal: Matched, fs: seq<Fill>, m: Matched) {
    goal == Prepend(fs, m)
  }

  lemma StayOnTrack(goal: Matched, fs: seq<Fill>, m: Matched, gs: seq<Fill>, m': Matched)
    requires OnTrack(goal, fs, m) && m == Prepend(gs, m')
    ensures OnTrack(goal, fs + gs, m')
  {
    PrependPrepend(fs, gs, m');
  }

  // ----- depth -----

  function QueueQty(q: seq<Node>): nat {
    if q == [] then 0 else QueueQty(q[..|q| - 1]) + q[|q| - 1].qty
  }

  lemma {:induction false} DepthAppend(a: seq<Resting>, b: seq<Resting>, price: Price)
    ensures Depth(a + b, price) == Depth(a, price) + Depth(b, price)
  {
    if a == [] {
      assert a + b == b;
    } else {
      assert (a + b)[1..] == a[1..] + b;
      DepthAppend(a[1..], b, price);
    }
  }

  lemma {:induction false} DepthOfQueue(price: Price, q: seq<Node>)
    ensures Depth(Items(price, q), price) == QueueQty(q)
  {
    if q != [] {
      var n := |q| - 1;
      assert q == q[..n] + [q[n]];
      ItemsAppend(price, q[..n], [q[n]]);
      DepthAppend(Items(price, q[..n]), Items(price, [q[n]]), price);
      DepthOfQueue(price, q[..n]);
      assert Items(price, [q[n]]) == [Item(price, q[n])];
    }
  }

  lemma {:induction false} DepthElsewhere(rs: seq<Resting>, price: Price)
    requires forall i :: 0 <= i < |rs| ==> rs[i].price != price
    ensures Depth(rs, price) == 0
  {
    if rs != [] {
      DepthElsewhere(rs[1..], price);
    }
  }

  /** The depth at a price is the quantity in its level. */
  lemma {:induction false} DepthOfLevel(side: Side, ls: seq<Level>, price: Price)
    requires Ordered(side, ls)
    ensures var k := Find(ls, price);
            var d := if k < |ls| then QueueQty(ls[k].queue) else 0;
            Depth(Flat(ls), price) == d && Depth(FlatBack(ls), price) == d
  {
    var k := Find(ls, price);
    if k < |ls| {
      FlatAround(ls, k);
      FlatBackAround(ls, k);
      FindIsUnique(side, ls, price);
      MissesFlat(ls[..k], price);
      MissesFlat(ls[k + 1..], price);
      var m := Items(ls[k].price, ls[k].queue);
      DepthOfQueue(price, ls[k].queue);
      DepthMiddle(Flat(ls[..k]), m, Flat(ls[k + 1..]), price);
      DepthMiddle(FlatBack(ls[k + 1..]), m, FlatBack(ls[..k]), price);
    } else {
      MissesFlat(ls, price);
      DepthElsewhere(Flat(ls), price);
      DepthElsewhere(FlatBack(ls), price);
    }
  }

  lemma DepthMiddle(a: seq<Resting>, m: seq<Resting>, b: seq<Resting>, price: Price)
    requires forall i :: 0 <= i < |a| ==> a[i].price != price
    requires forall i :: 0 <= i < |b| ==> b[i].price != price
    ensures Depth(a + m + b, price) == Depth(m, price)
  {
    DepthAppend(a + m, b, price);
    DepthAppend(a, m, price);
    DepthElsewhere(a, price);
    DepthElsewhere(b, price);
  }
}
