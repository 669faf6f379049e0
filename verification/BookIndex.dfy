/** Cancellation, and when the index is exactly the set of resting orders. */
module BookIndex {
  import opened BookSpec
  import opened BookInvariant
  import opened BookLaws

  // ----- cancellation -----

  lemma {:induction false} WithoutInserted(side: Side, rs: seq<Resting>, r: Resting)
    requires forall i :: 0 <= i < |rs| ==> rs[i].node != r.node
    ensures Without(Insert(side, rs, r), r.node) == rs
  {
    if !(rs == [] || Better(side, r.price, rs[0].price)) {
      WithoutInserted(side, rs[1..], r);
      var s := [rs[0]] + Insert(side, rs[1..], r);
      assert s[1..] == Insert(side, rs[1..], r);
    } else {
      assert ([r] + rs)[1..] == rs;
    }
  }

  /** Cancelling an order that was just placed under a new id undoes the placement. */
  lemma PlaceThenCancel(b: Book, id: OrderId, side: Side, price: Price, qty: Qty)
    requires id !in b.index && Resident(SideOf(b, side), b.nextNode)
    ensures Cancel(Place(b, id, side, price, qty), id) == b.(nextNode := b.nextNode + 1)
  {
    WithoutInserted(side, SideOf(b, side), Resting(b.nextNode, id, price, qty));
    assert b.index[id := Location(side, price, b.nextNode)] - {id} == b.index;
  }

  /** Adding a limit order with an id that is not in the index and cancelling it leaves what matching alone
      leaves (up to the node counter): every other order keeps its place, and the cancel succeeds exactly when a
      remainder rested. */
  lemma LimitThenCancel(b: Book, o: Order)
    requires Inv(b) && o.kind.Limit? && o.id !in b.index
    ensures var a, t := Add(b, o), Taken(b, o);
            && (o.id in a.index <==> Outcome(b, o).remaining > 0)
            && Cancel(a, o.id) == t.(nextNode := a.nextNode)
  {
    MatchForgets(o, o.qty, SideOf(b, Other(o.side)), b.index);
    assert o.id !in Taken(b, o).index;
    TakenKeepsInv(b, o);
    if Outcome(b, o).remaining > 0 {
      PlaceThenCancel(Taken(b, o), o.id, o.side, o.price, Outcome(b, o).remaining);
    }
  }

  lemma {:induction false} WithoutCommutes(rs: seq<Resting>, x: nat, y: nat)
    ensures Without(Without(rs, x), y) == Without(Without(rs, y), x)
  {
    if rs != [] && x != y {
      var t := rs[1..];
      WithoutCommutes(t, x, y);
      assert forall n :: rs[0].node != n ==> Without(rs, n) == [rs[0]] + Without(t, n);
      assert forall n :: rs[0].node != n ==> ([rs[0]] + Without(t, n))[1..] == Without(t, n);
    }
  }

  /** Cancels of any two ids commute, on every book. */
  lemma CancelsCommute(b: Book, x: OrderId, y: OrderId)
    ensures Cancel(Cancel(b, x), y) == Cancel(Cancel(b, y), x)
  {
    if x in b.index && y in b.index {
      WithoutCommutes(b.bids, b.index[x].node, b.index[y].node);
      WithoutCommutes(b.asks, b.index[x].node, b.index[y].node);
    }
    assert b.index - {x} - {y} == b.index - {y} - {x};
  }

  // ----- the index -----

  /** Every resting order is in the index, with its side, price and node. */
  ghost predicate Listed(side: Side, rs: seq<Resting>, index: map<OrderId, Location>) {
    forall i :: 0 <= i < |rs| ==> rs[i].id in index && index[rs[i].id] == Location(side, rs[i].price, rs[i].node)
  }

  ghost predicate Exact(b: Book) {
    Listed(Buy, b.bids, b.index) && Listed(Sell, b.asks, b.index)
  }

  predicate Rests(rs: seq<Resting>, id: OrderId) {
    exists i :: 0 <= i < |rs| && rs[i].id == id
  }

  lemma ListedIdsDiffer(side: Side, rs: seq<Resting>, index: map<OrderId, Location>, nextNode: nat)
    requires Listed(side, rs, index) && Resident(rs, nextNode)
    ensures forall i, j :: 0 <= i < j < |rs| ==> rs[i].id != rs[j].id
  {
  }

  lemma {:induction false} IdsOfCount(rs: seq<Resting>)
    requires forall i, j :: 0 <= i < j < |rs| ==> rs[i].id != rs[j].id
    ensures |IdsOf(rs)| == |rs|
  {
    if rs == [] {
      assert IdsOf(rs) == {};
    } else {
      var k := |rs| - 1;
      IdsOfCount(rs[..k]);
      forall x ensures x in IdsOf(rs) <==> x in IdsOf(rs[..k]) + {rs[k].id} {
        if x in IdsOf(rs[..k]) {
          var i :| 0 <= i < k && rs[..k][i].id == x;
          assert rs[i].id == x;
        }
        if x in IdsOf(rs) {
          var i :| 0 <= i < |rs| && rs[i].id == x;
          assert i < k ==> rs[..k][i].id == x;
        }
      }
      assert IdsOf(rs) == IdsOf(rs[..k]) + {rs[k].id};
      assert rs[k].id !in IdsOf(rs[..k]);
    }
  }

  lemma IndexKeys(b: Book)
    requires Indexed(b) && Exact(b)
    ensures b.index.Keys == IdsOf(b.bids) + IdsOf(b.asks) && IdsOf(b.bids) !! IdsOf(b.asks)
  {
    forall id | id in b.index ensures id in IdsOf(b.bids) + IdsOf(b.asks) {
      var rs := SideOf(b, b.index[id].side);
      var i :| 0 <= i < |rs| && rs[i].id == id;
      assert rs[i].id in IdsOf(rs);
    }
  }

  /** With an exact index, `len` is the number of resting orders. */
  lemma ExactCounts(b: Book)
    requires Inv(b) && Exact(b)
    ensures |b.index| == |b.bids| + |b.asks|
  {
    ListedIdsDiffer(Buy, b.bids, b.index, b.nextNode);
    ListedIdsDiffer(Sell, b.asks, b.index, b.nextNode);
    IdsOfCount(b.bids);
    IdsOfCount(b.asks);
    IndexKeys(b);
    assert |b.index| == |b.index.Keys|;
  }

  // ----- when the index stays exact -----

  lemma MatchKeepsListed(side: Side, o: Order, q: Qty, ms: seq<Resting>, index: map<OrderId, Location>, nextNode: nat)
    requires Listed(side, ms, index) && Resident(ms, nextNode)
    ensures var r := Match(o, q, ms, index); Listed(side, r.makers, r.index)
  {
    MatchConsumesPrefix(o, q, ms, index);
    MatchForgets(o, q, ms, index);
    ListedIdsDiffer(side, ms, index, nextNode);
    var k, ms' := Consumed(o, q, ms), Match(o, q, ms, index).makers;
    assert forall j :: 0 <= j < k ==> ms[..k][j] == ms[j];
    forall i | 0 <= i < |ms'|
      ensures ms'[i].id == ms[k + i].id && ms[k + i].id !in IdsOf(ms[..k])
              && ms'[i].node == ms[k + i].node && ms'[i].price == ms[k + i].price
    {
    }
  }

  lemma MatchSparesOtherSide(side: Side, o: Order, q: Qty, ms: seq<Resting>, index: map<OrderId, Location>,
                             rs: seq<Resting>)
    requires Listed(side, ms, index) && Listed(Other(side), rs, index)
    ensures Listed(Other(side), rs, Match(o, q, ms, index).index)
  {
    MatchForgets(o, q, ms, index);
    var k := Consumed(o, q, ms);
    assert forall j :: 0 <= j < k ==> ms[..k][j] == ms[j];
  }

  /** The ids consumed by matching are not among those left: exactness survives matching. */
  lemma TakenKeepsExact(b: Book, o: Order)
    requires Inv(b) && Exact(b)
    ensures Exact(Taken(b, o))
  {
    var side := Other(o.side);
    MatchKeepsListed(side, o, o.qty, SideOf(b, side), b.index, b.nextNode);
    MatchSparesOtherSide(side, o, o.qty, SideOf(b, side), b.index, SideOf(b, o.side));
  }

  /** A second resting order of one id hides the first from the index. */
  lemma InsertHides(side: Side, rs: seq<Resting>, r: Resting, index: map<OrderId, Location>)
    requires Resident(rs, r.node) && Rests(rs, r.id)
    ensures !Listed(side, Insert(side, rs, r), index[r.id := Location(side, r.price, r.node)])
  {
    InsertIsSplice(side, rs, r);
    var p, s := InsertPos(side, rs, r.price), Insert(side, rs, r);
    var i :| 0 <= i < |rs| && rs[i].id == r.id;
    assert s[if i < p then i else i + 1] == rs[i];
  }

  lemma InsertListed(side: Side, rs: seq<Resting>, r: Resting, index: map<OrderId, Location>)
    requires Listed(side, rs, index) && !Rests(rs, r.id)
    ensures Listed(side, Insert(side, rs, r), index[r.id := Location(side, r.price, r.node)])
  {
    InsertIsSplice(side, rs, r);
    var p, s := InsertPos(side, rs, r.price), Insert(side, rs, r);
    var index' := index[r.id := Location(side, r.price, r.node)];
    forall i | 0 <= i < |s| ensures s[i].id in index' && index'[s[i].id] == Location(side, s[i].price, s[i].node) {
      assert i != p ==> s[i] == rs[if i < p then i else i - 1];
    }
  }

  lemma OtherListedIff(side: Side, rs: seq<Resting>, index: map<OrderId, Location>, id: OrderId, loc: Location)
    requires Listed(side, rs, index) && loc.side != side
    ensures Listed(side, rs, index[id := loc]) <==> !Rests(rs, id)
  {
  }

  /** Placing keeps the index exact exactly when no resting order has that id: a second one would hide the
      first from the index. */
  lemma PlaceExactIff(b: Book, id: OrderId, side: Side, price: Price, qty: Qty)
    requires Inv(b) && Exact(b)
    ensures Exact(Place(b, id, side, price, qty)) <==> !Rests(b.bids, id) && !Rests(b.asks, id)
  {
    var r := Resting(b.nextNode, id, price, qty);
    if Rests(SideOf(b, side), id) {
      InsertHides(side, SideOf(b, side), r, b.index);
    } else {
      InsertListed(side, SideOf(b, side), r, b.index);
    }
    OtherListedIff(Other(side), SideOf(b, Other(side)), b.index, id, Location(side, price, b.nextNode));
  }

  /** A maker of this id whose price is outside the taker's limit. */
  predicate RestsBeyond(o: Order, ms: seq<Resting>, id: OrderId) {
    exists i :: 0 <= i < |ms| && ms[i].id == id && !Crosses(o, ms[i].price)
  }

  /** An order that will clash: a limit order that outlasts everything it can reach while its id already rests,
      on its own side or on the other side beyond its limit. */
  predicate Clashes(b: Book, o: Order) {
    && o.kind.Limit?
    && Reachable(o, SideOf(b, Other(o.side))) < o.qty
    && (Rests(SideOf(b, o.side), o.id) || RestsBeyond(o, SideOf(b, Other(o.side)), o.id))
  }

  /** What still rests opposite an order that has quantity left is what it cannot reach. */
  lemma LeftIsBeyondLimit(o: Order, q: Qty, ms: seq<Resting>, index: map<OrderId, Location>, id: OrderId)
    requires Ranked(o, ms) && Match(o, q, ms, index).remaining > 0
    ensures Rests(Match(o, q, ms, index).makers, id) <==> RestsBeyond(o, ms, id)
  {
    var ms', k := Match(o, q, ms, index).makers, Consumed(o, q, ms);
    MatchConsumesPrefix(o, q, ms, index);
    ConsumedCross(o, q, ms);
    assert ms' != [] ==> !Crosses(o, ms[k].price);
    if i :| 0 <= i < |ms'| && ms'[i].id == id {
      assert ms[k + i].id == id && !Crosses(o, ms[k + i].price);
    }
    if i :| 0 <= i < |ms| && ms[i].id == id && !Crosses(o, ms[i].price) {
      assert i >= k;
      assert ms'[i - k].id == id;
    }
  }

  /** The index stays exact under an add if and only if the order does not clash with a resting id. */
  lemma AddExactIff(b: Book, o: Order)
    requires Inv(b) && Exact(b)
    ensures Exact(Add(b, o)) <==> !Clashes(b, o)
  {
    var ms := SideOf(b, Other(o.side));
    TakenKeepsInv(b, o);
    TakenKeepsExact(b, o);
    SortedIsRanked(o, ms, b.nextNode);
    FillsAllItCan(o, o.qty, ms, b.index);
    if Outcome(b, o).remaining > 0 && o.kind.Limit? {
      LeftIsBeyondLimit(o, o.qty, ms, b.index, o.id);
      PlaceExactIff(Taken(b, o), o.id, o.side, o.price, Outcome(b, o).remaining);
    }
  }

  lemma WithoutListed(side: Side, rs: seq<Resting>, index: map<OrderId, Location>, id: OrderId, nextNode: nat)
    requires Listed(side, rs, index) && Resident(rs, nextNode) && id in index && index[id].side == side
    requires RestsAt(rs, id, index[id])
    ensures Listed(side, Without(rs, index[id].node), index - {id})
  {
    WithoutIsCut(rs, index[id].node);
  }

  /** An id of the other side is not missed on this one. */
  lemma OtherStaysListed(side: Side, rs: seq<Resting>, index: map<OrderId, Location>, id: OrderId)
    requires Listed(side, rs, index) && id in index && index[id].side != side
    ensures Listed(side, rs, index - {id})
  {
  }

  lemma CancelKeepsExact(b: Book, id: OrderId)
    requires Inv(b) && Exact(b)
    ensures Exact(Cancel(b, id))
  {
    if id in b.index {
      var side := b.index[id].side;
      WithoutListed(side, SideOf(b, side), b.index, id, b.nextNode);
      OtherStaysListed(Other(side), SideOf(b, Other(side)), b.index, id);
    }
  }

  /** No command of the run adds an id that clashes. */
  ghost predicate ClashFree(cs: seq<Command>) {
    cs == [] || (ClashFree(cs[..|cs| - 1])
                 && (cs[|cs| - 1].AddOrder? ==> !Clashes(Run(EMPTY, cs[..|cs| - 1]), cs[|cs| - 1].order)))
  }

  /** In every run without clashes the index is exactly the set of resting orders, each with its side, price and
      node, and `len` is their number. */
  lemma {:induction false} IndexIsExact(cs: seq<Command>)
    requires ClashFree(cs)
    ensures var b := Run(EMPTY, cs); Exact(b) && |b.index| == |b.bids| + |b.asks|
  {
    EveryBookKeepsInv(cs);
    if cs != [] {
      var b := Run(EMPTY, cs[..|cs| - 1]);
      IndexIsExact(cs[..|cs| - 1]);
      EveryBookKeepsInv(cs[..|cs| - 1]);
      match cs[|cs| - 1]
      case AddOrder(o) => AddExactIff(b, o);
      case CancelOrder(id) => CancelKeepsExact(b, id);
    }
    ExactCounts(Run(EMPTY, cs));
  }

  // ----- fresh ids -----

  /** Some command of the run adds an order of this id. */
  ghost predicate Added(cs: seq<Command>, id: OrderId) {
    exists k :: 0 <= k < |cs| && cs[k].AddOrder? && cs[k].order.id == id
  }

  /** No id is added twice. */
  ghost predicate FreshIds(cs: seq<Command>) {
    forall j, k :: 0 <= j < k < |cs| && cs[j].AddOrder? && cs[k].AddOrder? ==> cs[j].order.id != cs[k].order.id
  }

  lemma MatchRestsOnly(o: Order, q: Qty, ms: seq<Resting>, index: map<OrderId, Location>, id: OrderId)
    requires Rests(Match(o, q, ms, index).makers, id)
    ensures Rests(ms, id)
  {
    MatchConsumesPrefix(o, q, ms, index);
    var k, ms' := Consumed(o, q, ms), Match(o, q, ms, index).makers;
    var i :| 0 <= i < |ms'| && ms'[i].id == id;
    assert ms[k + i].id == id;
  }

  lemma InsertRestsOnly(side: Side, rs: seq<Resting>, r: Resting, id: OrderId)
    requires Rests(Insert(side, rs, r), id) && id != r.id
    ensures Rests(rs, id)
  {
    InsertIsSplice(side, rs, r);
    var s, p := Insert(side, rs, r), InsertPos(side, rs, r.price);
    var i :| 0 <= i < |s| && s[i].id == id;
    assert s[i] == rs[if i < p then i else i - 1];
  }

  lemma WithoutRestsOnly(rs: seq<Resting>, node: nat, id: OrderId)
    requires Rests(Without(rs, node), id)
    ensures Rests(rs, id)
  {
    WithoutIsCut(rs, node);
    var s, p := Without(rs, node), NodePos(rs, node);
    var i :| 0 <= i < |s| && s[i].id == id;
    assert s[i] == rs[if i < p then i else i + 1];
  }

  predicate RestsIn(b: Book, id: OrderId) {
    Rests(b.bids, id) || Rests(b.asks, id)
  }

  lemma AddRestsOnly(b: Book, o: Order, id: OrderId)
    requires RestsIn(Add(b, o), id) && id != o.id
    ensures RestsIn(b, id)
  {
    var t, left := Taken(b, o), Outcome(b, o).remaining;
    if left > 0 && o.kind.Limit? && Rests(SideOf(Add(b, o), o.side), id) {
      InsertRestsOnly(o.side, SideOf(t, o.side), Resting(t.nextNode, o.id, o.price, left), id);
    }
    if Rests(SideOf(t, Other(o.side)), id) {
      MatchRestsOnly(o, o.qty, SideOf(b, Other(o.side)), b.index, id);
    }
  }

  lemma CancelRestsOnly(b: Book, x: OrderId, id: OrderId)
    requires RestsIn(Cancel(b, x), id)
    ensures RestsIn(b, id)
  {
    if x in b.index {
      if b.index[x].side.Buy? && Rests(Without(b.bids, b.index[x].node), id) {
        WithoutRestsOnly(b.bids, b.index[x].node, id);
      }
      if b.index[x].side.Sell? && Rests(Without(b.asks, b.index[x].node), id) {
        WithoutRestsOnly(b.asks, b.index[x].node, id);
      }
    }
  }

  /** What rests was added. */
  lemma {:induction false} RestingWasAdded(cs: seq<Command>, id: OrderId)
    requires RestsIn(Run(EMPTY, cs), id)
    ensures Added(cs, id)
  {
    if cs != [] {
      var cs', c := cs[..|cs| - 1], cs[|cs| - 1];
      if !(c.AddOrder? && c.order.id == id) {
        match c {
          case AddOrder(o) => AddRestsOnly(Run(EMPTY, cs'), o, id);
          case CancelOrder(x) => CancelRestsOnly(Run(EMPTY, cs'), x, id);
        }
        RestingWasAdded(cs', id);
        var k :| 0 <= k < |cs'| && cs'[k].AddOrder? && cs'[k].order.id == id;
        assert cs[k] == cs'[k];
      }
    }
  }

  lemma NewIdIsNotResting(cs: seq<Command>, id: OrderId)
    requires !Added(cs, id)
    ensures !RestsIn(Run(EMPTY, cs), id)
  {
    if RestsIn(Run(EMPTY, cs), id) {
      RestingWasAdded(cs, id);
    }
  }

  /** Fresh ids never clash. */
  lemma {:induction false} FreshIdsNeverClash(cs: seq<Command>)
    requires FreshIds(cs)
    ensures ClashFree(cs)
  {
    if cs != [] {
      var cs', c := cs[..|cs| - 1], cs[|cs| - 1];
      FreshIdsNeverClash(cs');
      if c.AddOrder? {
        assert forall k :: 0 <= k < |cs'| ==> cs[k] == cs'[k];
        NewIdIsNotResting(cs', c.order.id);
      }
    }
  }

  /** So in every run that adds no id twice the index is exactly the set of resting orders. */
  lemma FreshIdsKeepIndexExact(cs: seq<Command>)
    requires FreshIds(cs)
    ensures var b := Run(EMPTY, cs); Exact(b) && |b.index| == |b.bids| + |b.asks|
  {
    FreshIdsNeverClash(cs);
    IndexIsExact(cs);
  }

  /** Without them it can fail: after two limit buys under one id, at prices 5 and 6, the first is out of the index's
      sight and `len` counts one order too few. */
  lemma RepeatedIdHides()
    ensures var cs := [AddOrder(Order(1, Buy, 5, 1, Limit)), AddOrder(Order(1, Buy, 6, 1, Limit))];
            var b := Run(EMPTY, cs); !Exact(b) && |b.index| == 1 && |b.bids| == 2
  {
    var o, o' := Order(1, Buy, 5, 1, Limit), Order(1, Buy, 6, 1, Limit);
    RunExtends(EMPTY, [], AddOrder(o));
    RunExtends(EMPTY, [AddOrder(o)], AddOrder(o'));
    assert [] + [AddOrder(o)] == [AddOrder(o)] && [AddOrder(o)] + [AddOrder(o')] == [AddOrder(o), AddOrder(o')];
    var b := Add(EMPTY, o);
    assert b == Book([Resting(0, 1, 5, 1)], [], map[1 := Location(Buy, 5, 0)], 1);
    assert Add(b, o').bids == [Resting(1, 1, 6, 1), Resting(0, 1, 5, 1)];
    assert Add(b, o').bids[1].id == 1;
  }
}
