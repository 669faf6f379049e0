/** Laws of the matching book: how a taker's quantity is allocated, conservation and splitting of orders. */
module BookLaws {
  import opened BookSpec
  import opened BookInvariant

  // ----- allocation -----

  /** Quantity with priority over maker `i`. */
  function Ahead(ms: seq<Resting>, i: nat): nat
    requires i <= |ms|
  {
    if i == 0 then 0 else ms[0].qty + Ahead(ms[1..], i - 1)
  }

  /** What maker `i` must get: everything the taker has left after those ahead, up to its own quantity, provided
      the price is within the taker's limit. */
  function Share(o: Order, q: Qty, ms: seq<Resting>, i: nat): nat
    requires i < |ms|
  {
    if !Crosses(o, ms[i].price) || q <= Ahead(ms, i) then 0 else Min(ms[i].qty, q - Ahead(ms, i))
  }

  /** The makers stand in the taker's order of preference: once one does not cross, none behind does. */
  ghost predicate Ranked(o: Order, ms: seq<Resting>) {
    && (forall i, j :: 0 <= i < j < |ms| && Crosses(o, ms[j].price) ==> Crosses(o, ms[i].price))
    && (forall i :: 0 <= i < |ms| ==> ms[i].qty > 0)
  }

  lemma SortedIsRanked(o: Order, ms: seq<Resting>, nextNode: nat)
    requires Sorted(Other(o.side), ms) && Resident(ms, nextNode)
    ensures Ranked(o, ms)
  {
  }

  lemma RankedTail(o: Order, ms: seq<Resting>)
    requires Ranked(o, ms) && ms != []
    ensures Ranked(o, ms[1..])
  {
    assert forall i :: 0 <= i < |ms| - 1 ==> ms[1..][i] == ms[i + 1];
  }

  /** The fills are exactly the non-zero shares, in priority order, at the makers' prices. */
  ghost predicate FillsAreShares(o: Order, q: Qty, ms: seq<Resting>, fills: seq<Fill>) {
    && |fills| <= |ms|
    && (forall i :: 0 <= i < |fills| ==>
          Share(o, q, ms, i) > 0 && fills[i] == Fill(ms[i].id, o.id, ms[i].price, Share(o, q, ms, i), o.side))
    && (forall i :: |fills| <= i < |ms| ==> Share(o, q, ms, i) == 0)
  }

  lemma ShareShift(o: Order, q: Qty, ms: seq<Resting>, i: nat)
    requires 0 < i < |ms| && ms[0].qty <= q
    ensures Share(o, q, ms, i) == Share(o, q - ms[0].qty, ms[1..], i - 1)
  {
  }

  lemma {:induction false} MatchGivesShares(o: Order, q: Qty, ms: seq<Resting>, index: map<OrderId, Location>)
    requires Ranked(o, ms)
    ensures FillsAreShares(o, q, ms, Match(o, q, ms, index).fills)
  {
    if q == 0 || ms == [] || !Crosses(o, ms[0].price) {
    } else if ms[0].qty <= q {
      RankedTail(o, ms);
      var q', index' := q - ms[0].qty, index - {ms[0].id};
      MatchGivesShares(o, q', ms[1..], index');
      var fs, fs' := Match(o, q, ms, index).fills, Match(o, q', ms[1..], index').fills;
      assert fs == [FillAgainst(o, ms[0], q)] + fs';
      forall i | 0 < i < |ms| ensures Share(o, q, ms, i) == Share(o, q', ms[1..], i - 1) && ms[i] == ms[1..][i - 1] {
        ShareShift(o, q, ms, i);
      }
    } else {
      forall i | 0 < i < |ms| ensures Share(o, q, ms, i) == 0 {
        assert Ahead(ms, i) >= ms[0].qty;
      }
    }
  }

  /** After `k` makers that got all they had, `ms'` lists the others less their shares. */
  ghost predicate LessShares(o: Order, q: Qty, ms: seq<Resting>, ms': seq<Resting>, k: nat) {
    && |ms'| + k == |ms|
    && (forall i :: 0 <= i < k ==> Share(o, q, ms, i) == ms[i].qty)
    && (forall i :: 0 <= i < |ms'| ==> ms'[i] == ms[k + i].(qty := ms[k + i].qty - Share(o, q, ms, k + i)))
  }

  lemma LessSharesShift(o: Order, q: Qty, ms: seq<Resting>, ms': seq<Resting>, k: nat)
    requires ms != [] && ms[0].qty <= q && Share(o, q, ms, 0) == ms[0].qty
    requires LessShares(o, q - ms[0].qty, ms[1..], ms', k)
    ensures LessShares(o, q, ms, ms', k + 1)
  {
    forall i | 0 <= i < k + 1 ensures Share(o, q, ms, i) == ms[i].qty {
      if i > 0 {
        ShareShift(o, q, ms, i);
      }
    }
    forall i | 0 <= i < |ms'| ensures ms'[i] == ms[k + 1 + i].(qty := ms[k + 1 + i].qty - Share(o, q, ms, k + 1 + i)) {
      ShareShift(o, q, ms, k + 1 + i);
    }
  }

  lemma NothingTaken(o: Order, q: Qty, ms: seq<Resting>)
    requires Ranked(o, ms) && (q == 0 || ms == [] || !Crosses(o, ms[0].price))
    ensures LessShares(o, q, ms, ms, 0)
  {
  }

  lemma FirstShrinks(o: Order, q: Qty, ms: seq<Resting>)
    requires ms != [] && 0 < q < ms[0].qty && Crosses(o, ms[0].price)
    ensures LessShares(o, q, ms, [ms[0].(qty := ms[0].qty - q)] + ms[1..], 0)
  {
    forall i | 0 < i < |ms| ensures Share(o, q, ms, i) == 0 {
      AheadGrows(ms, 0, i);
    }
  }

  /** ... and what is left of each maker is its quantity less its share. */
  lemma {:induction false} ResidualIsQuantityLessShare(o: Order, q: Qty, ms: seq<Resting>,
                                                       index: map<OrderId, Location>)
    requires Ranked(o, ms)
    ensures LessShares(o, q, ms, Match(o, q, ms, index).makers, Consumed(o, q, ms))
  {
    if q == 0 || ms == [] || !Crosses(o, ms[0].price) {
      NothingTaken(o, q, ms);
    } else if ms[0].qty <= q {
      RankedTail(o, ms);
      var q', index' := q - ms[0].qty, index - {ms[0].id};
      ResidualIsQuantityLessShare(o, q', ms[1..], index');
      assert Match(o, q, ms, index).makers == Match(o, q', ms[1..], index').makers;
      assert Consumed(o, q, ms) == Consumed(o, q', ms[1..]) + 1;
      LessSharesShift(o, q, ms, Match(o, q', ms[1..], index').makers, Consumed(o, q', ms[1..]));
    } else {
      FirstShrinks(o, q, ms);
    }
  }

  lemma AheadGrows(ms: seq<Resting>, j: nat, i: nat)
    requires j < i <= |ms|
    ensures Ahead(ms, j) + ms[j].qty <= Ahead(ms, i)
  {
  }

  /** All makers but the last one touched gave everything they had. */
  ghost predicate FullyConsumed(ms: seq<Resting>, fs: seq<Fill>) {
    |fs| <= |ms| && forall j :: 0 <= j < |fs| - 1 ==> fs[j].qty == ms[j].qty
  }

  /** A limit order fills at its price or a better one for it. */
  ghost predicate WithinLimit(o: Order, fs: seq<Fill>) {
    forall i :: 0 <= i < |fs| && o.kind.Limit? ==>
      if o.side.Buy? then fs[i].price <= o.price else fs[i].price >= o.price
  }

  /** Fill prices only get worse for the taker: they rise for a buy and fall for a sell. */
  ghost predicate Worsening(side: Side, fs: seq<Fill>) {
    forall i, j :: 0 <= j < i < |fs| ==> if side.Buy? then fs[j].price <= fs[i].price else fs[j].price >= fs[i].price
  }

  /** The maker price is out of reach: dearer than a buy's limit, or cheaper than a sell's.  For a market order none
      is. */
  predicate OutOfReach(o: Order, price: Price) {
    o.kind.Limit? && if o.side.Buy? then price > o.price else price < o.price
  }

  lemma SharesConsumeInOrder(o: Order, q: Qty, ms: seq<Resting>, fs: seq<Fill>)
    requires FillsAreShares(o, q, ms, fs)
    ensures FullyConsumed(ms, fs)
  {
    forall j | 0 <= j < |fs| - 1 ensures fs[j].qty == ms[j].qty {
      AheadGrows(ms, j, |fs| - 1);
      assert Share(o, q, ms, |fs| - 1) > 0;
    }
  }

  lemma SharesAreWithinLimit(o: Order, q: Qty, ms: seq<Resting>, fs: seq<Fill>)
    requires FillsAreShares(o, q, ms, fs)
    ensures WithinLimit(o, fs)
  {
  }

  lemma SharesWorsen(o: Order, q: Qty, ms: seq<Resting>, fs: seq<Fill>)
    requires FillsAreShares(o, q, ms, fs) && Sorted(Other(o.side), ms)
    ensures Worsening(o.side, fs)
  {
    assert forall i :: 0 <= i < |fs| ==> fs[i].price == ms[i].price;
  }

  lemma NothingCrossingLeft(b: Book, o: Order)
    requires Inv(b) && Outcome(b, o).remaining > 0
    ensures forall r :: r in SideOf(Taken(b, o), Other(o.side)) ==> OutOfReach(o, r.price)
  {
    TakenKeepsInv(b, o);
    SortedIsRanked(o, SideOf(Taken(b, o), Other(o.side)), b.nextNode);
  }

  /** Price-time priority, no trade-through: in an add to any reachable book, a maker that is touched was
      reached through makers that are all consumed completely; every fill is at the maker's price and within the
      taker's limit, at prices that only get worse; and if the taker has quantity left, all that still rests opposite is
      out of its reach. */
  lemma Priority(b: Book, o: Order)
    requires Inv(b)
    ensures var ms, fs := SideOf(b, Other(o.side)), Fills(b, o);
            && FillsAreShares(o, o.qty, ms, fs) && FullyConsumed(ms, fs)
            && WithinLimit(o, fs) && Worsening(o.side, fs)
    ensures Filled(Fills(b, o)) < o.qty ==>
              forall r :: r in SideOf(Add(b, o), Other(o.side)) ==> OutOfReach(o, r.price)
  {
    var ms, fs := SideOf(b, Other(o.side)), Fills(b, o);
    SortedIsRanked(o, ms, b.nextNode);
    MatchGivesShares(o, o.qty, ms, b.index);
    SharesConsumeInOrder(o, o.qty, ms, fs);
    SharesAreWithinLimit(o, o.qty, ms, fs);
    SharesWorsen(o, o.qty, ms, fs);
    Conservation(o, o.qty, ms, b.index);
    if Outcome(b, o).remaining > 0 {
      NothingCrossingLeft(b, o);
    }
  }

  // ----- conservation -----

  function Total(rs: seq<Resting>): nat {
    if rs == [] then 0 else rs[0].qty + Total(rs[1..])
  }

  function Filled(fs: seq<Fill>): nat {
    if fs == [] then 0 else fs[0].qty + Filled(fs[1..])
  }

  /** The taker's quantity is what it filled plus what it has left, and the makers lose exactly what it filled. */
  lemma {:induction false} Conservation(o: Order, q: Qty, ms: seq<Resting>, index: map<OrderId, Location>)
    ensures var r := Match(o, q, ms, index);
            && q == Filled(r.fills) + r.remaining
            && Total(ms) == Total(r.makers) + Filled(r.fills)
  {
    if q == 0 || ms == [] || !Crosses(o, ms[0].price) {
    } else if ms[0].qty <= q {
      Conservation(o, q - ms[0].qty, ms[1..], index - {ms[0].id});
      var fs' := Match(o, q - ms[0].qty, ms[1..], index - {ms[0].id}).fills;
      assert ([FillAgainst(o, ms[0], q)] + fs')[1..] == fs';
    } else {
      assert ([ms[0].(qty := ms[0].qty - q)] + ms[1..])[1..] == ms[1..];
    }
  }

  /** Resting quantity within the taker's limit. */
  function Reachable(o: Order, ms: seq<Resting>): nat {
    if ms == [] then 0 else (if Crosses(o, ms[0].price) then ms[0].qty else 0) + Reachable(o, ms[1..])
  }

  lemma {:induction false} NothingReachable(o: Order, ms: seq<Resting>)
    requires forall i :: 0 <= i < |ms| ==> !Crosses(o, ms[i].price)
    ensures Reachable(o, ms) == 0
  {
    if ms != [] {
      NothingReachable(o, ms[1..]);
    }
  }

  /** A taker fills all it can reach: the smaller of its quantity and the quantity within its limit. */
  lemma {:induction false} FillsAllItCan(o: Order, q: Qty, ms: seq<Resting>, index: map<OrderId, Location>)
    requires Ranked(o, ms)
    ensures Match(o, q, ms, index).remaining == q - Min(q, Reachable(o, ms))
  {
    if q == 0 || ms == [] {
    } else if !Crosses(o, ms[0].price) {
      NothingReachable(o, ms);
    } else if ms[0].qty <= q {
      RankedTail(o, ms);
      FillsAllItCan(o, q - ms[0].qty, ms[1..], index - {ms[0].id});
    }
  }

  // ----- splitting an order -----

  predicate SameParties(f: Fill, g: Fill) {
    f.maker == g.maker && f.taker == g.taker && f.price == g.price && f.side == g.side
  }

  function Merge(f: Fill, g: Fill): Fill {
    f.(qty := f.qty + g.qty)
  }

  /** Adjacent fills between the same parties at the same price, taken together. */
  function Coalesce(fs: seq<Fill>): seq<Fill>
    decreases |fs|
  {
    if |fs| < 2 then fs
    else if SameParties(fs[0], fs[1]) then Coalesce([Merge(fs[0], fs[1])] + fs[2..])
    else [fs[0]] + Coalesce(fs[1..])
  }

  lemma CoalesceFirstTwo(f: Fill, g: Fill, ys: seq<Fill>)
    requires SameParties(f, g)
    ensures Coalesce([f, g] + ys) == Coalesce([Merge(f, g)] + ys)
  {
    assert ([f, g] + ys)[2..] == ys;
  }

  lemma CoalesceNext(x: Fill, f: Fill, g: Fill, ys: seq<Fill>)
    requires SameParties(f, g)
    ensures Coalesce([x] + [f, g] + ys) == Coalesce([x] + [Merge(f, g)] + ys)
  {
    if SameParties(x, f) {
      assert [x] + [f, g] + ys == [x, f] + ([g] + ys);
      CoalesceFirstTwo(x, f, [g] + ys);
      assert [Merge(x, f)] + ([g] + ys) == [Merge(x, f), g] + ys;
      CoalesceFirstTwo(Merge(x, f), g, ys);
      assert [x] + [Merge(f, g)] + ys == [x, Merge(f, g)] + ys;
      CoalesceFirstTwo(x, Merge(f, g), ys);
    } else {
      assert ([x] + [f, g] + ys)[1..] == [f, g] + ys && ([x] + [Merge(f, g)] + ys)[1..] == [Merge(f, g)] + ys;
      CoalesceFirstTwo(f, g, ys);
    }
  }

  lemma {:induction false} CoalesceJoin(xs: seq<Fill>, f: Fill, g: Fill, ys: seq<Fill>)
    requires SameParties(f, g)
    ensures Coalesce(xs + [f, g] + ys) == Coalesce(xs + [Merge(f, g)] + ys)
    decreases |xs|
  {
    var l, r := xs + [f, g] + ys, xs + [Merge(f, g)] + ys;
    if xs == [] {
      CoalesceFirstTwo(f, g, ys);
      assert l == [f, g] + ys && r == [Merge(f, g)] + ys;
    } else if |xs| == 1 {
      assert xs == [xs[0]];
      CoalesceNext(xs[0], f, g, ys);
    } else if SameParties(xs[0], xs[1]) {
      var xs' := [Merge(xs[0], xs[1])] + xs[2..];
      assert [Merge(l[0], l[1])] + l[2..] == xs' + [f, g] + ys;
      assert [Merge(r[0], r[1])] + r[2..] == xs' + [Merge(f, g)] + ys;
      CoalesceJoin(xs', f, g, ys);
    } else {
      assert l[1..] == xs[1..] + [f, g] + ys && r[1..] == xs[1..] + [Merge(f, g)] + ys;
      CoalesceJoin(xs[1..], f, g, ys);
    }
  }

  /** `fs` is `f1` followed by `f2`, except that the fills at the seam may be one. */
  predicate Joins(fs: seq<Fill>, f1: seq<Fill>, f2: seq<Fill>) {
    fs == f1 + f2 ||
    (f1 != [] && f2 != [] && SameParties(f1[|f1| - 1], f2[0])
     && fs == f1[..|f1| - 1] + [Merge(f1[|f1| - 1], f2[0])] + f2[1..])
  }

  lemma JoinsPrepend(f: Fill, fs: seq<Fill>, f1: seq<Fill>, f2: seq<Fill>)
    requires Joins(fs, f1, f2)
    ensures Joins([f] + fs, [f] + f1, f2)
  {
    if fs == f1 + f2 {
      assert [f] + fs == [f] + f1 + f2;
    } else {
      assert ([f] + f1)[..|f1|] == [f] + f1[..|f1| - 1];
    }
  }

  lemma JoinsCoalesce(fs: seq<Fill>, f1: seq<Fill>, f2: seq<Fill>)
    requires Joins(fs, f1, f2)
    ensures Coalesce(fs) == Coalesce(f1 + f2)
  {
    if fs != f1 + f2 {
      var xs, f, g, ys := f1[..|f1| - 1], f1[|f1| - 1], f2[0], f2[1..];
      CoalesceJoin(xs, f, g, ys);
      assert f1 + f2 == xs + [f, g] + ys;
    }
  }

  /** Taking x + y is taking x and then y. */
  ghost predicate Splits(o: Order, x: Qty, y: Qty, ms: seq<Resting>, index: map<OrderId, Location>) {
    var r1 := Match(o, x, ms, index);
    var r2, r := Match(o, y, r1.makers, r1.index), Match(o, x + y, ms, index);
    && r.makers == r2.makers && r.index == r2.index && r.remaining == r1.remaining + r2.remaining
    && Joins(r.fills, r1.fills, r2.fills)
  }

  /** The split lies behind the first maker. */
  lemma {:induction false} SplitAfterMaker(o: Order, x: Qty, y: Qty, ms: seq<Resting>, index: map<OrderId, Location>)
    requires 0 < x && ms != [] && Crosses(o, ms[0].price) && ms[0].qty <= x
    requires Splits(o, x - ms[0].qty, y, ms[1..], index - {ms[0].id})
    ensures Splits(o, x, y, ms, index)
  {
    var ms', index' := ms[1..], index - {ms[0].id};
    var r1 := Match(o, x - ms[0].qty, ms', index');
    var r2, r := Match(o, y, r1.makers, r1.index), Match(o, x - ms[0].qty + y, ms', index');
    JoinsPrepend(FillAgainst(o, ms[0], x), r.fills, r1.fills, r2.fills);
  }

  lemma {:induction false} MatchSplits(o: Order, x: Qty, y: Qty, ms: seq<Resting>, index: map<OrderId, Location>)
    ensures Splits(o, x, y, ms, index)
  {
    if x == 0 || ms == [] || !Crosses(o, ms[0].price) {
    } else if ms[0].qty <= x {
      MatchSplits(o, x - ms[0].qty, y, ms[1..], index - {ms[0].id});
      SplitAfterMaker(o, x, y, ms, index);
    } else if ms[0].qty <= x + y {
      SplitUsesUp(o, x, y, ms, index);
    } else {
      SplitShrinks(o, x, y, ms, index);
    }
  }

  /** The split lies inside the first maker, which is used up by the whole. */
  lemma {:induction false} SplitUsesUp(o: Order, x: Qty, y: Qty, ms: seq<Resting>, index: map<OrderId, Location>)
    requires 0 < x && ms != [] && Crosses(o, ms[0].price) && x < ms[0].qty <= x + y
    ensures Splits(o, x, y, ms, index)
  {
    var m' := ms[0].(qty := ms[0].qty - x);
    var r1 := Match(o, x, ms, index);
    assert r1.makers == [m'] + ms[1..] && r1.makers[1..] == ms[1..];
    var r2, r := Match(o, y, r1.makers, r1.index), Match(o, x + y, ms, index);
    var rest := Match(o, y - m'.qty, ms[1..], index - {ms[0].id});
    assert r2.fills == [FillAgainst(o, m', y)] + rest.fills && r2.fills[1..] == rest.fills;
    assert r.fills == [FillAgainst(o, ms[0], x + y)] + rest.fills;
  }

  /** ... which is not used up. */
  lemma {:induction false} SplitShrinks(o: Order, x: Qty, y: Qty, ms: seq<Resting>, index: map<OrderId, Location>)
    requires 0 < x && ms != [] && Crosses(o, ms[0].price) && x + y < ms[0].qty
    ensures Splits(o, x, y, ms, index)
  {
    var m' := ms[0].(qty := ms[0].qty - x);
    var r1 := Match(o, x, ms, index);
    assert r1.makers == [m'] + ms[1..] && r1.makers[1..] == ms[1..];
    assert m'.(qty := m'.qty - y) == ms[0].(qty := ms[0].qty - (x + y));
  }

  /** What a market order does is matching. */
  lemma {:induction false} MarketOrderMatches(b: Book, o: Order, q: Qty)
    requires o.kind.Market?
    ensures var r := Match(o, q, SideOf(b, Other(o.side)), b.index);
            && Fills(b, o.(qty := q)) == r.fills
            && Add(b, o.(qty := q)) == if o.side.Buy? then b.(asks := r.makers, index := r.index)
                                       else b.(bids := r.makers, index := r.index)
  {
    MatchIgnoresQty(o, q, q, SideOf(b, Other(o.side)), b.index);
  }

  /** A market order for x + y leaves the same book as one for x followed by one for y, and the fills are the
      same once adjacent fills of one maker are taken together. */
  lemma {:induction false} MarketOrderSplits(b: Book, o: Order, x: Qty, y: Qty)
    requires o.kind.Market?
    ensures var b1 := Add(b, o.(qty := x));
            && Add(b, o.(qty := x + y)) == Add(b1, o.(qty := y))
            && Coalesce(Fills(b, o.(qty := x + y))) == Coalesce(Fills(b, o.(qty := x)) + Fills(b1, o.(qty := y)))
  {
    var ms := SideOf(b, Other(o.side));
    var r1 := Match(o, x, ms, b.index);
    MarketOrderMatches(b, o, x);
    MarketOrderMatches(b, o, x + y);
    MarketOrderMatches(Add(b, o.(qty := x)), o, y);
    MatchSplits(o, x, y, ms, b.index);
    JoinsCoalesce(Match(o, x + y, ms, b.index).fills, r1.fills, Match(o, y, r1.makers, r1.index).fills);
  }

  /** Matching looks at the quantity it is given, not at the one in the order. */
  lemma {:induction false} MatchIgnoresQty(o: Order, z: Qty, q: Qty, ms: seq<Resting>, index: map<OrderId, Location>)
    ensures Match(o.(qty := z), q, ms, index) == Match(o, q, ms, index)
  {
    if !(q == 0 || ms == [] || !Crosses(o, ms[0].price) || ms[0].qty > q) {
      MatchIgnoresQty(o, z, q - ms[0].qty, ms[1..], index - {ms[0].id});
    }
  }
}
