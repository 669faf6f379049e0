/** What every reachable book keeps, and what matching does to the makers it meets. */
module BookInvariant {
  import opened BookSpec

  /** Best price first; equal prices in order of arrival. */
  ghost predicate Sorted(side: Side, rs: seq<Resting>) {
    forall i, j :: 0 <= i < j < |rs| ==>
      Better(side, rs[i].price, rs[j].price) || (rs[i].price == rs[j].price && rs[i].node < rs[j].node)
  }

  ghost predicate Resident(rs: seq<Resting>, nextNode: nat) {
    && (forall i :: 0 <= i < |rs| ==> rs[i].qty > 0 && rs[i].node < nextNode)
    && (forall i, j :: 0 <= i < j < |rs| ==> rs[i].node != rs[j].node)
  }

  ghost predicate Apart(rs: seq<Resting>, rs': seq<Resting>) {
    forall i, j :: 0 <= i < |rs| && 0 <= j < |rs'| ==> rs[i].node != rs'[j].node
  }

  predicate Uncrossed(b: Book) {
    b.bids != [] && b.asks != [] ==> b.bids[0].price < b.asks[0].price
  }

  ghost predicate RestsAt(rs: seq<Resting>, id: OrderId, loc: Location) {
    exists i :: 0 <= i < |rs| && rs[i].node == loc.node && rs[i].id == id && rs[i].price == loc.price
  }

  /** Every index entry points at a resting order of that id, side and price. */
  ghost predicate Indexed(b: Book) {
    forall id :: id in b.index ==> RestsAt(SideOf(b, b.index[id].side), id, b.index[id])
  }

  ghost predicate Inv(b: Book) {
    && Sorted(Buy, b.bids) && Sorted(Sell, b.asks)
    && Resident(b.bids, b.nextNode) && Resident(b.asks, b.nextNode) && Apart(b.bids, b.asks)
    && Uncrossed(b) && Indexed(b)
  }

  // ----- matching consumes a prefix -----

  /** How many makers the taker consumes completely. */
  function Consumed(o: Order, q: Qty, ms: seq<Resting>): (k: nat)
    ensures k <= |ms|
  {
    if q == 0 || ms == [] || !Crosses(o, ms[0].price) || ms[0].qty > q then 0
    else 1 + Consumed(o, q - ms[0].qty, ms[1..])
  }

  function IdsOf(rs: seq<Resting>): set<OrderId> {
    set i | 0 <= i < |rs| :: rs[i].id
  }

  lemma IdsOfCons(rs: seq<Resting>, k: nat)
    requires 0 < k <= |rs|
    ensures IdsOf(rs[..k]) == {rs[0].id} + IdsOf(rs[1..][..k - 1])
  {
    var a, b := rs[..k], rs[1..][..k - 1];
    forall x ensures x in IdsOf(a) <==> x in {rs[0].id} + IdsOf(b) {
      if x in IdsOf(a) {
        var i :| 0 <= i < |a| && a[i].id == x;
        if i > 0 {
          assert b[i - 1].id == x;
        }
      }
      if x in IdsOf(b) {
        var i :| 0 <= i < |b| && b[i].id == x;
        assert a[i + 1].id == x;
      }
      if x == rs[0].id {
        assert a[0].id == x;
      }
    }
  }

  /** `ms'` is what is left of `ms` after `k` makers: the next one may have shrunk, the others are untouched. */
  ghost predicate Remainder(ms': seq<Resting>, ms: seq<Resting>, k: nat) {
    && k <= |ms| && |ms'| == |ms| - k
    && (forall i :: 0 < i < |ms'| ==> ms'[i] == ms[k + i])
    && (ms' != [] ==>
          ms'[0].qty <= ms[k].qty && (ms[k].qty > 0 ==> ms'[0].qty > 0) && ms'[0] == ms[k].(qty := ms'[0].qty))
  }

  lemma RemainderShift(ms': seq<Resting>, ms: seq<Resting>, k: nat)
    requires ms != [] && Remainder(ms', ms[1..], k)
    ensures Remainder(ms', ms, k + 1)
  {
    assert forall i :: 0 <= i < |ms| - 1 ==> ms[1..][i] == ms[i + 1];
  }

  lemma {:induction false} ConsumedCross(o: Order, q: Qty, ms: seq<Resting>)
    ensures forall i :: 0 <= i < Consumed(o, q, ms) ==> Crosses(o, ms[i].price)
  {
    if !(q == 0 || ms == [] || !Crosses(o, ms[0].price) || ms[0].qty > q) {
      ConsumedCross(o, q - ms[0].qty, ms[1..]);
    }
  }

  /** Matching removes the consumed makers and may shrink the next one; if quantity is left over, the next
      maker is untouched and does not cross. */
  lemma {:induction false} MatchConsumesPrefix(o: Order, q: Qty, ms: seq<Resting>, index: map<OrderId, Location>)
    ensures var r, k := Match(o, q, ms, index), Consumed(o, q, ms);
            && Remainder(r.makers, ms, k)
            && (r.remaining > 0 && r.makers != [] ==> !Crosses(o, r.makers[0].price) && r.makers[0] == ms[k])
  {
    if !(q == 0 || ms == [] || !Crosses(o, ms[0].price) || ms[0].qty > q) {
      var r := Match(o, q - ms[0].qty, ms[1..], index - {ms[0].id});
      MatchConsumesPrefix(o, q - ms[0].qty, ms[1..], index - {ms[0].id});
      RemainderShift(r.makers, ms, Consumed(o, q - ms[0].qty, ms[1..]));
    }
  }

  /** ... and it drops exactly the ids of the consumed makers from the index. */
  lemma {:induction false} MatchForgets(o: Order, q: Qty, ms: seq<Resting>, index: map<OrderId, Location>)
    ensures Match(o, q, ms, index).index == index - IdsOf(ms[..Consumed(o, q, ms)])
  {
    if q == 0 || ms == [] || !Crosses(o, ms[0].price) || ms[0].qty > q {
      assert IdsOf(ms[..0]) == {};
    } else {
      MatchForgets(o, q - ms[0].qty, ms[1..], index - {ms[0].id});
      IdsOfCons(ms, 1 + Consumed(o, q - ms[0].qty, ms[1..]));
    }
  }

  // ----- insertion and removal by position -----

  function InsertPos(side: Side, rs: seq<Resting>, price: Price): (p: nat)
    ensures p <= |rs|
    ensures forall i :: 0 <= i < p ==> !Better(side, price, rs[i].price)
    ensures p < |rs| ==> Better(side, price, rs[p].price)
  {
    if rs == [] || Better(side, price, rs[0].price) then 0
    else 1 + InsertPos(side, rs[1..], price)
  }

  /** `s` is `rs` with `r` put in at position `p`. */
  ghost predicate Spliced(s: seq<Resting>, rs: seq<Resting>, p: nat, r: Resting) {
    && p <= |rs| && |s| == |rs| + 1 && s[p] == r
    && (forall i :: 0 <= i < p ==> s[i] == rs[i])
    && (forall i :: p < i < |s| ==> s[i] == rs[i - 1])
  }

  lemma {:induction false} InsertIsSplice(side: Side, rs: seq<Resting>, r: Resting)
    ensures Spliced(Insert(side, rs, r), rs, InsertPos(side, rs, r.price), r)
  {
    if !(rs == [] || Better(side, r.price, rs[0].price)) {
      InsertIsSplice(side, rs[1..], r);
    }
  }

  lemma InsertKeepsOrder(side: Side, rs: seq<Resting>, r: Resting)
    requires Sorted(side, rs) && forall i :: 0 <= i < |rs| ==> rs[i].node < r.node
    ensures Sorted(side, Insert(side, rs, r))
  {
    InsertIsSplice(side, rs, r);
    var s, p := Insert(side, rs, r), InsertPos(side, rs, r.price);
    assert forall j :: p <= j < |rs| ==> Better(side, r.price, rs[j].price);
    forall i, j | 0 <= i < j < |s|
      ensures Better(side, s[i].price, s[j].price) || (s[i].price == s[j].price && s[i].node < s[j].node)
    {
    }
  }

  lemma InsertKeepsResident(side: Side, rs: seq<Resting>, r: Resting)
    requires Resident(rs, r.node) && r.qty > 0
    ensures Resident(Insert(side, rs, r), r.node + 1)
  {
    InsertIsSplice(side, rs, r);
    var s := Insert(side, rs, r);
    forall i, j | 0 <= i < j < |s| ensures s[i].node != s[j].node {
    }
  }

  function NodePos(rs: seq<Resting>, node: nat): (p: nat)
    ensures p <= |rs|
    ensures forall i :: 0 <= i < p ==> rs[i].node != node
    ensures p < |rs| ==> rs[p].node == node
  {
    if rs == [] || rs[0].node == node then 0 else 1 + NodePos(rs[1..], node)
  }

  /** `s` is `rs` without the entry at position `p`, if there is one. */
  ghost predicate Cut(s: seq<Resting>, rs: seq<Resting>, p: nat) {
    if p >= |rs| then s == rs else
    && |s| == |rs| - 1
    && (forall i :: 0 <= i < p ==> s[i] == rs[i])
    && (forall i :: p <= i < |s| ==> s[i] == rs[i + 1])
  }

  lemma CutCons(r: Resting, rs: seq<Resting>, s: seq<Resting>, p: nat)
    requires Cut(s, rs, p)
    ensures Cut([r] + s, [r] + rs, p + 1)
  {
  }

  lemma {:induction false} WithoutIsCut(rs: seq<Resting>, node: nat)
    ensures Cut(Without(rs, node), rs, NodePos(rs, node))
  {
    if rs != [] && rs[0].node != node {
      var t, s := rs[1..], Without(rs[1..], node);
      WithoutIsCut(t, node);
      CutCons(rs[0], t, s, NodePos(t, node));
      assert rs == [rs[0]] + t;
    }
  }

  // ----- every operation keeps the invariant -----

  lemma MatchKeepsList(side: Side, o: Order, q: Qty, ms: seq<Resting>, index: map<OrderId, Location>, nextNode: nat)
    requires Sorted(side, ms) && Resident(ms, nextNode)
    ensures var ms' := Match(o, q, ms, index).makers;
            && Sorted(side, ms') && Resident(ms', nextNode)
            && (ms' != [] ==> !Better(side, ms'[0].price, ms[0].price))
  {
    MatchConsumesPrefix(o, q, ms, index);
  }

  lemma MatchKeepsApart(o: Order, q: Qty, ms: seq<Resting>, index: map<OrderId, Location>, rs: seq<Resting>)
    requires Apart(ms, rs)
    ensures Apart(Match(o, q, ms, index).makers, rs)
  {
    MatchConsumesPrefix(o, q, ms, index);
  }

  /** An id that survives in the index still rests where it did. */
  lemma MatchKeepsLocation(o: Order, q: Qty, ms: seq<Resting>, index: map<OrderId, Location>, id: OrderId,
                           loc: Location)
    requires id in Match(o, q, ms, index).index && RestsAt(ms, id, loc)
    ensures id in index && RestsAt(Match(o, q, ms, index).makers, id, loc)
  {
    MatchConsumesPrefix(o, q, ms, index);
    MatchForgets(o, q, ms, index);
    var k, ms' := Consumed(o, q, ms), Match(o, q, ms, index).makers;
    var i :| 0 <= i < |ms| && ms[i].node == loc.node && ms[i].id == id && ms[i].price == loc.price;
    assert forall j :: 0 <= j < k ==> ms[..k][j] == ms[j];
    assert ms'[i - k].node == loc.node;
  }

  lemma TakenKeepsIndexed(b: Book, o: Order)
    requires Indexed(b)
    ensures Indexed(Taken(b, o))
  {
    var ms, b' := SideOf(b, Other(o.side)), Taken(b, o);
    MatchForgets(o, o.qty, ms, b.index);
    forall id | id in b'.index ensures RestsAt(SideOf(b', b'.index[id].side), id, b'.index[id]) {
      if b'.index[id].side == Other(o.side) {
        MatchKeepsLocation(o, o.qty, ms, b.index, id, b.index[id]);
      }
    }
  }

  lemma ApartSymmetric(rs: seq<Resting>, rs': seq<Resting>)
    requires Apart(rs, rs')
    ensures Apart(rs', rs)
  {
  }

  lemma TakenKeepsInv(b: Book, o: Order)
    requires Inv(b)
    ensures Inv(Taken(b, o))
    ensures Outcome(b, o).remaining > 0 ==>
              var ms := SideOf(Taken(b, o), Other(o.side)); ms == [] || !Crosses(o, ms[0].price)
  {
    var ms := SideOf(b, Other(o.side));
    MatchConsumesPrefix(o, o.qty, ms, b.index);
    MatchKeepsList(Other(o.side), o, o.qty, ms, b.index, b.nextNode);
    ApartSymmetric(b.bids, b.asks);
    MatchKeepsApart(o, o.qty, ms, b.index, SideOf(b, o.side));
    if o.side.Buy? {
      ApartSymmetric(Taken(b, o).asks, b.bids);
    }
    TakenKeepsIndexed(b, o);
  }

  lemma InsertedRests(side: Side, rs: seq<Resting>, r: Resting)
    ensures RestsAt(Insert(side, rs, r), r.id, Location(side, r.price, r.node))
  {
    InsertIsSplice(side, rs, r);
    assert Insert(side, rs, r)[InsertPos(side, rs, r.price)] == r;
  }

  lemma InsertKeepsLocation(side: Side, rs: seq<Resting>, r: Resting, id: OrderId, loc: Location)
    requires RestsAt(rs, id, loc)
    ensures RestsAt(Insert(side, rs, r), id, loc)
  {
    InsertIsSplice(side, rs, r);
    var p := InsertPos(side, rs, r.price);
    var i :| 0 <= i < |rs| && rs[i].node == loc.node && rs[i].id == id && rs[i].price == loc.price;
    assert Insert(side, rs, r)[if i < p then i else i + 1] == rs[i];
  }

  lemma PlaceKeepsIndexed(b: Book, id: OrderId, side: Side, price: Price, qty: Qty)
    requires Indexed(b)
    ensures Indexed(Place(b, id, side, price, qty))
  {
    var b', r := Place(b, id, side, price, qty), Resting(b.nextNode, id, price, qty);
    forall x | x in b'.index ensures RestsAt(SideOf(b', b'.index[x].side), x, b'.index[x]) {
      if x == id {
        InsertedRests(side, SideOf(b, side), r);
      } else if b.index[x].side == side {
        InsertKeepsLocation(side, SideOf(b, side), r, x, b.index[x]);
      }
    }
  }

  lemma InsertKeepsApart(side: Side, rs: seq<Resting>, r: Resting, other: seq<Resting>)
    requires Apart(rs, other) && Resident(other, r.node)
    ensures Apart(Insert(side, rs, r), other)
  {
    InsertIsSplice(side, rs, r);
  }

  lemma PlaceKeepsLists(b: Book, id: OrderId, side: Side, price: Price, qty: Qty)
    requires Inv(b) && qty > 0
    ensures var b' := Place(b, id, side, price, qty);
            && Sorted(Buy, b'.bids) && Sorted(Sell, b'.asks)
            && Resident(b'.bids, b'.nextNode) && Resident(b'.asks, b'.nextNode) && Apart(b'.bids, b'.asks)
  {
    var r := Resting(b.nextNode, id, price, qty);
    InsertKeepsOrder(side, SideOf(b, side), r);
    InsertKeepsResident(side, SideOf(b, side), r);
    ApartSymmetric(b.bids, b.asks);
    InsertKeepsApart(side, SideOf(b, side), r, SideOf(b, Other(side)));
    if side.Sell? {
      ApartSymmetric(Place(b, id, side, price, qty).asks, b.bids);
    }
  }

  lemma PlaceKeepsInv(b: Book, id: OrderId, side: Side, price: Price, qty: Qty)
    requires Inv(b) && qty > 0
    requires var ms := SideOf(b, Other(side)); ms == [] || Better(side, ms[0].price, price)
    ensures Inv(Place(b, id, side, price, qty))
  {
    var r := Resting(b.nextNode, id, price, qty);
    PlaceKeepsLists(b, id, side, price, qty);
    PlaceKeepsIndexed(b, id, side, price, qty);
    InsertIsSplice(side, SideOf(b, side), r);
  }

  lemma AddKeepsInv(b: Book, o: Order)
    requires Inv(b)
    ensures Inv(Add(b, o))
  {
    TakenKeepsInv(b, o);
    var left := Outcome(b, o).remaining;
    if left > 0 && o.kind.Limit? {
      PlaceKeepsInv(Taken(b, o), o.id, o.side, o.price, left);
    }
  }

  lemma WithoutKeepsList(side: Side, rs: seq<Resting>, node: nat, nextNode: nat)
    requires Sorted(side, rs) && Resident(rs, nextNode)
    ensures Sorted(side, Without(rs, node)) && Resident(Without(rs, node), nextNode)
    ensures Without(rs, node) != [] ==> !Better(side, Without(rs, node)[0].price, rs[0].price)
  {
    WithoutIsCut(rs, node);
    var s, p := Without(rs, node), NodePos(rs, node);
    forall i, j | 0 <= i < j < |s|
      ensures s[i].node != s[j].node
      ensures Better(side, s[i].price, s[j].price) || (s[i].price == s[j].price && s[i].node < s[j].node)
    {
    }
  }

  lemma WithoutKeepsApart(rs: seq<Resting>, node: nat, other: seq<Resting>)
    requires Apart(rs, other)
    ensures Apart(Without(rs, node), other)
  {
    WithoutIsCut(rs, node);
  }

  lemma WithoutKeepsLocation(rs: seq<Resting>, node: nat, id: OrderId, loc: Location)
    requires RestsAt(rs, id, loc) && loc.node != node
    ensures RestsAt(Without(rs, node), id, loc)
  {
    WithoutIsCut(rs, node);
    var p := NodePos(rs, node);
    var i :| 0 <= i < |rs| && rs[i].node == loc.node && rs[i].id == id && rs[i].price == loc.price;
    assert Without(rs, node)[if i <= p then i else i - 1] == rs[i];
  }

  /** Two ids never share a node. */
  lemma NodesTellIds(rs: seq<Resting>, nextNode: nat, x: OrderId, lx: Location, y: OrderId, ly: Location)
    requires Resident(rs, nextNode) && RestsAt(rs, x, lx) && RestsAt(rs, y, ly) && lx.node == ly.node
    ensures x == y
  {
  }

  lemma CancelKeepsIndexed(b: Book, id: OrderId)
    requires Inv(b) && id in b.index
    ensures Indexed(Cancel(b, id))
  {
    var b', here := Cancel(b, id), b.index[id];
    var rs := SideOf(b, here.side);
    forall x | x in b'.index ensures RestsAt(SideOf(b', b'.index[x].side), x, b'.index[x]) {
      if b.index[x].side == here.side {
        if b.index[x].node == here.node {
          NodesTellIds(rs, b.nextNode, x, b.index[x], id, here);
        }
        WithoutKeepsLocation(rs, here.node, x, b.index[x]);
      }
    }
  }

  lemma CancelKeepsInv(b: Book, id: OrderId)
    requires Inv(b)
    ensures Inv(Cancel(b, id))
  {
    if id in b.index {
      var node := b.index[id].node;
      ApartSymmetric(b.bids, b.asks);
      if b.index[id].side.Buy? {
        WithoutKeepsList(Buy, b.bids, node, b.nextNode);
        WithoutKeepsApart(b.bids, node, b.asks);
      } else {
        WithoutKeepsList(Sell, b.asks, node, b.nextNode);
        WithoutKeepsApart(b.asks, node, b.bids);
        ApartSymmetric(Without(b.asks, node), b.bids);
      }
      CancelKeepsIndexed(b, id);
    }
  }

  /** Every book reachable by any commands, repeated ids included, is sorted by price and arrival, holds no
      empty order, is uncrossed, and has an index without dangling entries. */
  lemma {:induction false} EveryBookKeepsInv(cs: seq<Command>)
    ensures Inv(Run(EMPTY, cs))
  {
    if cs != [] {
      EveryBookKeepsInv(cs[..|cs| - 1]);
      match cs[|cs| - 1]
      case AddOrder(o) => AddKeepsInv(Run(EMPTY, cs[..|cs| - 1]), o);
      case CancelOrder(id) => CancelKeepsInv(Run(EMPTY, cs[..|cs| - 1]), id);
    }
  }

  lemma RunExtends(b: Book, cs: seq<Command>, c: Command)
    ensures Run(b, cs + [c]) == Step(Run(b, cs), c)
  {
    assert (cs + [c])[..|cs|] == cs;
  }

  /** In every reachable book an indexed order rests where the index says, among nodes that all differ. */
  lemma IndexedIsResting(cs: seq<Command>, id: OrderId)
    requires id in Run(EMPTY, cs).index
    ensures var b := Run(EMPTY, cs);
            var rs := SideOf(b, b.index[id].side);
            Resident(rs, b.nextNode) && RestsAt(rs, id, b.index[id])
  {
    EveryBookKeepsInv(cs);
  }
}
