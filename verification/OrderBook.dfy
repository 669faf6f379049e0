/** The book that the build uses: ascending price levels on both sides, so the best bid is the last level and the
    best ask the first; a side index for cancels. Proved to compute the reference book. */
module OrderBookImpl {
  import opened Wrappers
  import opened BookSpec
  import opened BookInvariant
  import opened Levels

  class OrderBook {
    var bids: seq<Level>
    var asks: seq<Level>
    var locations: map<OrderId, Location>
    var nextNode: nat
    ghost var history: seq<Command>

    /** The reference book the fields stand for. */
    ghost function View(): Book
      reads this
    {
      Book(FlatBack(bids), Flat(asks), locations, nextNode)
    }

    ghost predicate Stored()
      reads this
    {
      Ordered(Sell, bids) && Ordered(Sell, asks)
    }

    ghost predicate Valid()
      reads this
    {
      Stored() && View() == Run(EMPTY, history)
    }

    constructor ()
      ensures Valid() && View() == EMPTY && history == []
    {
      bids, asks, locations, nextNode, history := [], [], map[], 0, [];
    }

    // ----- matching -----

    /** One turn of the queue loop: fills the front order and unlinks it when nothing is left of it. */
    method FillFront(takerSide: Side, price: Price, takerId: OrderId, remaining: Qty, orders: seq<Node>)
      returns (left: Qty, queue: seq<Node>, fill: Fill)
      requires remaining > 0 && orders != []
      modifies this`locations
      ensures var o := Order(takerId, takerSide, 0, 0, Market);
              Match(o, remaining, Items(price, orders), old(locations))
              == Prepend([fill], Match(o, left, Items(price, queue), locations))
      ensures left + |queue| < remaining + |orders|
    {
      MatchFront(Order(takerId, takerSide, 0, 0, Market), remaining, price, orders, locations);
      var front := orders[0];
      var qty := Min(remaining, front.qty);
      front := front.(qty := front.qty - qty);
      left := remaining - qty;
      fill := Fill(front.id, takerId, price, qty, takerSide);
      if front.qty == 0 {
        locations := locations - {front.id};
        queue := orders[1..];
      } else {
        queue := orders[0 := front];
      }
      assert queue == AfterFront(orders, qty);
    }

    /** The queue loop of a level: goes on until the taker or the queue runs out. */
    method FillQueue(takerSide: Side, price: Price, takerId: OrderId, remaining: Qty, orders: seq<Node>,
                     fills: seq<Fill>)
      returns (left: Qty, queue: seq<Node>, out: seq<Fill>)
      modifies this`locations
      ensures var r := Match(Order(takerId, takerSide, 0, 0, Market), remaining, Items(price, orders), old(locations));
              Items(price, queue) == r.makers && locations == r.index && left == r.remaining && out == fills + r.fills
    {
      ghost var o := Order(takerId, takerSide, 0, 0, Market);
      ghost var goal, done := Match(o, remaining, Items(price, orders), locations), [];
      left, queue, out := remaining, orders, fills;
      while left > 0 && queue != []
        invariant OnTrack(goal, done, Match(o, left, Items(price, queue), locations)) && out == fills + done
        decreases left + |queue|
      {
        ghost var m := Match(o, left, Items(price, queue), locations);
        var fill;
        left, queue, fill := FillFront(takerSide, price, takerId, left, queue);
        out := out + [fill];
        StayOnTrack(goal, done, m, [fill], Match(o, left, Items(price, queue), locations));
        done := done + [fill];
      }
      SweepDone(o, left, Items(price, queue), locations, done);
    }

    /** Fills the taker against the level at `price`; the level stays, even if its queue is now empty. */
    method FillAtLevel(takerSide: Side, price: Price, takerId: OrderId, remaining: Qty, fills: seq<Fill>)
      returns (left: Qty, out: seq<Fill>)
      modifies this`bids, this`asks, this`locations
      ensures var ls, ls' := old(if takerSide.Buy? then asks else bids), if takerSide.Buy? then asks else bids;
              var k := Find(ls, price);
              && (if takerSide.Buy? then bids == old(bids) else asks == old(asks))
              && (k == |ls| ==> ls' == ls && locations == old(locations) && left == remaining && out == fills)
              && (k < |ls| ==>
                    var o := Order(takerId, takerSide, 0, 0, Market);
                    var r := Match(o, remaining, Items(price, ls[k].queue), old(locations));
                    && |ls'| == |ls| && ls' == ls[k := Level(price, ls'[k].queue)]
                    && Items(price, ls'[k].queue) == r.makers
                    && locations == r.index && left == r.remaining && out == fills + r.fills)
    {
      var book := if takerSide.Buy? then asks else bids;
      var k := Find(book, price);
      if k == |book| {
        return remaining, fills;
      }
      var queue;
      left, queue, out := FillQueue(takerSide, price, takerId, remaining, book[k].queue, fills);
      book := book[k := Level(price, queue)];
      if takerSide.Buy? {
        asks := book;
      } else {
        bids := book;
      }
    }

    /** Fills against the best ask level and erases it when its queue is empty. */
    method TakeBestAsk(o: Order, remaining: Qty, fills: seq<Fill>, ghost goal: Matched, ghost done: seq<Fill>)
      returns (left: Qty, out: seq<Fill>, ghost made: seq<Fill>)
      requires Stored() && o.side.Buy? && remaining > 0 && asks != [] && Crosses(o, asks[0].price)
      requires OnTrack(goal, done, Match(o, remaining, Flat(asks), locations))
      modifies this`bids, this`asks, this`locations
      ensures Stored() && bids == old(bids) && out == fills + made
      ensures OnTrack(goal, done + made, Match(o, left, Flat(asks), locations))
      ensures |asks| + (if left > 0 then 1 else 0) < |old(asks)| + 1
    {
      ghost var ls, index := asks, locations;
      var price := asks[0].price;
      made := Match(Sweeper(o), remaining, Items(price, asks[0].queue), locations).fills;
      left, out := FillAtLevel(Buy, price, o.id, remaining, fills);
      ghost var queue := asks[0].queue;
      SweepFront(Sell, o, remaining, ls, index, queue);
      if asks[0].queue == [] {
        asks := asks[1..];
      }
      assert asks == DropFront(ls, queue);
      StayOnTrack(goal, done, Match(o, remaining, Flat(ls), index), made, Match(o, left, Flat(asks), locations));
    }

    /** Sweeps the ask levels from the front while the price is within the limit. */
    method MatchBuy(o: Order, remaining: Qty, fills: seq<Fill>) returns (left: Qty, out: seq<Fill>)
      requires Stored() && o.side.Buy?
      modifies this`bids, this`asks, this`locations
      ensures Stored() && bids == old(bids)
      ensures var r := Match(o, remaining, old(Flat(asks)), old(locations));
              Flat(asks) == r.makers && locations == r.index && left == r.remaining && out == fills + r.fills
    {
      left, out := remaining, fills;
      ghost var goal, done := Match(o, remaining, Flat(asks), locations), [];
      while left > 0 && asks != []
        invariant Stored() && bids == old(bids)
        invariant OnTrack(goal, done, Match(o, left, Flat(asks), locations)) && out == fills + done
        decreases |asks| + if left > 0 then 1 else 0
      {
        FlatHead(asks);
        if o.kind.Limit? && asks[0].price > o.price {
          break;
        }
        ghost var made;
        left, out, made := TakeBestAsk(o, left, out, goal, done);
        done := done + made;
      }
      SweepDone(o, left, Flat(asks), locations, done);
    }

    /** Fills against the best bid level, the last one, and erases it when its queue is empty. */
    method TakeBestBid(o: Order, remaining: Qty, fills: seq<Fill>, ghost goal: Matched, ghost done: seq<Fill>)
      returns (left: Qty, out: seq<Fill>, ghost made: seq<Fill>)
      requires Stored() && o.side.Sell? && remaining > 0 && bids != [] && Crosses(o, bids[|bids| - 1].price)
      requires OnTrack(goal, done, Match(o, remaining, FlatBack(bids), locations))
      modifies this`bids, this`asks, this`locations
      ensures Stored() && asks == old(asks) && out == fills + made
      ensures OnTrack(goal, done + made, Match(o, left, FlatBack(bids), locations))
      ensures |bids| + (if left > 0 then 1 else 0) < |old(bids)| + 1
    {
      ghost var ls, index := bids, locations;
      var n := |bids| - 1;
      var price := bids[n].price;
      made := Match(Sweeper(o), remaining, Items(price, bids[n].queue), locations).fills;
      assert Find(bids, price) == n;
      left, out := FillAtLevel(Sell, price, o.id, remaining, fills);
      ghost var queue := bids[n].queue;
      SweepBack(Sell, o, remaining, ls, index, queue);
      if bids[n].queue == [] {
        bids := bids[..n];
      }
      assert bids == DropBack(ls, queue);
      ghost var m := Match(o, remaining, FlatBack(ls), index);
      StayOnTrack(goal, done, m, made, Match(o, left, FlatBack(bids), locations));
    }

    /** Sweeps the bid levels from the back while the price is within the limit. */
    method MatchSell(o: Order, remaining: Qty, fills: seq<Fill>) returns (left: Qty, out: seq<Fill>)
      requires Stored() && o.side.Sell?
      modifies this`bids, this`asks, this`locations
      ensures Stored() && asks == old(asks)
      ensures var r := Match(o, remaining, old(FlatBack(bids)), old(locations));
              FlatBack(bids) == r.makers && locations == r.index && left == r.remaining && out == fills + r.fills
    {
      left, out := remaining, fills;
      ghost var goal, done := Match(o, remaining, FlatBack(bids), locations), [];
      while left > 0 && bids != []
        invariant Stored() && asks == old(asks)
        invariant OnTrack(goal, done, Match(o, left, FlatBack(bids), locations)) && out == fills + done
        decreases |bids| + if left > 0 then 1 else 0
      {
        FlatBackHead(bids);
        if o.kind.Limit? && bids[|bids| - 1].price < o.price {
          break;
        }
        ghost var made;
        left, out, made := TakeBestBid(o, left, out, goal, done);
        done := done + made;
      }
      SweepDone(o, left, FlatBack(bids), locations, done);
    }

    // ----- placing, adding, cancelling -----

    method PlaceOrder(id: OrderId, side: Side, price: Price, qty: Qty)
      requires Stored()
      modifies this`bids, this`asks, this`locations, this`nextNode
      ensures Stored() && View() == Place(old(View()), id, side, price, qty)
    {
      var n := Node(nextNode, id, qty);
      if side.Buy? {
        FlatBackPush(bids, price, n);
        PushKeepsOrder(Sell, bids, price, n);
        bids := Push(Sell, bids, price, n);
      } else {
        FlatPush(Sell, asks, price, n);
        PushKeepsOrder(Sell, asks, price, n);
        asks := Push(Sell, asks, price, n);
      }
      locations := locations[id := Location(side, price, nextNode)];
      nextNode := nextNode + 1;
    }

    /** Matches the order against the other side. */
    method TakeOrder(o: Order, fills: seq<Fill>) returns (remaining: Qty, out: seq<Fill>)
      requires Stored()
      modifies this`bids, this`asks, this`locations
      ensures Stored() && View() == Taken(old(View()), o)
      ensures remaining == Outcome(old(View()), o).remaining && out == fills + Fills(old(View()), o)
    {
      match o.side {
        case Buy => remaining, out := MatchBuy(o, o.qty, fills);
        case Sell => remaining, out := MatchSell(o, o.qty, fills);
      }
    }

    /** Matches the order and lets a limit order's remainder rest; fills are appended to the caller's buffer. */
    method Add(o: Order, fills: seq<Fill>) returns (out: seq<Fill>)
      requires Valid()
      modifies this
      ensures Valid() && history == old(history) + [AddOrder(o)]
      ensures View() == BookSpec.Add(old(View()), o) && out == fills + Fills(old(View()), o)
    {
      RunExtends(EMPTY, history, AddOrder(o));
      var remaining;
      remaining, out := TakeOrder(o, fills);
      if remaining > 0 && o.kind.Limit? {
        PlaceOrder(o.id, o.side, o.price, remaining);
      }
      history := history + [AddOrder(o)];
    }

    /** Erases a node from its level, and the level with it when the queue is empty. */
    method Detach(id: OrderId, loc: Location)
      requires Stored()
      requires Resident(SideOf(View(), loc.side), nextNode) && RestsAt(SideOf(View(), loc.side), id, loc)
      modifies this`bids, this`asks
      ensures Stored()
      ensures FlatBack(bids) == if loc.side.Buy? then Without(old(FlatBack(bids)), loc.node) else old(FlatBack(bids))
      ensures Flat(asks) == if loc.side.Buy? then old(Flat(asks)) else Without(old(Flat(asks)), loc.node)
    {
      if loc.side.Buy? {
        FlatBackErase(Sell, bids, id, loc, nextNode);
        EraseKeepsOrder(Sell, bids, Find(bids, loc.price), loc.node);
        bids := Erase(bids, Find(bids, loc.price), loc.node);
      } else {
        FlatErase(Sell, asks, id, loc, nextNode);
        EraseKeepsOrder(Sell, asks, Find(asks, loc.price), loc.node);
        asks := Erase(asks, Find(asks, loc.price), loc.node);
      }
    }

    /** Removes a resting order by id; true exactly when the index knew it. */
    method Cancel(id: OrderId) returns (ok: bool)
      requires Valid()
      modifies this
      ensures Valid() && history == old(history) + [CancelOrder(id)]
      ensures View() == BookSpec.Cancel(old(View()), id) && ok == (id in old(View()).index)
    {
      RunExtends(EMPTY, history, CancelOrder(id));
      ok := id in locations;
      if ok {
        IndexedIsResting(history, id);
        var loc := locations[id];
        locations := locations - {id};
        Detach(id, loc);
      }
      history := history + [CancelOrder(id)];
    }

    // ----- observers -----

    method BestBidPrice() returns (p: Option<Price>)
      requires Valid()
      ensures p == BestBid(View())
    {
      if bids == [] {
        return None;
      }
      FlatBackHead(bids);
      return Some(bids[|bids| - 1].price);
    }

    method BestAskPrice() returns (p: Option<Price>)
      requires Valid()
      ensures p == BestAsk(View())
    {
      if asks == [] {
        return None;
      }
      FlatHead(asks);
      return Some(asks[0].price);
    }

    method SpreadNow() returns (s: Option<nat>)
      requires Valid()
      ensures s == Spread(View())
    {
      var bid := BestBidPrice();
      var ask := BestAskPrice();
      if bid.Some? && ask.Some? && ask.value >= bid.value {
        return Some(ask.value - bid.value);
      }
      return None;
    }

    method Len() returns (n: nat)
      requires Valid()
      ensures n == |View().index|
    {
      n := |locations|;
    }

    method QuantityAt(side: Side, price: Price) returns (total: nat)
      requires Valid()
      ensures total == DepthAt(View(), side, price)
    {
      var book := if side.Buy? then bids else asks;
      DepthOfLevel(Sell, book, price);
      var k := Find(book, price);
      if k == |book| {
        return 0;
      }
      total := SumQueue(book[k].queue);
    }
  }

  /** 64-bit sum of a queue. */
  method SumQueue(q: seq<Node>) returns (total: nat)
    ensures total == QueueQty(q) % 0x1_0000_0000_0000_0000
  {
    total := 0;
    for i := 0 to |q|
      invariant total == QueueQty(q[..i]) % 0x1_0000_0000_0000_0000
    {
      assert q[..i + 1][..i] == q[..i];
      total := (total + q[i].qty) % 0x1_0000_0000_0000_0000;
    }
    assert q[..|q|] == q;
  }
}
