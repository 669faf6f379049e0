/** The second book implementation: bids stored in descending order, so the best level is the first on both sides,
    and the queue loop written out inside each matching method.  Proved to compute the same reference book. */
module MatchingEngineImpl {
  import opened Wrappers
  import opened BookSpec
  import opened BookInvariant
  import opened Levels
  import O = OrderBookImpl

  class OrderBook {
    var bids: seq<Level>
    var asks: seq<Level>
    var locations: map<OrderId, Location>
    var nextNode: nat
    ghost var history: seq<Command>

    /** The reference book the fields stand for. */
    ghost function View(): Book
      reads this
    {
      Book(Flat(bids), Flat(asks), locations, nextNode)
    }

    ghost predicate Stored()
      reads this
    {
      Ordered(Buy, bids) && Ordered(Sell, asks)
    }

    ghost predicate Valid()
      reads this
    {
      Stored() && View() == Run(EMPTY, history)
    }

    constructor ()
      ensures Valid() && View() == EMPTY && history == []
    {
      bids, asks, locations, nextNode, history := [], [], map[], 0, [];
    }

    // ----- matching -----

    /** The queue loop inside a level: the fill is recorded first, then maker and taker are reduced. */
    method DrainQueue(o: Order, price: Price, remaining: Qty, orders: seq<Node>, fills: seq<Fill>)
      returns (left: Qty, queue: seq<Node>, out: seq<Fill>)
      modifies this`locations
      ensures var r := Match(Sweeper(o), remaining, Items(price, orders), old(locations));
              Items(price, queue) == r.makers && locations == r.index && left == r.remaining && out == fills + r.fills
    {
      left, queue, out := remaining, orders, fills;
      ghost var goal, done := Match(Sweeper(o), remaining, Items(price, orders), locations), [];
      while left > 0 && queue != []
        invariant OnTrack(goal, done, Match(Sweeper(o), left, Items(price, queue), locations)) && out == fills + done
        decreases left + |queue|
      {
        ghost var before, index, m := queue, locations, Match(Sweeper(o), left, Items(price, queue), locations);
        MatchFront(Sweeper(o), left, price, queue, locations);
        var maker := queue[0];
        var qty := Min(left, maker.qty);
        ghost var made := [Fill(maker.id, o.id, price, qty, o.side)];
        out := out + [Fill(maker.id, o.id, price, qty, o.side)];
        queue := queue[0 := maker.(qty := maker.qty - qty)];
        left := left - qty;
        if queue[0].qty == 0 {
          locations := locations - {maker.id};
          queue := queue[1..];
        }
        assert queue == AfterFront(before, qty);
        assert locations == if before[0].qty == qty then index - {before[0].id} else index;
        StayOnTrack(goal, done, m, made, Match(Sweeper(o), left, Items(price, queue), locations));
        done := done + made;
      }
      SweepDone(Sweeper(o), left, Items(price, queue), locations, done);
    }

    /** The body of the level loop: drains the queue of the first level and erases the level if it is empty. */
    method SweepBest(o: Order, levels: seq<Level>, remaining: Qty, fills: seq<Fill>, ghost stored: Side)
      returns (left: Qty, rest: seq<Level>, out: seq<Fill>, ghost made: seq<Fill>)
      requires Ordered(stored, levels) && remaining > 0 && levels != [] && Crosses(o, levels[0].price)
      modifies this`locations
      ensures Ordered(stored, rest) && out == fills + made
      ensures Match(o, remaining, Flat(levels), old(locations)) == Prepend(made, Match(o, left, Flat(rest), locations))
      ensures |rest| + (if left > 0 then 1 else 0) < |levels| + 1
    {
      var price, queue := levels[0].price, levels[0].queue;
      ghost var index := locations;
      made := Match(Sweeper(o), remaining, Items(price, queue), locations).fills;
      left, queue, out := DrainQueue(o, price, remaining, queue, fills);
      SweepFront(stored, o, remaining, levels, index, queue);
      if queue == [] {
        rest := levels[1..];
      } else {
        rest := levels[0 := Level(price, queue)];
      }
    }

    /** Ask levels from the front while the price is within the limit. */
    method MatchBuy(o: Order, remaining: Qty, fills: seq<Fill>) returns (left: Qty, out: seq<Fill>)
      requires Stored() && o.side.Buy?
      modifies this`asks, this`locations
      ensures Stored()
      ensures var r := Match(o, remaining, old(Flat(asks)), old(locations));
              Flat(asks) == r.makers && locations == r.index && left == r.remaining && out == fills + r.fills
    {
      left, out := remaining, fills;
      ghost var goal, done := Match(o, remaining, Flat(asks), locations), [];
      while left > 0 && asks != []
        invariant Stored()
        invariant OnTrack(goal, done, Match(o, left, Flat(asks), locations)) && out == fills + done
        decreases |asks| + if left > 0 then 1 else 0
      {
        FlatHead(asks);
        if o.kind.Limit? && asks[0].price > o.price {
          break;
        }
        ghost var m, made := Match(o, left, Flat(asks), locations), [];
        left, asks, out, made := SweepBest(o, asks, left, out, Sell);
        StayOnTrack(goal, done, m, made, Match(o, left, Flat(asks), locations));
        done := done + made;
      }
      SweepDone(o, left, Flat(asks), locations, done);
    }

    /** Bid levels from the front while the price is within the limit. */
    method MatchSell(o: Order, remaining: Qty, fills: seq<Fill>) returns (left: Qty, out: seq<Fill>)
      requires Stored() && o.side.Sell?
      modifies this`bids, this`locations
      ensures Stored()
      ensures var r := Match(o, remaining, old(Flat(bids)), old(locations));
              Flat(bids) == r.makers && locations == r.index && left == r.remaining && out == fills + r.fills
    {
      left, out := remaining, fills;
      ghost var goal, done := Match(o, remaining, Flat(bids), locations), [];
      while left > 0 && bids != []
        invariant Stored()
        invariant OnTrack(goal, done, Match(o, left, Flat(bids), locations)) && out == fills + done
        decreases |bids| + if left > 0 then 1 else 0
      {
        FlatHead(bids);
        if o.kind.Limit? && bids[0].price < o.price {
          break;
        }
        ghost var m, made := Match(o, left, Flat(bids), locations), [];
        left, bids, out, made := SweepBest(o, bids, left, out, Buy);
        StayOnTrack(goal, done, m, made, Match(o, left, Flat(bids), locations));
        done := done + made;
      }
      SweepDone(o, left, Flat(bids), locations, done);
    }

    // ----- placing, adding, cancelling -----

    method PlaceOrder(id: OrderId, side: Side, price: Price, qty: Qty)
      requires Stored()
      modifies this`bids, this`asks, this`locations, this`nextNode
      ensures Stored() && View() == Place(old(View()), id, side, price, qty)
    {
      var n := Node(nextNode, id, qty);
      if side.Buy? {
        FlatPush(Buy, bids, price, n);
        PushKeepsOrder(Buy, bids, price, n);
        bids := Push(Buy, bids, price, n);
      } else {
        FlatPush(Sell, asks, price, n);
        PushKeepsOrder(Sell, asks, price, n);
        asks := Push(Sell, asks, price, n);
      }
      locations := locations[id := Location(side, price, nextNode)];
      nextNode := nextNode + 1;
    }

    /** Matches the order against the other side. */
    method TakeOrder(o: Order, fills: seq<Fill>) returns (remaining: Qty, out: seq<Fill>)
      requires Stored()
      modifies this`bids, this`asks, this`locations
      ensures Stored() && View() == Taken(old(View()), o)
      ensures remaining == Outcome(old(View()), o).remaining && out == fills + Fills(old(View()), o)
    {
      match o.side {
        case Buy => remaining, out := MatchBuy(o, o.qty, fills);
        case Sell => remaining, out := MatchSell(o, o.qty, fills);
      }
    }

    /** Matches the order and lets a limit order's remainder rest; fills are appended to the caller's buffer. */
    method Add(o: Order, fills: seq<Fill>) returns (out: seq<Fill>)
      requires Valid()
      modifies this
      ensures Valid() && history == old(history) + [AddOrder(o)]
      ensures View() == BookSpec.Add(old(View()), o) && out == fills + Fills(old(View()), o)
    {
      RunExtends(EMPTY, history, AddOrder(o));
      var remaining;
      remaining, out := TakeOrder(o, fills);
      if remaining > 0 && o.kind.Limit? {
        PlaceOrder(o.id, o.side, o.price, remaining);
      }
      history := history + [AddOrder(o)];
    }

    /** Erases a node from its level, and the level with it when the queue is empty. */
    method Detach(id: OrderId, loc: Location)
      requires Stored()
      requires Resident(SideOf(View(), loc.side), nextNode) && RestsAt(SideOf(View(), loc.side), id, loc)
      modifies this`bids, this`asks
      ensures Stored()
      ensures Flat(bids) == if loc.side.Buy? then Without(old(Flat(bids)), loc.node) else old(Flat(bids))
      ensures Flat(asks) == if loc.side.Buy? then old(Flat(asks)) else Without(old(Flat(asks)), loc.node)
    {
      if loc.side.Buy? {
        FlatErase(Buy, bids, id, loc, nextNode);
        EraseKeepsOrder(Buy, bids, Find(bids, loc.price), loc.node);
        bids := Erase(bids, Find(bids, loc.price), loc.node);
      } else {
        FlatErase(Sell, asks, id, loc, nextNode);
        EraseKeepsOrder(Sell, asks, Find(asks, loc.price), loc.node);
        asks := Erase(asks, Find(asks, loc.price), loc.node);
      }
    }

    method Cancel(id: OrderId) returns (ok: bool)
      requires Valid()
      modifies this
      ensures Valid() && history == old(history) + [CancelOrder(id)]
      ensures View() == BookSpec.Cancel(old(View()), id) && ok == (id in old(View()).index)
    {
      RunExtends(EMPTY, history, CancelOrder(id));
      ok := id in locations;
      if ok {
        IndexedIsResting(history, id);
        var loc := locations[id];
        locations := locations - {id};
        Detach(id, loc);
      }
      history := history + [CancelOrder(id)];
    }

    // ----- observers -----

    method BestBidPrice() returns (p: Option<Price>)
      requires Valid()
      ensures p == BestBid(View())
    {
      if bids == [] {
        return None;
      }
      FlatHead(bids);
      return Some(bids[0].price);
    }

    method BestAskPrice() returns (p: Option<Price>)
      requires Valid()
      ensures p == BestAsk(View())
    {
      if asks == [] {
        return None;
      }
      FlatHead(asks);
      return Some(asks[0].price);
    }

    method SpreadNow() returns (s: Option<nat>)
      requires Valid()
      ensures s == Spread(View())
    {
      var bid := BestBidPrice();
      var ask := BestAskPrice();
      if bid.None? || ask.None? {
        return None;
      }
      if ask.value < bid.value {
        return None;
      }
      return Some(ask.value - bid.value);
    }

    method Len() returns (n: nat)
      requires Valid()
      ensures n == |View().index|
    {
      n := |locations|;
    }

    method QuantityAt(side: Side, price: Price) returns (total: nat)
      requires Valid()
      ensures total == DepthAt(View(), side, price)
    {
      if side.Buy? {
        DepthOfLevel(Buy, bids, price);
        var k := Find(bids, price);
        if k == |bids| {
          return 0;
        }
        total := O.SumQueue(bids[k].queue);
      } else {
        DepthOfLevel(Sell, asks, price);
        var k := Find(asks, price);
        if k == |asks| {
          return 0;
        }
        total := O.SumQueue(asks[k].queue);
      }
    }
  }
}
