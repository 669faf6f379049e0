/** The reference matching book: each side is one flat list of resting orders, best first, and a taker
    greedily consumes the prefix its limit allows. */
module BookSpec {
  import opened Wrappers

  type OrderId = nat
  type Price = nat
  type Qty = nat

  datatype Side = Buy | Sell
  datatype OrderType = Limit | Market
  datatype Order = Order(id: OrderId, side: Side, price: Price, qty: Qty, kind: OrderType)
  datatype Fill = Fill(maker: OrderId, taker: OrderId, price: Price, qty: Qty, side: Side)

  /** A resting order; `node` identifies the list node that holds it. */
  datatype Resting = Resting(node: nat, id: OrderId, price: Price, qty: Qty)

  /** Where an order rests. */
  datatype Location = Location(side: Side, price: Price, node: nat)

  datatype Book = Book(bids: seq<Resting>, asks: seq<Resting>, index: map<OrderId, Location>, nextNode: nat)

  function Other(side: Side): Side {
    if side.Buy? then Sell else Buy
  }

  function SideOf(b: Book, side: Side): seq<Resting> {
    if side.Buy? then b.bids else b.asks
  }

  function Min(x: nat, y: nat): nat {
    if x < y then x else y
  }

  // ----- matching -----

  /** May this taker trade at the maker price `p`? */
  predicate Crosses(o: Order, p: Price) {
    o.kind.Market? || (if o.side.Buy? then p <= o.price else p >= o.price)
  }

  datatype Matched = Matched(fills: seq<Fill>, makers: seq<Resting>, index: map<OrderId, Location>, remaining: Qty)

  function Prepend(fs: seq<Fill>, m: Matched): Matched {
    m.(fills := fs + m.fills)
  }

  function FillAgainst(o: Order, m: Resting, q: Qty): Fill {
    Fill(m.id, o.id, m.price, Min(q, m.qty), o.side)
  }

  /** Taker `o`, with quantity `q` left, against the makers in priority order. */
  function Match(o: Order, q: Qty, makers: seq<Resting>, index: map<OrderId, Location>): Matched {
    if q == 0 || makers == [] || !Crosses(o, makers[0].price) then Matched([], makers, index, q) else
    var m := makers[0];
    if m.qty <= q then
      Prepend([FillAgainst(o, m, q)], Match(o, q - m.qty, makers[1..], index - {m.id}))
    else
      Matched([FillAgainst(o, m, q)], [m.(qty := m.qty - q)] + makers[1..], index, 0)
  }

  // ----- placing and cancelling -----

  /** Does price `p` have priority over `p'` on this side? */
  predicate Better(side: Side, p: Price, p': Price) {
    if side.Buy? then p > p' else p < p'
  }

  /** The new order goes behind everything at its price or better. */
  function Insert(side: Side, rs: seq<Resting>, r: Resting): seq<Resting> {
    if rs == [] || Better(side, r.price, rs[0].price) then [r] + rs
    else [rs[0]] + Insert(side, rs[1..], r)
  }

  function Place(b: Book, id: OrderId, side: Side, price: Price, qty: Qty): Book {
    var r := Resting(b.nextNode, id, price, qty);
    Book(if side.Buy? then Insert(Buy, b.bids, r) else b.bids,
         if side.Buy? then b.asks else Insert(Sell, b.asks, r),
         b.index[id := Location(side, price, b.nextNode)], b.nextNode + 1)
  }

  /** The book after matching alone: what an immediate-or-cancel order leaves. */
  function Taken(b: Book, o: Order): Book {
    var m := Match(o, o.qty, SideOf(b, Other(o.side)), b.index);
    if o.side.Buy? then b.(asks := m.makers, index := m.index) else b.(bids := m.makers, index := m.index)
  }

  function Outcome(b: Book, o: Order): Matched {
    Match(o, o.qty, SideOf(b, Other(o.side)), b.index)
  }

  function Add(b: Book, o: Order): Book {
    var left := Outcome(b, o).remaining;
    if left > 0 && o.kind.Limit? then Place(Taken(b, o), o.id, o.side, o.price, left) else Taken(b, o)
  }

  function Fills(b: Book, o: Order): seq<Fill> {
    Outcome(b, o).fills
  }

  function Without(rs: seq<Resting>, node: nat): seq<Resting> {
    if rs == [] then [] else
    if rs[0].node == node then rs[1..] else [rs[0]] + Without(rs[1..], node)
  }

  function Cancel(b: Book, id: OrderId): Book {
    if id !in b.index then b else
    var loc := b.index[id];
    b.(bids := if loc.side.Buy? then Without(b.bids, loc.node) else b.bids,
       asks := if loc.side.Buy? then b.asks else Without(b.asks, loc.node),
       index := b.index - {id})
  }

  // ----- observers -----

  function BestBid(b: Book): Option<Price> {
    if b.bids == [] then None else Some(b.bids[0].price)
  }

  function BestAsk(b: Book): Option<Price> {
    if b.asks == [] then None else Some(b.asks[0].price)
  }

  function Spread(b: Book): Option<nat> {
    match (BestBid(b), BestAsk(b))
    case (Some(bid), Some(ask)) => if ask >= bid then Some(ask - bid) else None
    case _ => None
  }

  /** Resting quantity at one price. */
  function Depth(rs: seq<Resting>, price: Price): nat {
    if rs == [] then 0 else (if rs[0].price == price then rs[0].qty else 0) + Depth(rs[1..], price)
  }

  /** Depths are 64-bit sums. */
  function DepthAt(b: Book, side: Side, price: Price): nat {
    Depth(SideOf(b, side), price) % 0x1_0000_0000_0000_0000
  }

  // ----- runs -----

  datatype Command = AddOrder(order: Order) | CancelOrder(id: OrderId)

  const EMPTY := Book([], [], map[], 0)

  function Step(b: Book, c: Command): Book {
    match c
    case AddOrder(o) => Add(b, o)
    case CancelOrder(id) => Cancel(b, id)
  }

  function Run(b: Book, cs: seq<Command>): Book {
    if cs == [] then b else Step(Run(b, cs[..|cs| - 1]), cs[|cs| - 1])
  }
}
