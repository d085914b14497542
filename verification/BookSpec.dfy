/** What one incremental order book means: resting orders and aggregate price levels, as maps. */
module BookSpec {
  import opened Common

  /** `isBetterLevelPrice`: more aggressive, higher for bids and lower for asks. */
  predicate Better(side: Side, left: int, right: int) {
    if side == BUY then left > right else left < right
  }

  /** A resting order (the pooled `BookOrder`). */
  datatype BookOrder = BookOrder(orderId: int, price: int, qty: Qty, side: Side)

  /** Aggregate quantity by price. */
  type Levels = map<int, Qty>

  /** Resting orders by identifier. */
  type Orders = map<int, BookOrder>

  /** Adding quantity to a price level; a missing level is created with quantity 0 first. */
  function Added(levels: Levels, price: int, qty: Qty): Levels {
    levels[price := AddU32(if price in levels then levels[price] else 0, qty)]
  }

  /** Removing quantity; a level that would not stay positive disappears. */
  function Removed(levels: Levels, price: int, qty: Qty): Levels {
    if price !in levels then levels
    else if levels[price] <= qty then levels - {price}
    else levels[price := levels[price] - qty]
  }

  datatype Book = Book(orders: Orders, bids: Levels, asks: Levels) {
    function Side(side: Side): Levels { if side == BUY then bids else asks }

    /** `addToLevel` on one side. */
    function More(side: Side, price: int, qty: Qty): Book {
      if side == BUY then this.(bids := Added(bids, price, qty)) else this.(asks := Added(asks, price, qty))
    }

    /** `removeFromLevel` on one side. */
    function Less(side: Side, price: int, qty: Qty): Book {
      if side == BUY then this.(bids := Removed(bids, price, qty)) else this.(asks := Removed(asks, price, qty))
    }
  }

  const EMPTY: Book := Book(map[], map[], map[])

  /** A market update; `Other` stands for INVALID, SNAPSHOT_START and SNAPSHOT_END. A depth snapshot is
      reduced to its front levels, the only part the book reads. */
  datatype Update =
    | Add(order: BookOrder)
    | Modify(order: BookOrder)
    | Cancel(orderId: int)
    | Clear
    | Trade
    | Depth(front: BBO)
    | Other

  /** `BBO`, with `PRICE_INVALID`/`QTY_INVALID` for an empty side. */
  datatype BBO = BBO(bidPrice: int, bidQty: Qty, askPrice: int, askQty: Qty)

  const NO_BBO: BBO := BBO(PRICE_INVALID, QTY_INVALID, PRICE_INVALID, QTY_INVALID)

  /** `CapacityError` and `ModeError` are the two exceptions. */
  datatype Outcome = Ok | CapacityError | ModeError

  /** Load ceilings of the order and level slot arrays. */
  datatype Limits = Limits(orders: nat, levels: nat)

  predicate HasRoom(levels: Levels, price: int, limits: Limits) {
    price in levels || |levels| < limits.levels
  }

  /** `cancelOrder`; unknown identifiers are ignored. */
  function Canceled(b: Book, id: int): Book {
    if id !in b.orders then b
    else
      var o := b.orders[id];
      b.(orders := b.orders - {id}).Less(o.side, o.price, o.qty)
  }

  /** `addOrder`: an identifier in use is canceled first, and stays canceled when the capacity check throws. */
  function AfterAdd(b: Book, o: BookOrder, limits: Limits): (Book, Outcome) {
    var c := Canceled(b, o.orderId);
    if |c.orders| >= limits.orders || !HasRoom(c.Side(o.side), o.price, limits) then (c, CapacityError)
    else (c.(orders := c.orders[o.orderId := o]).More(o.side, o.price, o.qty), Ok)
  }

  /** `modifyOrder`: a new price or side moves the whole order, otherwise only the difference moves. */
  function AfterModify(b: Book, o: BookOrder, limits: Limits): (Book, Outcome) {
    if o.orderId !in b.orders then (b, Ok)
    else
      var was := b.orders[o.orderId];
      if was.side != o.side || was.price != o.price then
        if !HasRoom(b.Side(o.side), o.price, limits) then (b, CapacityError)
        else
          var moved := b.Less(was.side, was.price, was.qty).More(o.side, o.price, o.qty);
          (moved.(orders := b.orders[o.orderId := o]), Ok)
      else if o.qty < was.qty then
        (b.Less(o.side, o.price, was.qty - o.qty).(orders := b.orders[o.orderId := o]), Ok)
      else if !HasRoom(b.Side(o.side), o.price, limits) then (b, CapacityError)
      else (b.More(o.side, o.price, o.qty - was.qty).(orders := b.orders[o.orderId := o]), Ok)
  }

  /** The effect of one update on the incremental state. */
  function After(b: Book, u: Update, limits: Limits): (Book, Outcome) {
    match u
    case Add(o) => AfterAdd(b, o, limits)
    case Modify(o) => AfterModify(b, o, limits)
    case Cancel(id) => (Canceled(b, id), Ok)
    case Clear => (EMPTY, Ok)
    case Trade => (b, Ok)
    case Depth(_) => (b, Ok)
    case Other => (b, Ok)
  }

  /** The best price of a side. */
  ghost predicate IsBest(side: Side, levels: Levels, price: int) {
    price in levels && forall p :: p in levels && p != price ==> Better(side, price, p)
  }

  /** (price, qty) is the best level of a side, or the sentinels when there is none. */
  ghost predicate IsTop(side: Side, levels: Levels, price: int, qty: Qty) {
    if levels == map[] then price == PRICE_INVALID && qty == QTY_INVALID
    else IsBest(side, levels, price) && levels[price] == qty
  }

  /** The BBO agrees with the levels of both sides. */
  ghost predicate BboOf(b: Book, bbo: BBO) {
    IsTop(BUY, b.bids, bbo.bidPrice, bbo.bidQty) && IsTop(SELL, b.asks, bbo.askPrice, bbo.askQty)
  }
}
