/** One order slot per ticker and side (src/trading/strategy/order_manager.cpp, src/trading/strategy/om_order.h). */
module OrderManager {
  import opened Common
  import opened PositionKeeper
  import opened RiskManager

  const TICKERS: nat := 8

  datatype OrderState = NONE | PENDING_NEW | LIVE | PENDING_CANCEL | DEAD

  /** `OMOrder`; the state NONE is the source's INVALID. */
  datatype OMOrder = OMOrder(ticker: int, id: int, side: Side, price: int, qty: Qty, offset: Offset, state: OrderState)

  datatype RequestType = NEW | CANCEL_ORDER

  datatype Request = Request(kind: RequestType, ticker: int, id: int, side: Side, price: int, qty: Qty, offset: Offset)

  datatype ResponseType = ACCEPTED | FILLED | CANCELED | REJECTED | CANCEL_REJECTED | OTHER

  datatype Response = Response(kind: ResponseType, ticker: nat, id: int, fill: Fill, leaves: Qty)

  /** The slots of one ticker. */
  datatype Slots = Slots(buy: OMOrder, sell: OMOrder) {
    function Get(side: Side): OMOrder { if side == BUY then buy else sell }

    function Put(side: Side, o: OMOrder): Slots {
      if side == BUY then this.(buy := o) else this.(sell := o)
    }
  }

  /** The venue may still act on the order. */
  predicate Active(o: OMOrder) { o.state != NONE && o.state != DEAD }

  /** `onOrderUpdate` on the slot of the response's side; responses about another order change nothing. */
  function Updated(o: OMOrder, r: Response): OMOrder {
    if o.id != r.id then o
    else
      match r.kind
      case ACCEPTED => o.(state := LIVE)
      case FILLED => o.(qty := r.leaves, state := if r.leaves == 0 then DEAD else o.state)
      case CANCELED => o.(state := DEAD)
      case REJECTED => o.(state := DEAD)
      case CANCEL_REJECTED => if o.state == PENDING_CANCEL then o.(state := LIVE) else o
      case OTHER => o
  }

  /** A slot after one call, the request sent if any, and the next order identifier. */
  datatype Moved = Moved(order: OMOrder, request: Option<Request>, nextId: nat)

  /** `newOrder`. */
  function NewOrder(o: OMOrder, p: Position, limits: RiskLimits, nextId: nat,
                    ticker: int, price: int, side: Side, qty: Qty, offset: Offset): Moved {
    if CheckPreTradeRisk(p, limits, side, offset, qty) != ALLOWED then Moved(o, None, nextId)
    else Moved(OMOrder(ticker, nextId, side, price, qty, offset, PENDING_NEW),
               Some(Request(NEW, ticker, nextId, side, price, qty, offset)), nextId + 1)
  }

  /** `cancelOrder`. */
  function CancelOrder(o: OMOrder, nextId: nat): Moved {
    if o.state != LIVE then Moved(o, None, nextId)
    else Moved(o.(state := PENDING_CANCEL),
               Some(Request(CANCEL_ORDER, o.ticker, o.id, o.side, o.price, o.qty, o.offset)), nextId)
  }

  /** `moveOrder`: a different live order is canceled, a free slot takes a new order, a pending one waits. */
  function MoveOrder(o: OMOrder, p: Position, limits: RiskLimits, nextId: nat,
                     ticker: int, price: int, side: Side, qty: Qty, offset: Offset): Moved {
    match o.state
    case LIVE =>
      if o.price != price || o.qty != qty || o.offset != offset then CancelOrder(o, nextId) else Moved(o, None, nextId)
    case PENDING_NEW => Moved(o, None, nextId)
    case PENDING_CANCEL => Moved(o, None, nextId)
    case _ =>
      if price != PRICE_INVALID && qty > 0 then NewOrder(o, p, limits, nextId, ticker, price, side, qty, offset)
      else Moved(o, None, nextId)
  }

  /** `moveCloseOrder`: the quantity is cut to what the chosen lot holds. */
  function MoveCloseOrder(o: OMOrder, p: Position, limits: RiskLimits, nextId: nat,
                          ticker: int, price: int, side: Side, qty: Qty): Moved {
    var offset := CloseOffsetFor(p, qty);
    if offset == INVALID then Moved(o, None, nextId)
    else
      var amount: Qty := Min(qty, CloseableQty(p, offset));
      if amount == 0 || CheckPreTradeRisk(p, limits, side, offset, amount) != ALLOWED then Moved(o, None, nextId)
      else MoveOrder(o, p, limits, nextId, ticker, price, side, amount, offset)
  }

  /** An empty slot. */
  const NO_ORDER: OMOrder := OMOrder(-1, -1, BUY, PRICE_INVALID, QTY_INVALID, Offset.INVALID, NONE)

  function SideToIndex(side: Side): nat { if side == BUY then 0 else 1 }

  class OrderManager {
    const orders: array2<OMOrder>
    var nextOrderId: nat

    ghost predicate Valid()
      reads this
    {
      orders.Length0 == TICKERS && orders.Length1 == 2
    }

    /** The slots of a ticker. */
    ghost function View(t: nat): Slots
      requires Valid() && t < TICKERS
      reads this, orders
    {
      Slots(orders[t, 0], orders[t, 1])
    }

    constructor ()
      ensures Valid() && fresh(orders) && nextOrderId == 1
      ensures forall t: nat :: t < TICKERS ==> View(t) == Slots(NO_ORDER, NO_ORDER)
    {
      orders := new OMOrder[TICKERS, 2]((i, j) => NO_ORDER);
      nextOrderId := 1;
    }

    method GetOrder(t: nat, side: Side) returns (o: OMOrder)
      requires Valid() && t < TICKERS
      ensures o == View(t).Get(side)
    {
      o := orders[t, SideToIndex(side)];
    }

    method OnOrderUpdate(r: Response)
      requires Valid()
      modifies orders
      ensures forall t: nat :: t < TICKERS ==>
        View(t) == if t != r.ticker then old(View(t))
            else old(View(t)).Put(r.fill.side, Updated(old(View(t)).Get(r.fill.side), r))
    {
      if r.ticker >= orders.Length0 {
        return;
      }
      var i := SideToIndex(r.fill.side);
      var order := orders[r.ticker, i];
      if order.id != r.id {
        return;
      }
      match r.kind {
        case ACCEPTED => order := order.(state := LIVE);
        case FILLED =>
          order := order.(qty := r.leaves);
          if order.qty == 0 {
            order := order.(state := DEAD);
          }
        case CANCELED => order := order.(state := DEAD);
        case REJECTED => order := order.(state := DEAD);
        case CANCEL_REJECTED =>
          if order.state == PENDING_CANCEL {
            order := order.(state := LIVE);
          }
        case OTHER =>
      }
      orders[r.ticker, i] := order;
    }

    /** What the methods below leave in the slot of a side, and the request to be sent. */
    twostate predicate Became(t: nat, side: Side, m: Moved, new request: Option<Request>)
      requires Valid() && t < TICKERS && old(Valid())
      reads this, orders
    {
      && View(t) == old(View(t)).Put(side, m.order)
      && (forall u: nat :: u < TICKERS && u != t ==> View(u) == old(View(u)))
      && request == m.request && nextOrderId == m.nextId
    }

    method MoveOpenOrder(t: nat, p: Position, limits: RiskLimits, price: int, side: Side, qty: Qty)
      returns (request: Option<Request>)
      requires Valid() && t < TICKERS
      modifies this`nextOrderId, orders
      ensures var o := old(View(t)).Get(side);
        Became(t, side, MoveOrder(o, p, limits, old(nextOrderId), t, price, side, qty, OPEN), request)
    {
      request := Move(t, p, limits, price, side, qty, OPEN);
    }

    method MoveClose(t: nat, p: Position, limits: RiskLimits, price: int, side: Side, qty: Qty)
      returns (request: Option<Request>)
      requires Valid() && t < TICKERS
      modifies this`nextOrderId, orders
      ensures var o := old(View(t)).Get(side);
        Became(t, side, MoveCloseOrder(o, p, limits, old(nextOrderId), t, price, side, qty), request)
    {
      var offset := CloseOffsetFor(p, qty);
      if offset == INVALID {
        return None;
      }
      var amount: Qty := Min(qty, CloseableQty(p, offset));
      if amount == 0 || CheckPreTradeRisk(p, limits, side, offset, amount) != ALLOWED {
        return None;
      }
      request := Move(t, p, limits, price, side, amount, offset);
    }

    method Move(t: nat, p: Position, limits: RiskLimits, price: int, side: Side, qty: Qty, offset: Offset)
      returns (request: Option<Request>)
      requires Valid() && t < TICKERS
      modifies this`nextOrderId, orders
      ensures Became(t, side, MoveOrder(old(View(t)).Get(side), p, limits, old(nextOrderId), t, price, side, qty,
          offset), request)
    {
      request := None;
      var order := orders[t, SideToIndex(side)];
      match order.state
      case LIVE =>
        if order.price != price || order.qty != qty || order.offset != offset {
          request := Cancel(t, side);
        }
      case PENDING_NEW =>
      case PENDING_CANCEL =>
      case _ =>
        if price != PRICE_INVALID && qty > 0 {
          request := New(t, p, limits, price, side, qty, offset);
        }
    }

    method New(t: nat, p: Position, limits: RiskLimits, price: int, side: Side, qty: Qty, offset: Offset)
      returns (request: Option<Request>)
      requires Valid() && t < TICKERS
      modifies this`nextOrderId, orders
      ensures var o := old(View(t)).Get(side);
        Became(t, side, NewOrder(o, p, limits, old(nextOrderId), t, price, side, qty, offset), request)
    {
      if CheckPreTradeRisk(p, limits, side, offset, qty) != ALLOWED {
        return None;
      }
      request := Some(Request(NEW, t, nextOrderId, side, price, qty, offset));
      orders[t, SideToIndex(side)] := OMOrder(t, nextOrderId, side, price, qty, offset, PENDING_NEW);
      nextOrderId := nextOrderId + 1;
    }

    method Cancel(t: nat, side: Side) returns (request: Option<Request>)
      requires Valid() && t < TICKERS
      modifies this`nextOrderId, orders
      ensures Became(t, side, CancelOrder(old(View(t)).Get(side), old(nextOrderId)), request)
    {
      var o := orders[t, SideToIndex(side)];
      if o.state != LIVE {
        return None;
      }
      request := Some(Request(CANCEL_ORDER, o.ticker, o.id, o.side, o.price, o.qty, o.offset));
      orders[t, SideToIndex(side)] := o.(state := PENDING_CANCEL);
    }
  }
}
