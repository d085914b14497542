/** The pooled storage of one incremental book: resting orders and both sides of price levels
    (src/trading/strategy/market_order_book.h). */
module BookStores {
  import opened Common
  import opened BookSpec
  import opened SideBooks
  import opened OrderTables

  const MAX_BOOK_ORDER_SLOTS: nat := 64 * 1024
  const MAX_BOOK_LEVEL_SLOTS_PER_SIDE: nat := 4 * 1024

  /** The load-factor ceilings, three quarters of the slots. */
  const LIMITS: Limits := Limits(MAX_BOOK_ORDER_SLOTS * 3 / 4, MAX_BOOK_LEVEL_SLOTS_PER_SIDE * 3 / 4)

  class BookStore {
    const orders: OrderTable
    const bids: SideBook
    const asks: SideBook

    ghost function Repr(): set<object> {
      {this, orders, bids, asks} + orders.Repr + bids.Repr + asks.Repr
    }

    ghost predicate Valid()
      reads Repr()
    {
      && this !in orders.Repr && this !in bids.Repr && this !in asks.Repr
      && orders.Repr !! bids.Repr && orders.Repr !! asks.Repr && bids.Repr !! asks.Repr
      && orders in orders.Repr && bids in bids.Repr && asks in asks.Repr
      && orders.Valid() && bids.Valid() && asks.Valid()
      && orders.maxOrders == LIMITS.orders
      && bids.side == BUY && bids.maxLevels == LIMITS.levels
      && asks.side == SELL && asks.maxLevels == LIMITS.levels
    }

    /** The maps the pooled structures stand for. */
    ghost function View(): Book
      reads orders, bids, asks
    {
      Book(orders.contents, bids.contents, asks.contents)
    }

    constructor ()
      ensures Valid() && fresh(Repr()) && View() == EMPTY
    {
      hide SideBook.Valid, OrderTable.Valid;
      var table := new OrderTable(MAX_BOOK_ORDER_SLOTS, LIMITS.orders);
      var bidSide := new SideBook(BUY, MAX_BOOK_LEVEL_SLOTS_PER_SIDE, LIMITS.levels);
      var askSide := new SideBook(SELL, MAX_BOOK_LEVEL_SLOTS_PER_SIDE, LIMITS.levels);
      orders, bids, asks := table, bidSide, askSide;
    }

    method RemoveFromLevel(side: Side, price: int, qty: Qty)
      requires Valid()
      modifies bids.Repr, asks.Repr
      ensures Valid() && View() == old(View()).Less(side, price, qty)
    {
      hide SideBook.Valid, OrderTable.Valid;
      if side == BUY {
        bids.RemoveFromLevel(price, qty);
      } else {
        asks.RemoveFromLevel(price, qty);
      }
    }

    method AddToLevel(side: Side, price: int, qty: Qty) returns (ok: bool)
      requires Valid()
      modifies bids.Repr, asks.Repr
      ensures Valid() && ok == HasRoom(old(View().Side(side)), price, LIMITS)
      ensures View() == if ok then old(View()).More(side, price, qty) else old(View())
    {
      hide SideBook.Valid, OrderTable.Valid;
      if side == BUY {
        ok := bids.AddToLevel(price, qty);
      } else {
        ok := asks.AddToLevel(price, qty);
      }
    }

    method HasCapacityFor(side: Side, price: int) returns (ok: bool)
      requires Valid()
      ensures ok == HasRoom(View().Side(side), price, LIMITS)
    {
      hide SideBook.Valid, OrderTable.Valid;
      if side == BUY {
        ok := bids.HasCapacityFor(price);
      } else {
        ok := asks.HasCapacityFor(price);
      }
    }

    /** The order's own slot and block, without its level. */
    method StoreOrder(order: BookOrder)
      requires Valid() && order.orderId !in View().orders && |View().orders| < LIMITS.orders
      modifies orders.Repr
      ensures Valid() && View() == old(View()).(orders := old(View()).orders[order.orderId := order])
    {
      hide SideBook.Valid, OrderTable.Valid;
      orders.Insert(order);
    }

    method RewriteOrder(order: BookOrder)
      requires Valid() && order.orderId in View().orders
      modifies orders.Repr
      ensures Valid() && View() == old(View()).(orders := old(View()).orders[order.orderId := order])
    {
      hide SideBook.Valid, OrderTable.Valid;
      orders.Set(order);
    }

    method DropOrder(id: int) returns (order: Option<BookOrder>)
      requires Valid()
      modifies orders.Repr
      ensures Valid() && View() == old(View()).(orders := old(View()).orders - {id})
      ensures order == if id in old(View()).orders then Some(old(View()).orders[id]) else None
      ensures order == None ==> View() == old(View())
    {
      hide SideBook.Valid, OrderTable.Valid;
      order := orders.Erase(id);
    }

    method OrderCountReached() returns (full: bool)
      requires Valid()
      ensures full == (|View().orders| >= LIMITS.orders)
    {
      hide SideBook.Valid, OrderTable.Valid;
      full := orders.IsFull();
    }

    method FindOrder(id: int) returns (order: Option<BookOrder>)
      requires Valid()
      ensures order == if id in View().orders then Some(View().orders[id]) else None
    {
      hide SideBook.Valid, OrderTable.Valid;
      order := orders.Find(id);
    }

    /** `clearIncrementalBook` without the BBO: every order and level block is freed. */
    method Clear()
      requires Valid()
      modifies orders.Repr, bids.Repr, asks.Repr
      ensures Valid() && View() == EMPTY
    {
      hide SideBook.Valid, OrderTable.Valid;
      orders.Clear();
      bids.Clear();
      asks.Clear();
    }

    /** The heads of both sorted lists, which `updateBBOFromIncrementalBook` reads. */
    method TopOfBook() returns (bbo: BBO)
      requires Valid()
      ensures BboOf(View(), bbo)
    {
      hide SideBook.Valid, OrderTable.Valid;
      var bid := bids.Best();
      var ask := asks.Best();
      bbo := NO_BBO;
      if bid.Some? {
        bbo := bbo.(bidPrice := bid.value.0, bidQty := bid.value.1);
      }
      if ask.Some? {
        bbo := bbo.(askPrice := ask.value.0, askQty := ask.value.1);
      }
    }
  }
}
