/** The participant-side order book of src/trading/strategy/market_order_book.h. */
module MarketOrderBooks {
  import opened Common
  import opened BookSpec
  import opened BookStores
  import opened BookRefinement

  datatype BookMode = UNINITIALIZED | INCREMENTAL | DEPTH_SNAPSHOT

  class MarketOrderBook {
    const store: BookStore
    var mode: BookMode
    var bbo: BBO

    ghost predicate Valid()
      reads this, store.Repr()
    {
      this !in store.Repr() && store in store.Repr() && store.Valid()
    }

    /** The maps the pooled structures stand for. */
    ghost function View(): Book
      reads store.Repr()
    {
      store.View()
    }

    constructor ()
      ensures Valid() && fresh(store.Repr()) && View() == EMPTY && mode == UNINITIALIZED && bbo == NO_BBO
    {
      hide BookStore.Valid;
      store := new BookStore();
      mode, bbo := UNINITIALIZED, NO_BBO;
    }

    method CancelOrder(id: int)
      requires Valid()
      modifies store.Repr()
      ensures Valid() && View() == Canceled(old(View()), id)
      ensures id !in View().orders
    {
      hide BookStore.Valid;
      var order := store.DropOrder(id);
      if order == None {
        return;
      }
      store.RemoveFromLevel(order.value.side, order.value.price, order.value.qty);
    }

    method AddOrder(order: BookOrder) returns (out: Outcome)
      requires Valid()
      modifies store.Repr()
      ensures Valid() && View() == AfterAdd(old(View()), order, LIMITS).0
      ensures out == AfterAdd(old(View()), order, LIMITS).1 && out != ModeError
    {
      hide BookStore.Valid;
      CancelOrder(order.orderId);
      var full := store.OrderCountReached();
      if full {
        return CapacityError;
      }
      var room := store.HasCapacityFor(order.side, order.price);
      if !room {
        return CapacityError;
      }
      store.StoreOrder(order);
      room := store.AddToLevel(order.side, order.price, order.qty);
      out := Ok;
    }

    /** A throwing MODIFY changes nothing; the capacity exception inside `createLevel` cannot strike after
        the removal from the old level. */
    method ModifyOrder(order: BookOrder) returns (out: Outcome)
      requires Valid()
      modifies store.Repr()
      ensures Valid() && View() == AfterModify(old(View()), order, LIMITS).0
      ensures out == AfterModify(old(View()), order, LIMITS).1 && out != ModeError
    {
      hide BookStore.Valid;
      var found := store.FindOrder(order.orderId);
      if found == None {
        return Ok;
      }
      var was := found.value;
      if was.side != order.side || was.price != order.price {
        out := MoveOrder(was, order);
        return;
      }
      if order.qty >= was.qty {
        var room := store.AddToLevel(order.side, order.price, order.qty - was.qty);
        if !room {
          return CapacityError;
        }
      } else {
        store.RemoveFromLevel(order.side, order.price, was.qty - order.qty);
      }
      store.RewriteOrder(order);
      out := Ok;
    }

    method MoveOrder(was: BookOrder, order: BookOrder) returns (out: Outcome)
      requires Valid()
      requires order.orderId in View().orders && View().orders[order.orderId] == was
      requires was.side != order.side || was.price != order.price
      modifies store.Repr()
      ensures Valid() && View() == AfterModify(old(View()), order, LIMITS).0
      ensures out == AfterModify(old(View()), order, LIMITS).1 && out != ModeError
    {
      hide BookStore.Valid;
      var room := store.HasCapacityFor(order.side, order.price);
      if !room {
        return CapacityError;
      }
      ghost var b := View();
      store.RemoveFromLevel(was.side, was.price, was.qty);
      RoomRemains(b, was, order.side, order.price);
      room := store.AddToLevel(order.side, order.price, order.qty);
      assert room;
      store.RewriteOrder(order);
      out := Ok;
    }

    /** The switch of `onMarketUpdate` over incremental updates. */
    method Change(u: Update) returns (out: Outcome)
      requires Valid() && !u.Depth? && !u.Other?
      modifies store.Repr()
      ensures Valid()
      ensures View() == After(old(View()), u, LIMITS).0 && out == After(old(View()), u, LIMITS).1 && out != ModeError
    {
      hide BookStore.Valid, AfterAdd, AfterModify, Canceled;
      out := Ok;
      match u {
        case Add(order) => out := AddOrder(order);
        case Modify(order) => out := ModifyOrder(order);
        case Cancel(id) => CancelOrder(id);
        case Clear => store.Clear();
        case _ =>
      }
    }

    /** `onMarketUpdate`: incremental updates and depth snapshots exclude each other; the BBO follows every
        update that neither throws nor returns early. */
    method OnMarketUpdate(u: Update) returns (out: Outcome)
      requires Valid()
      modifies this, store.Repr()
      ensures Valid()
      ensures out == ModeError <==>
        (if u.Depth? then old(mode) == INCREMENTAL else !u.Other? && old(mode) == DEPTH_SNAPSHOT)
      ensures out == ModeError || u.Other? ==> mode == old(mode) && bbo == old(bbo) && View() == old(View())
      ensures out != ModeError && u.Depth? ==> mode == DEPTH_SNAPSHOT && bbo == u.front && View() == old(View())
      ensures out != ModeError && !u.Depth? && !u.Other? ==>
        && mode == INCREMENTAL
        && View() == After(old(View()), u, LIMITS).0
        && out == After(old(View()), u, LIMITS).1
        && (if out == Ok && !u.Trade? then BboOf(View(), bbo) else bbo == old(bbo))
    {
      hide BookStore.Valid, After, BboOf;
      if u.Other? {
        return Ok;
      }
      if u.Depth? {
        if mode == INCREMENTAL {
          return ModeError;
        }
        mode, bbo := DEPTH_SNAPSHOT, u.front;
        return Ok;
      }
      if mode == DEPTH_SNAPSHOT {
        return ModeError;
      }
      mode := INCREMENTAL;
      out := Change(u);
      if out == Ok && !u.Trade? {
        bbo := store.TopOfBook();
      }
    }

    /** Removing an order from its level never takes room away from another level. */
    static lemma RoomRemains(b: Book, was: BookOrder, side: Side, price: int)
      requires was.side != side || was.price != price
      requires HasRoom(b.Side(side), price, LIMITS)
      ensures HasRoom(b.Less(was.side, was.price, was.qty).Side(side), price, LIMITS)
    {
      var levels, left := b.Side(side), b.Less(was.side, was.price, was.qty).Side(side);
      assert left.Keys <= levels.Keys;
      SubsetSize(left.Keys, levels.Keys);
      assert |left| == |left.Keys| && |levels| == |levels.Keys|;
    }
  }

  /** A fresh book fed any run of updates but depth snapshots, exceptions included, holds what the run means;
      with positive quantities and totals that fit, its levels are the exact totals of its resting orders, and
      its BBO names the best of them unless the last update that touched the book threw. */
  method Replay(us: seq<Update>) returns (book: MarketOrderBook, last: Outcome)
    requires forall u :: u in us ==> !u.Depth? && PositiveUpdate(u)
    requires forall k: nat :: k <= |us| ==> Fits(Run(us[..k], LIMITS).orders)
    ensures book.Valid() && book.View() == Run(us, LIMITS)
    ensures Agrees(book.View())
    ensures last == LastOutcome(us, LIMITS)
    ensures last == Ok ==> BboOf(book.View(), book.bbo)
  {
    hide After, Fits, Agrees, MarketOrderBook.Valid, MarketOrderBook.View;
    book := new MarketOrderBook();
    last := Ok;
    assert BboOf(EMPTY, NO_BBO);
    hide BboOf;
    for i := 0 to |us|
      invariant fresh(book) && fresh(book.store.Repr()) && book.Valid() && book.mode != DEPTH_SNAPSHOT
      invariant book.View() == Run(us[..i], LIMITS) && last == LastOutcome(us[..i], LIMITS)
      invariant last == Ok ==> BboOf(book.View(), book.bbo)
    {
      assert us[i] in us;
      assert us[..i + 1][..i] == us[..i];
      PassiveKeeps(book.View(), us[i]);
      var out := book.OnMarketUpdate(us[i]);
      if !Passive(us[i]) {
        last := out;
      }
    }
    assert us[..|us|] == us;
    RunAgrees(us, LIMITS);
  }

  /** Updates that leave the book and its BBO alone. */
  predicate Passive(u: Update) { u.Trade? || u.Other? }

  lemma PassiveKeeps(b: Book, u: Update)
    ensures Passive(u) ==> After(b, u, LIMITS) == (b, Ok)
  {
  }

  /** How the last update that touches the book ends. */
  function LastOutcome(us: seq<Update>, limits: Limits): Outcome {
    if us == [] then Ok
    else
      var before, u := us[..|us| - 1], us[|us| - 1];
      if Passive(u) then LastOutcome(before, limits) else After(Run(before, limits), u, limits).1
  }
}
