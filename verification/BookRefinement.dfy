/** The aggregate levels of the incremental book against the orders they should summarise. */
module BookRefinement {
  import opened Common
  import opened BookSpec

  /** What one order contributes to a price. */
  function Share(o: BookOrder, side: Side, price: int): nat {
    if o.side == side && o.price == price then o.qty else 0
  }

  /** The total resting quantity at a price. */
  ghost function SumAt(orders: Orders, side: Side, price: int): nat
    decreases |orders|
  {
    if exists id :: id in orders then
      var id :| id in orders;
      Share(orders[id], side, price) + SumAt(orders - {id}, side, price)
    else 0
  }

  ghost predicate RestsAt(orders: Orders, side: Side, price: int) {
    exists id :: id in orders && orders[id].side == side && orders[id].price == price
  }

  /** Level p of a side exists exactly when an order rests there, with the total of the resting orders. */
  ghost predicate LevelAgrees(b: Book, side: Side, p: int) {
    && (p in b.Side(side) <==> RestsAt(b.orders, side, p))
    && (p in b.Side(side) ==> b.Side(side)[p] == SumAt(b.orders, side, p))
  }

  ghost predicate Agrees(b: Book) {
    forall side: Side, p: int :: LevelAgrees(b, side, p)
  }

  ghost predicate Positive(orders: Orders) {
    forall id :: id in orders ==> orders[id].qty > 0
  }

  /** Level totals stay within std::uint32_t. */
  ghost predicate Fits(orders: Orders) {
    forall side: Side, p: int :: SumAt(orders, side, p) < U32_RANGE
  }

  /** The sum does not depend on the order in which it is taken. */
  lemma {:induction false} SumWithout(orders: Orders, id: int, side: Side, price: int)
    requires id in orders
    ensures SumAt(orders, side, price) == Share(orders[id], side, price) + SumAt(orders - {id}, side, price)
    decreases |orders|
  {
    var first :| first in orders && SumAt(orders, side, price)
                   == Share(orders[first], side, price) + SumAt(orders - {first}, side, price);
    if first != id {
      SumWithout(orders - {first}, id, side, price);
      SumWithout(orders - {id}, first, side, price);
      assert orders - {first} - {id} == orders - {id} - {first};
    }
  }

  lemma SumWith(orders: Orders, o: BookOrder, side: Side, price: int)
    requires o.orderId !in orders
    ensures SumAt(orders[o.orderId := o], side, price) == SumAt(orders, side, price) + Share(o, side, price)
  {
    SumWithout(orders[o.orderId := o], o.orderId, side, price);
    assert orders[o.orderId := o] - {o.orderId} == orders;
  }

  /** With positive quantities a price has resting orders exactly when its total is positive. */
  lemma {:induction false} RestsIffPositive(orders: Orders, side: Side, price: int)
    requires Positive(orders)
    ensures RestsAt(orders, side, price) <==> SumAt(orders, side, price) > 0
    decreases |orders|
  {
    if id :| id in orders {
      var rest := orders - {id};
      SumWithout(orders, id, side, price);
      RestsIffPositive(rest, side, price);
      if RestsAt(rest, side, price) {
        var j :| j in rest && rest[j].side == side && rest[j].price == price;
        assert j in orders;
      }
      if RestsAt(orders, side, price) && !RestsAt(rest, side, price) {
        var j :| j in orders && orders[j].side == side && orders[j].price == price;
        assert j in rest <==> j != id;
      }
    }
  }

  lemma RestsWithout(orders: Orders, id: int, side: Side, price: int)
    requires id in orders
    ensures RestsAt(orders, side, price) <==>
      RestsAt(orders - {id}, side, price) || (orders[id].side == side && orders[id].price == price)
  {
    var rest := orders - {id};
    if RestsAt(rest, side, price) {
      var j :| j in rest && rest[j].side == side && rest[j].price == price;
      assert j in orders;
    }
    if RestsAt(orders, side, price) {
      var j :| j in orders && orders[j].side == side && orders[j].price == price;
      assert j == id || j in rest;
    }
  }

  /** Cancelling an order keeps the levels right exactly when the orders it leaves at its price, if there
      are any, have a positive total: a zero-quantity order left alone would lose its level. */
  lemma CancelExact(b: Book, id: int)
    requires Agrees(b) && id in b.orders
    ensures var o := b.orders[id]; var rest := b.orders - {id};
      Agrees(Canceled(b, id)) <==> (RestsAt(rest, o.side, o.price) ==> SumAt(rest, o.side, o.price) > 0)
  {
    var o, rest, c := b.orders[id], b.orders - {id}, Canceled(b, id);
    forall side: Side, p: int
      ensures LevelAgrees(c, side, p) <==>
        (side == o.side && p == o.price && RestsAt(rest, side, p) ==> SumAt(rest, side, p) > 0)
    {
      assert LevelAgrees(b, side, p);
      SumWithout(b.orders, id, side, p);
      RestsWithout(b.orders, id, side, p);
      EmptySum(rest, side, p);
    }
    assert Agrees(c) ==> LevelAgrees(c, o.side, o.price);
  }

  /** No resting order, no quantity. */
  lemma {:induction false} EmptySum(orders: Orders, side: Side, price: int)
    ensures !RestsAt(orders, side, price) ==> SumAt(orders, side, price) == 0
    decreases |orders|
  {
    if id :| id in orders && !RestsAt(orders, side, price) {
      SumWithout(orders, id, side, price);
      RestsWithout(orders, id, side, price);
      EmptySum(orders - {id}, side, price);
    }
  }

  /** Resting a new order keeps the levels right exactly when the new total of its price fits. */
  lemma RestExact(b: Book, o: BookOrder)
    requires Agrees(b) && o.orderId !in b.orders
    ensures var after := b.(orders := b.orders[o.orderId := o]).More(o.side, o.price, o.qty);
      Agrees(after) <==> SumAt(after.orders, o.side, o.price) < U32_RANGE
  {
    hide SumAt;
    var after := b.(orders := b.orders[o.orderId := o]).More(o.side, o.price, o.qty);
    forall side: Side, p: int
      ensures LevelAgrees(after, side, p) <==>
        (side == o.side && p == o.price ==> SumAt(after.orders, side, p) < U32_RANGE)
    {
      assert LevelAgrees(b, side, p);
      SumWith(b.orders, o, side, p);
      RestsWithout(after.orders, o.orderId, side, p);
      assert after.orders - {o.orderId} == b.orders;
      EmptySum(b.orders, side, p);
    }
    assert Agrees(after) ==> LevelAgrees(after, o.side, o.price);
  }

  /** A positive book stays right under cancellation. */
  lemma CancelAgrees(b: Book, id: int)
    requires Agrees(b) && Positive(b.orders)
    ensures Agrees(Canceled(b, id)) && Positive(Canceled(b, id).orders)
  {
    if id in b.orders {
      var o := b.orders[id];
      RestsIffPositive(b.orders - {id}, o.side, o.price);
      CancelExact(b, id);
    }
  }

  /** A modification is a cancellation followed by an addition, as far as levels and orders go. */
  lemma ModifyIsReplace(b: Book, o: BookOrder)
    requires Agrees(b) && Positive(b.orders) && o.orderId in b.orders && o.qty > 0
    requires SumAt(b.orders[o.orderId := o], o.side, o.price) < U32_RANGE
    ensures var was := b.orders[o.orderId]; var c := Canceled(b, o.orderId);
      var replaced := c.(orders := c.orders[o.orderId := o]).More(o.side, o.price, o.qty);
      && replaced.orders == b.orders[o.orderId := o]
      && replaced == (if was.side != o.side || was.price != o.price
                      then b.Less(was.side, was.price, was.qty).More(o.side, o.price, o.qty)
                      else if o.qty < was.qty then b.Less(o.side, o.price, was.qty - o.qty)
                      else b.More(o.side, o.price, o.qty - was.qty)).(orders := b.orders[o.orderId := o])
  {
    var was, c := b.orders[o.orderId], Canceled(b, o.orderId);
    assert c.orders[o.orderId := o] == b.orders[o.orderId := o];
    if was.side == o.side && was.price == o.price {
      assert LevelAgrees(b, o.side, o.price);
      SumWithout(b.orders, o.orderId, o.side, o.price);
      SumWith(c.orders, o, o.side, o.price);
      var levels := b.Side(o.side);
      assert levels[o.price] == was.qty + SumAt(c.orders, o.side, o.price);
      assert levels[o.price] - was.qty + o.qty < U32_RANGE;
      MovedDifference(levels, o.price, was.qty, o.qty);
    }
  }

  /** A modification at the same price keeps the levels right exactly when a smaller quantity leaves something
      at the price (not when it falls to 0 with nothing else there), and a larger one still fits. */
  lemma ResizeExact(b: Book, o: BookOrder)
    requires Agrees(b) && o.orderId in b.orders
    requires b.orders[o.orderId].side == o.side && b.orders[o.orderId].price == o.price
    ensures forall limits: Limits :: AfterModify(b, o, limits) == (Resized(b, o), Ok)
    ensures var sum := SumAt(b.orders[o.orderId := o], o.side, o.price);
      Agrees(Resized(b, o)) <==> if o.qty < b.orders[o.orderId].qty then sum > 0 else sum < U32_RANGE
  {
    var was, after := b.orders[o.orderId], Resized(b, o);
    assert RestsAt(b.orders, o.side, o.price) && LevelAgrees(b, o.side, o.price);
    assert after.orders - {o.orderId} == b.orders - {o.orderId};
    assert o.orderId in after.orders && after.orders[o.orderId] == o;
    forall side: Side, p: int
      ensures SumAt(after.orders, side, p) == SumAt(b.orders, side, p) - Share(was, side, p) + Share(o, side, p)
      ensures RestsAt(after.orders, side, p) <==> RestsAt(b.orders, side, p)
    {
      SumWithout(b.orders, o.orderId, side, p);
      SumWithout(after.orders, o.orderId, side, p);
      RestsWithout(b.orders, o.orderId, side, p);
      RestsWithout(after.orders, o.orderId, side, p);
    }
    forall side: Side, p: int | side != o.side || p != o.price ensures LevelAgrees(after, side, p) {
      assert LevelAgrees(b, side, p);
    }
    assert Agrees(after) <==> LevelAgrees(after, o.side, o.price);
  }

  /** `modifyOrder` at an unchanged price. */
  function Resized(b: Book, o: BookOrder): Book
    requires o.orderId in b.orders
  {
    var was := b.orders[o.orderId];
    (if o.qty < was.qty then b.Less(o.side, o.price, was.qty - o.qty) else b.More(o.side, o.price, o.qty - was.qty))
      .(orders := b.orders[o.orderId := o])
  }

  /** A modification to another price or side keeps the levels right exactly when what stays behind has a
      positive total and the new total fits. */
  lemma MoveExact(b: Book, o: BookOrder, limits: Limits)
    requires Agrees(b) && o.orderId in b.orders && AfterModify(b, o, limits).1 == Ok
    requires b.orders[o.orderId].side != o.side || b.orders[o.orderId].price != o.price
    ensures var was, rest := b.orders[o.orderId], b.orders - {o.orderId};
      Agrees(AfterModify(b, o, limits).0) <==>
        && (RestsAt(rest, was.side, was.price) ==> SumAt(rest, was.side, was.price) > 0)
        && SumAt(b.orders[o.orderId := o], o.side, o.price) < U32_RANGE
  {
    var was, rest := b.orders[o.orderId], b.orders - {o.orderId};
    var c, after := Canceled(b, o.orderId), AfterModify(b, o, limits).0;
    hide Agrees, LevelAgrees, AfterModify, Canceled, SumAt, RestsAt;
    MovedIsRest(b, o, limits);
    CanceledOrders(b, o.orderId);
    CancelExact(b, o.orderId);
    if Agrees(c) {
      RestExact(c, o);
    } else {
      var side, p := Disagreement(c);
      if side != was.side || p != was.price { CancelElsewhere(b, o.orderId, side, p); }
      RestElsewhere(c, o, side, p);
      OneDisagreement(after, side, p);
    }
  }

  lemma MovedIsRest(b: Book, o: BookOrder, limits: Limits)
    requires o.orderId in b.orders && AfterModify(b, o, limits).1 == Ok
    requires b.orders[o.orderId].side != o.side || b.orders[o.orderId].price != o.price
    ensures var c := Canceled(b, o.orderId);
      AfterModify(b, o, limits).0 == c.(orders := c.orders[o.orderId := o]).More(o.side, o.price, o.qty)
    ensures (b.orders - {o.orderId})[o.orderId := o] == b.orders[o.orderId := o]
  {
    hide Added, Removed;
    assert (b.orders - {o.orderId})[o.orderId := o] == b.orders[o.orderId := o];
  }

  lemma CanceledOrders(b: Book, id: int)
    ensures Canceled(b, id).orders == b.orders - {id}
  {
    if id !in b.orders { assert b.orders - {id} == b.orders; }
  }

  lemma Disagreement(b: Book) returns (side: Side, p: int)
    requires !Agrees(b)
    ensures !LevelAgrees(b, side, p)
  {
    side, p :| !LevelAgrees(b, side, p);
  }

  lemma OneDisagreement(b: Book, side: Side, p: int)
    requires !LevelAgrees(b, side, p)
    ensures !Agrees(b)
  {
  }

  /** A cancellation touches one level. */
  lemma CancelElsewhere(b: Book, id: int, side: Side, p: int)
    requires Agrees(b) && id in b.orders && (side != b.orders[id].side || p != b.orders[id].price)
    ensures LevelAgrees(Canceled(b, id), side, p)
  {
    assert LevelAgrees(b, side, p);
    SumWithout(b.orders, id, side, p);
    RestsWithout(b.orders, id, side, p);
  }

  /** So does an addition. */
  lemma RestElsewhere(b: Book, o: BookOrder, side: Side, p: int)
    requires o.orderId !in b.orders && (side != o.side || p != o.price)
    ensures var after := b.(orders := b.orders[o.orderId := o]).More(o.side, o.price, o.qty);
      LevelAgrees(after, side, p) <==> LevelAgrees(b, side, p)
  {
    var orders := b.orders[o.orderId := o];
    SumWith(b.orders, o, side, p);
    RestsWithout(orders, o.orderId, side, p);
    assert orders - {o.orderId} == b.orders;
  }

  /** A modification to quantity 0 leaves order 1 resting at 100 without a level. */
  lemma ZeroModifyLosesLevel(limits: Limits)
    requires limits.orders >= 1 && limits.levels >= 1
    ensures var b := Run([Add(BookOrder(1, 100, 5, BUY)), Modify(BookOrder(1, 100, 0, BUY))], limits);
      RestsAt(b.orders, BUY, 100) && 100 !in b.bids
  {
    var u1, u2 := Add(BookOrder(1, 100, 5, BUY)), Modify(BookOrder(1, 100, 0, BUY));
    assert [u1][..0] == [] && Run([u1][..0], limits) == EMPTY;
    var b1 := Run([u1], limits);
    assert b1.orders == map[1 := BookOrder(1, 100, 5, BUY)] && b1.bids == map[100 := 5];
    assert [u1, u2][..1] == [u1];
    var b2 := Run([u1, u2], limits);
    assert 1 in b2.orders && b2.orders[1] == BookOrder(1, 100, 0, BUY);
  }

  /** Moving only the difference of two quantities equals removing the one and adding the other. */
  lemma MovedDifference(levels: Levels, price: int, was: Qty, now: Qty)
    requires price in levels && was <= levels[price] && 0 < was && 0 < now && levels[price] - was + now < U32_RANGE
    ensures Added(Removed(levels, price, was), price, now)
         == if now < was then Removed(levels, price, was - now) else Added(levels, price, now - was)
  {
  }

  predicate PositiveUpdate(u: Update) {
    match u
    case Add(o) => o.qty > 0
    case Modify(o) => o.qty > 0
    case _ => true
  }

  lemma AddAgrees(b: Book, o: BookOrder, limits: Limits)
    requires Agrees(b) && Positive(b.orders) && o.qty > 0
    requires Fits(AfterAdd(b, o, limits).0.orders)
    ensures Agrees(AfterAdd(b, o, limits).0) && Positive(AfterAdd(b, o, limits).0.orders)
  {
    hide Agrees, Added, Removed, SumAt;
    CancelAgrees(b, o.orderId);
    var c := Canceled(b, o.orderId);
    if AfterAdd(b, o, limits).1 == Ok {
      RestExact(c, o);
      assert AfterAdd(b, o, limits).0.orders == c.orders[o.orderId := o];
    }
  }

  lemma ModifyAgrees(b: Book, o: BookOrder, limits: Limits)
    requires Agrees(b) && Positive(b.orders) && o.qty > 0
    requires Fits(AfterModify(b, o, limits).0.orders)
    ensures Agrees(AfterModify(b, o, limits).0) && Positive(AfterModify(b, o, limits).0.orders)
  {
    hide Agrees, Added, Removed, SumAt;
    if o.orderId in b.orders && AfterModify(b, o, limits).1 == Ok {
      assert AfterModify(b, o, limits).0.orders == b.orders[o.orderId := o];
      ModifyIsReplace(b, o);
      CancelAgrees(b, o.orderId);
      RestExact(Canceled(b, o.orderId), o);
    }
  }

  /** Every update keeps the levels right, whether it succeeds or throws. */
  lemma StepAgrees(b: Book, u: Update, limits: Limits)
    requires Agrees(b) && Positive(b.orders) && PositiveUpdate(u)
    requires Fits(After(b, u, limits).0.orders)
    ensures Agrees(After(b, u, limits).0) && Positive(After(b, u, limits).0.orders)
  {
    hide Agrees, AfterAdd, AfterModify, Canceled;
    match u {
      case Add(o) => AddAgrees(b, o, limits);
      case Modify(o) => ModifyAgrees(b, o, limits);
      case Cancel(id) => CancelAgrees(b, id);
      case Clear => EmptyAgrees();
      case _ =>
    }
  }

  lemma EmptyAgrees()
    ensures Agrees(EMPTY) && Positive(EMPTY.orders)
  {
  }

  /** The book after a run of updates, failed ones included. */
  function Run(us: seq<Update>, limits: Limits): Book {
    if us == [] then EMPTY else After(Run(us[..|us| - 1], limits), us[|us| - 1], limits).0
  }

  /** Over every run of positive updates whose level totals fit, each level is the exact total of the
      orders resting at its price, and no other level exists. */
  lemma {:induction false} RunAgrees(us: seq<Update>, limits: Limits)
    requires forall u :: u in us ==> PositiveUpdate(u)
    requires forall k: nat :: k <= |us| ==> Fits(Run(us[..k], limits).orders)
    ensures Agrees(Run(us, limits)) && Positive(Run(us, limits).orders)
  {
    if us == [] {
      EmptyAgrees();
    } else {
      var n := |us| - 1;
      forall k: nat | k <= n ensures us[..n][..k] == us[..k] {
      }
      RunAgrees(us[..n], limits);
      assert us[..|us|] == us && us[n] in us;
      StepAgrees(Run(us[..n], limits), us[n], limits);
    }
  }

  /** The BBO of such a book names the best price among the resting orders of a side, and their total. */
  lemma BboIsBestOrders(b: Book, bbo: BBO, side: Side)
    requires Agrees(b) && BboOf(b, bbo)
    ensures var price := if side == BUY then bbo.bidPrice else bbo.askPrice;
      var qty := if side == BUY then bbo.bidQty else bbo.askQty;
      if exists id :: id in b.orders && b.orders[id].side == side then
        && RestsAt(b.orders, side, price) && qty == SumAt(b.orders, side, price)
        && forall id :: id in b.orders && b.orders[id].side == side ==> !Better(side, b.orders[id].price, price)
      else price == PRICE_INVALID && qty == QTY_INVALID
  {
    var price := if side == BUY then bbo.bidPrice else bbo.askPrice;
    forall id | id in b.orders && b.orders[id].side == side ensures b.orders[id].price in b.Side(side) {
      assert LevelAgrees(b, side, b.orders[id].price);
    }
    if b.Side(side) == map[] {
      assert forall p :: p !in b.Side(side);
    } else {
      assert LevelAgrees(b, side, price);
    }
  }

  /** Zero quantities break the correspondence: the order 2 rests at 100 without a level. */
  lemma ZeroQuantityLosesLevel(limits: Limits)
    requires limits.orders >= 2 && limits.levels >= 1
    ensures var b := Run([Add(BookOrder(1, 100, 5, BUY)), Add(BookOrder(2, 100, 0, BUY)), Cancel(1)], limits);
      RestsAt(b.orders, BUY, 100) && 100 !in b.bids
  {
    var u1, u2, u3 := Add(BookOrder(1, 100, 5, BUY)), Add(BookOrder(2, 100, 0, BUY)), Cancel(1);
    var b1 := Run([u1], limits);
    assert [u1][..0] == [] && Run([u1][..0], limits) == EMPTY;
    assert b1.orders == map[1 := BookOrder(1, 100, 5, BUY)] && b1.bids == map[100 := 5];
    var b2 := Run([u1, u2], limits);
    assert [u1, u2][..1] == [u1];
    assert |b1.orders| == 1;
    assert 2 in b2.orders && b2.bids[100] == 5 && b2.orders[1].qty == 5;
    var b3 := Run([u1, u2, u3], limits);
    assert [u1, u2, u3][..2] == [u1, u2];
    assert 2 in b3.orders && b3.orders[2] == BookOrder(2, 100, 0, BUY);
  }
}
