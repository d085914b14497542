/** Which orders the incremental book holds and which updates it takes, said by the orders alone. */
module BookLaws {
  import opened Common
  import opened BookSpec
  import opened BookRefinement

  /** The prices at which a side has resting orders. */
  function Prices(orders: Orders, side: Side): set<int> {
    set id | id in orders && orders[id].side == side :: orders[id].price
  }

  /** A side may rest an order at the price: others rest there, or another level fits. */
  predicate MayRest(orders: Orders, side: Side, price: int, limits: Limits) {
    price in Prices(orders, side) || |Prices(orders, side)| < limits.levels
  }

  lemma LevelsArePrices(b: Book, side: Side)
    requires Agrees(b)
    ensures b.Side(side).Keys == Prices(b.orders, side) && |b.Side(side)| == |Prices(b.orders, side)|
  {
    forall p ensures p in b.Side(side) <==> p in Prices(b.orders, side) {
      assert LevelAgrees(b, side, p);
    }
    assert |b.Side(side)| == |b.Side(side).Keys|;
  }

  /** An addition succeeds exactly when, its old order gone, the other orders are below their ceiling and its side may
      rest it at its price; then it stands as given, otherwise the old order is gone all the same. */
  lemma AddExact(b: Book, o: BookOrder, limits: Limits)
    requires Agrees(b) && Agrees(Canceled(b, o.orderId))
    ensures var (after, out) := AfterAdd(b, o, limits); var rest := b.orders - {o.orderId};
      && (out == Ok <==> |rest| < limits.orders && MayRest(rest, o.side, o.price, limits))
      && (out == Ok ==> after.orders == b.orders[o.orderId := o])
      && (out != Ok ==> out == CapacityError && after.orders == rest)
  {
    hide Canceled, Agrees, Prices, HasRoom, AfterAdd;
    CanceledOrders(b, o.orderId);
    AddOrders(b, o, limits);
    RoomIsMayRest(Canceled(b, o.orderId), o.side, o.price, limits);
    AddOutcome(b, o, limits);
  }

  lemma RoomIsMayRest(b: Book, side: Side, price: int, limits: Limits)
    requires Agrees(b)
    ensures HasRoom(b.Side(side), price, limits) <==> MayRest(b.orders, side, price, limits)
  {
    LevelsArePrices(b, side);
    hide Agrees, Prices;
  }

  lemma AddOutcome(b: Book, o: BookOrder, limits: Limits)
    ensures var c, out := Canceled(b, o.orderId), AfterAdd(b, o, limits).1;
      && (out == Ok <==> |c.orders| < limits.orders && HasRoom(c.Side(o.side), o.price, limits))
      && (out != Ok ==> out == CapacityError)
  {
    hide Canceled, HasRoom, Added;
  }

  /** A modification of an order that rests succeeds exactly when its side may rest it at its price; then it
      stands as given, and otherwise, or for an unknown identifier, nothing changes. */
  lemma ModifyExact(b: Book, o: BookOrder, limits: Limits)
    requires Agrees(b)
    ensures var (after, out) := AfterModify(b, o, limits);
      && (out == Ok <==> o.orderId !in b.orders || MayRest(b.orders, o.side, o.price, limits))
      && (out == Ok && o.orderId in b.orders ==> after.orders == b.orders[o.orderId := o])
      && (out != Ok ==> out == CapacityError)
      && (out != Ok || o.orderId !in b.orders ==> after == b)
  {
    hide Agrees;
    LevelsArePrices(b, o.side);
    if o.orderId in b.orders {
      assert b.orders[o.orderId].side == o.side ==> b.orders[o.orderId].price in Prices(b.orders, o.side);
    }
  }

  // ----- over runs -------------------------------------------------------------------------------------------

  /** The k-th update of a run rests this order: an ADD that succeeds, or a MODIFY of a resting order that does. */
  predicate Rests(us: seq<Update>, limits: Limits, k: nat, o: BookOrder)
    requires k < |us|
  {
    var b := Run(us[..k], limits);
    && (us[k] == Add(o) || (us[k] == Modify(o) && o.orderId in b.orders))
    && After(b, us[k], limits).1 == Ok
  }

  /** The k-th update ends the order of this identifier: a CANCEL, a CLEAR, or an ADD that fails. */
  predicate Ends(us: seq<Update>, limits: Limits, k: nat, id: int)
    requires k < |us|
  {
    match us[k]
    case Cancel(j) => j == id
    case Clear => true
    case Add(o) => o.orderId == id && After(Run(us[..k], limits), us[k], limits).1 != Ok
    case _ => false
  }

  /** Nothing after the k-th update is about this identifier. */
  ghost predicate LastWord(us: seq<Update>, limits: Limits, k: nat, id: int) {
    forall j: nat :: k < j < |us| ==> !Ends(us, limits, j, id) && !Renews(us, limits, j, id)
  }

  /** The k-th update rests an order of this identifier. */
  predicate Renews(us: seq<Update>, limits: Limits, k: nat, id: int)
    requires k < |us|
  {
    (us[k].Add? || us[k].Modify?) && us[k].order.orderId == id && Rests(us, limits, k, us[k].order)
  }

  ghost predicate Stands(us: seq<Update>, limits: Limits, o: BookOrder) {
    exists k: nat :: StandsSince(us, limits, k, o)
  }

  /** Rested by the k-th update, the last about its identifier. */
  ghost predicate StandsSince(us: seq<Update>, limits: Limits, k: nat, o: BookOrder) {
    k < |us| && Rests(us, limits, k, o) && LastWord(us, limits, k, o.orderId)
  }

  lemma EarlierSame(us: seq<Update>, limits: Limits, n: nat, k: nat, o: BookOrder)
    requires k < n <= |us|
    ensures Rests(us[..n], limits, k, o) == Rests(us, limits, k, o)
    ensures Renews(us[..n], limits, k, o.orderId) == Renews(us, limits, k, o.orderId)
    ensures Ends(us[..n], limits, k, o.orderId) == Ends(us, limits, k, o.orderId)
  {
    hide Run, After;
    assert us[..n][..k] == us[..k];
  }

  lemma LastWordGrows(us: seq<Update>, limits: Limits, k: nat, o: BookOrder)
    requires k + 1 < |us|
    ensures var n := |us| - 1;
      LastWord(us, limits, k, o.orderId) <==>
        LastWord(us[..n], limits, k, o.orderId) && !Ends(us, limits, n, o.orderId) && !Renews(us, limits, n, o.orderId)
  {
    hide Rests, Renews, Ends;
    var n := |us| - 1;
    forall j: nat | j < n
      ensures Renews(us[..n], limits, j, o.orderId) == Renews(us, limits, j, o.orderId)
      ensures Ends(us[..n], limits, j, o.orderId) == Ends(us, limits, j, o.orderId)
    {
      EarlierSame(us, limits, n, j, o);
    }
  }

  lemma SinceGrows(us: seq<Update>, limits: Limits, k: nat, o: BookOrder)
    requires us != []
    ensures var n := |us| - 1;
      StandsSince(us, limits, k, o) <==>
        if k == n then Rests(us, limits, n, o)
        else StandsSince(us[..n], limits, k, o) && !Ends(us, limits, n, o.orderId) && !Renews(us, limits, n, o.orderId)
  {
    hide Rests, Renews, Ends;
    var n := |us| - 1;
    if k == n { assert LastWord(us, limits, n, o.orderId); }
    hide LastWord;
    if k < n {
      EarlierSame(us, limits, n, k, o);
      LastWordGrows(us, limits, k, o);
    }
  }

  /** An order stands because the last update rests it, or because it stood and the last update let it be. */
  lemma StandsGrows(us: seq<Update>, limits: Limits, o: BookOrder)
    requires us != []
    ensures var n := |us| - 1;
      Stands(us, limits, o) <==>
        Rests(us, limits, n, o)
        || (Stands(us[..n], limits, o) && !Ends(us, limits, n, o.orderId) && !Renews(us, limits, n, o.orderId))
  {
    hide Rests, Renews, Ends;
    var n := |us| - 1;
    if Rests(us, limits, n, o) { SinceGrows(us, limits, n, o); }
    if k: nat :| StandsSince(us[..n], limits, k, o) {
      assert k < n;
      SinceGrows(us, limits, k, o);
    }
    if k: nat :| StandsSince(us, limits, k, o) {
      SinceGrows(us, limits, k, o);
    }
  }

  lemma AddOrders(b: Book, o: BookOrder, limits: Limits)
    ensures var (after, out) := AfterAdd(b, o, limits);
      after.orders == if out == Ok then b.orders[o.orderId := o] else b.orders - {o.orderId}
  {
    hide Canceled, HasRoom, Added;
    CanceledOrders(b, o.orderId);
    assert (b.orders - {o.orderId})[o.orderId := o] == b.orders[o.orderId := o];
  }

  lemma ModifyOrders(b: Book, o: BookOrder, limits: Limits)
    ensures var (after, out) := AfterModify(b, o, limits);
      after.orders == if out == Ok && o.orderId in b.orders then b.orders[o.orderId := o] else b.orders
  {
    hide HasRoom, Added, Removed;
  }

  /** What one update does to the orders. */
  lemma UpdateOrders(b: Book, u: Update, limits: Limits)
    ensures var (after, out) := After(b, u, limits);
      match u
      case Add(o) => after.orders == if out == Ok then b.orders[o.orderId := o] else b.orders - {o.orderId}
      case Modify(o) =>
        after.orders == if out == Ok && o.orderId in b.orders then b.orders[o.orderId := o] else b.orders
      case Cancel(id) => after.orders == b.orders - {id}
      case Clear => after.orders == map[]
      case _ => after == b && out == Ok
  {
    hide AfterAdd, AfterModify, Canceled;
    match u {
      case Add(o) => AddOrders(b, o, limits);
      case Modify(o) => ModifyOrders(b, o, limits);
      case Cancel(id) => CanceledOrders(b, id);
      case _ =>
    }
  }

  /** What one update does to the order of an identifier. */
  lemma StepOrders(us: seq<Update>, limits: Limits, o: BookOrder)
    requires us != []
    ensures var n := |us| - 1; var before, after := Run(us[..n], limits).orders, Run(us, limits).orders;
      (o.orderId in after && after[o.orderId] == o) <==>
        Rests(us, limits, n, o)
        || (o.orderId in before && before[o.orderId] == o
            && !Ends(us, limits, n, o.orderId) && !Renews(us, limits, n, o.orderId))
  {
    var n := |us| - 1;
    var b := Run(us[..n], limits);
    assert Run(us, limits) == After(b, us[n], limits).0;
    hide After, Run;
    UpdateOrders(b, us[n], limits);
  }

  /** After every run, failed updates included, an order rests exactly if the last update about its identifier
      rested it, and it rests as that update gave it. */
  lemma {:induction false} RunOrdersExact(us: seq<Update>, limits: Limits, o: BookOrder)
    ensures var orders := Run(us, limits).orders;
      (o.orderId in orders && orders[o.orderId] == o) <==> Stands(us, limits, o)
  {
    if us != [] {
      RunOrdersExact(us[..|us| - 1], limits, o);
      StepOrders(us, limits, o);
      StandsGrows(us, limits, o);
    }
    hide Rests, Ends, Renews, Run;
  }

  /** So an identifier rests exactly if some order of it stands, and always under its own name. */
  lemma RunNamesExact(us: seq<Update>, limits: Limits, id: int)
    ensures var orders := Run(us, limits).orders;
      && (id in orders <==> exists o: BookOrder :: o.orderId == id && Stands(us, limits, o))
      && (id in orders ==> orders[id].orderId == id)
  {
    OwnNames(us, limits);
    hide Stands, Run;
    var orders := Run(us, limits).orders;
    if id in orders { RunOrdersExact(us, limits, orders[id]); }
    if o: BookOrder :| o.orderId == id && Stands(us, limits, o) { RunOrdersExact(us, limits, o); }
  }

  lemma {:induction false} OwnNames(us: seq<Update>, limits: Limits)
    ensures forall id :: id in Run(us, limits).orders ==> Run(us, limits).orders[id].orderId == id
  {
    if us != [] {
      var n := |us| - 1;
      OwnNames(us[..n], limits);
      UpdateOrders(Run(us[..n], limits), us[n], limits);
      hide After;
    }
  }
}
