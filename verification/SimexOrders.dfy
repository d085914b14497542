/** What the Simex adapter does with requests and response frames: which it takes, what becomes of the orders and the
    position, what it queues for the venue and what it publishes. */
module SimexOrders {
  import opened Common
  import opened PositionKeeper
  import opened OrderManager
  import R = Responses
  import opened SimexLedger
  import A = SimexVenueAdapters

  // ----- requests --------------------------------------------------------------------------------------------

  /** The orders that are live or wait for the answer to a cancellation. */
  function Waiting(orders: Orders): set<int> {
    set id | id in orders && (orders[id].cancelPending || !orders[id].terminal)
  }

  /** The position, or a live open, is on the other side. */
  ghost predicate Opposed(s: Ledger, side: Side) {
    || (if side == BUY then s.net < 0 else s.net > 0)
    || exists id :: id in s.orders && LiveOpen(s.orders[id]) && s.orders[id].request.side == Opposite(side)
  }

  /** A new order the adapter forwards. */
  ghost predicate MayOpen(s: Ledger, sub: Submission) {
    var r := sub.request;
    && sub.ours && 0 < r.qty <= 0x7FFF_FFFF && r.id !in s.orders
    && (sub.orderType == MARKET || (sub.orderType == LIMIT && 0 < r.price && r.price != PRICE_INVALID))
    && r.offset in {OPEN, CLOSE_TODAY, CLOSE_YESTERDAY} && !(r.offset == OPEN && Opposed(s, r.side))
  }

  /** A cancellation the adapter forwards. */
  predicate MayCancel(s: Ledger, sub: Submission) {
    && sub.ours && sub.request.id in s.orders
    && !s.orders[sub.request.id].terminal && !s.orders[sub.request.id].cancelPending
    && s.orders[sub.request.id].request.offset in {OPEN, CLOSE_TODAY, CLOSE_YESTERDAY}
  }

  /** The orders after one went to the venue: `id` has become `o`, and of the others all are left, or where the
      ledger was full, those that wait. */
  ghost predicate Becomes(orders: Orders, orders': Orders, id: int, o: Order, capacity: nat) {
    && id in orders' && orders'[id] == o
    && forall j :: j != id ==>
         && (j in orders' <==> j in orders && (|orders| < capacity || j in Waiting(orders)))
         && (j in orders' ==> orders'[j] == orders[j])
  }

  function Refusal(kind: ResponseType, r: Request): Response {
    Response(kind, if r.ticker < 0 then TICKERS else r.ticker, r.id, Fill(r.side, r.offset, r.price, 0), r.qty)
  }

  lemma MayOpenExactly(s: Ledger, sub: Submission)
    requires sub.request.kind == NEW
    ensures Passes(s, sub) <==> MayOpen(s, sub)
  {
    var r := sub.request;
    assert Opposed(s, r.side) <==> OppositeExposure(s, r);
    hide Opposed, OppositeExposure;
  }

  lemma MayCancelExactly(s: Ledger, sub: Submission)
    requires sub.request.kind == CANCEL_ORDER
    ensures Passes(s, sub) <==> MayCancel(s, sub)
  {
  }

  lemma PurgedIsWaiting(orders: Orders)
    ensures Purged(orders).Keys == Waiting(orders) && |Purged(orders)| == |Waiting(orders)|
  {
    forall id ensures id in Purged(orders).Keys <==> id in Waiting(orders) {
    }
    KeysCount(Purged(orders));
  }

  lemma KeysCount(orders: Orders)
    ensures |orders.Keys| == |orders|
  {
  }

  /** A new order goes to the venue exactly if it may, and then becomes an order with all its quantity to come; with a
      full outgoing buffer, or when too many orders wait, the adapter ends. Otherwise it is refused, and no order
      changes. */
  lemma OpenExact(s: Ledger, sub: Submission, full: bool, capacity: nat)
    requires sub.request.kind == NEW
    ensures var r, s' := sub.request, Submitted(s, sub, full, capacity);
      if !MayOpen(s, sub) then
        s'.Some? && s'.value.orders == s.orders && s'.value.net == s.net
        && Queued(s, sub) == [] && Refusals(s, sub) == [Refusal(REJECTED, r)]
      else if full || (|s.orders| >= capacity && |Waiting(s.orders)| >= capacity) then s' == None
      else
        s'.Some? && s'.value.net == s.net
        && Becomes(s.orders, s'.value.orders, r.id, Order(r, sub.orderType, r.qty, false, false), capacity)
        && Queued(s, sub) == [Frame(NEW, r.id, r.side, sub.orderType, r.price, r.qty, r.offset)]
        && Refusals(s, sub) == []
  {
    hide Passes, MayOpen;
    MayOpenExactly(s, sub);
    PurgedIsWaiting(s.orders);
  }

  /** A cancellation goes to the venue exactly if its order is live and none is under way; it repeats what the order
      asked for, and the order waits for the answer. */
  lemma CancelExact(s: Ledger, sub: Submission, full: bool, capacity: nat)
    requires sub.request.kind == CANCEL_ORDER
    ensures var r, s' := sub.request, Submitted(s, sub, full, capacity);
      if !MayCancel(s, sub) then
        s'.Some? && s'.value.orders == s.orders && s'.value.net == s.net
        && Queued(s, sub) == [] && Refusals(s, sub) == [Refusal(CANCEL_REJECTED, r)]
      else if full then s' == None
      else
        var o := s.orders[r.id];
        s'.Some? && s'.value.net == s.net
        && Becomes(s.orders, s'.value.orders, r.id, o.(cancelPending := true), capacity)
        && Queued(s, sub) == [Frame(CANCEL_ORDER, r.id, o.request.side, o.orderType, o.request.price, o.request.qty,
                                    o.request.offset)]
        && Refusals(s, sub) == []
  {
    hide Passes;
    MayCancelExactly(s, sub);
    PurgedIsWaiting(s.orders);
  }

  // ----- response frames -------------------------------------------------------------------------------------

  /** What a frame makes of the position. */
  function Moves(w: Wire): int {
    var n: int := w.exec;
    if w.kind != FILLED then 0 else if w.side == BUY then n else -n
  }

  /** A frame the adapter takes: about an order it holds, and an execution only of what is left of a live one, with
      the position within 32 bits. */
  predicate MayAnswer(s: Ledger, w: Wire) {
    && w.framed && w.ours && w.id in s.orders && w.kind != OTHER
    && w.side == s.orders[w.id].request.side && w.offset == s.orders[w.id].request.offset
    && (w.kind == FILLED ==>
          && !s.orders[w.id].terminal && w.price > 0 && w.price != PRICE_INVALID
          && 0 < w.exec < QTY_INVALID && w.exec + w.leaves == s.orders[w.id].remaining
          && -0x8000_0000 <= s.net + Moves(w) <= 0x7FFF_FFFF)
  }

  /** The order after such a frame. */
  function After(o: Order, w: Wire): Order
    requires w.kind == FILLED ==> w.exec <= o.remaining
  {
    Order(o.request, o.orderType, if w.kind == FILLED then o.remaining - w.exec else o.remaining,
          o.terminal || w.kind in {REJECTED, CANCELED} || (w.kind == FILLED && w.exec == o.remaining),
          o.cancelPending && w.kind !in {CANCELED, CANCEL_REJECTED})
  }

  /** A frame is taken exactly if it may come; its order alone changes, an execution moves the position, and what is
      published says what the frame says. */
  lemma ResponseExact(s: Ledger, w: Wire)
    ensures var s' := Responded(s, w);
      && (s'.Some? <==> MayAnswer(s, w))
      && (s'.Some? ==>
            && s'.value.orders == s.orders[w.id := After(s.orders[w.id], w)]
            && s'.value.net == s.net + Moves(w)
            && Forwarded(w) == Response(w.kind, 0, w.id, Fill(w.side, w.offset, w.price, w.exec), w.leaves))
  {
    if Responded(s, w).Some? { assert Answered(s.orders[w.id], w).value == After(s.orders[w.id], w); }
  }

  // ----- whole runs ------------------------------------------------------------------------------------------

  /** The request goes to the venue. */
  ghost predicate Forwards(s: Ledger, sub: Submission) {
    if sub.request.kind == NEW then MayOpen(s, sub) else MayCancel(s, sub)
  }

  /** What one input makes the adapter queue for the venue. */
  ghost function Sends(s: Ledger, x: A.Input): seq<Frame> {
    if !x.Requested? || !Forwards(s, x.sub) then []
    else
      var r := x.sub.request;
      if r.kind == NEW then [Frame(NEW, r.id, r.side, x.sub.orderType, r.price, r.qty, r.offset)]
      else
        var o := s.orders[r.id];
        [Frame(CANCEL_ORDER, r.id, o.request.side, o.orderType, o.request.price, o.request.qty, o.request.offset)]
  }

  /** What one input makes the adapter publish. */
  ghost function Says(s: Ledger, x: A.Input): seq<Response> {
    match x
    case Requested(sub, _) =>
      if Forwards(s, sub) then []
      else [Refusal(if sub.request.kind == NEW then REJECTED else CANCEL_REJECTED, sub.request)]
    case Framed(w) => [Response(w.kind, 0, w.id, Fill(w.side, w.offset, w.price, w.exec), w.leaves)]
    case Told(_) => []
  }

  lemma HandledSpeaks(b: A.Both, x: A.Input, capacity: nat)
    requires A.Handled(b, x, capacity).Some?
    ensures var b' := A.Handled(b, x, capacity).value;
      b'.outgoing == b.outgoing + Sends(b.ledger, x) && b'.responses == b.responses + Says(b.ledger, x)
  {
    hide Submitted, Responded, Becomes, MayOpen, MayCancel, A.Publishable, A.S.Step;
    assert b.outgoing + [] == b.outgoing && b.responses + [] == b.responses;
    match x {
      case Requested(sub, full) =>
        if sub.request.kind == NEW {
          OpenExact(b.ledger, sub, full, capacity);
        } else {
          CancelExact(b.ledger, sub, full, capacity);
        }
      case Framed(w) => ResponseExact(b.ledger, w);
      case Told(d) =>
    }
  }

  ghost function AllSent(xs: seq<A.Input>, capacity: nat): seq<Frame> {
    if xs == [] || A.Ran(xs[..|xs| - 1], capacity) == None then []
    else AllSent(xs[..|xs| - 1], capacity) + Sends(A.Ran(xs[..|xs| - 1], capacity).value.ledger, xs[|xs| - 1])
  }

  ghost function AllSaid(xs: seq<A.Input>, capacity: nat): seq<Response> {
    if xs == [] || A.Ran(xs[..|xs| - 1], capacity) == None then []
    else AllSaid(xs[..|xs| - 1], capacity) + Says(A.Ran(xs[..|xs| - 1], capacity).value.ledger, xs[|xs| - 1])
  }

  /** Over every run, the venue gets exactly the requests that may go there, in order, and the engine exactly the
      refusals of the others and the venue's frames. */
  lemma {:induction false} RunSpeaksExact(xs: seq<A.Input>, capacity: nat)
    requires A.Ran(xs, capacity).Some?
    ensures A.Ran(xs, capacity).value.outgoing == AllSent(xs, capacity)
    ensures A.Ran(xs, capacity).value.responses == AllSaid(xs, capacity)
  {
    hide A.Handled, Sends, Says;
    if xs != [] {
      RunSpeaksExact(xs[..|xs| - 1], capacity);
      HandledSpeaks(A.Ran(xs[..|xs| - 1], capacity).value, xs[|xs| - 1], capacity);
    }
  }

  /** The execution an input brings, as the engine is to hear it. */
  function Executed(x: A.Input): seq<Fill> {
    if x.Framed? && x.w.kind == FILLED then [Fill(x.w.side, x.w.offset, x.w.price, x.w.exec)] else []
  }

  function AllExecuted(xs: seq<A.Input>): seq<Fill> {
    if xs == [] then [] else AllExecuted(xs[..|xs| - 1]) + Executed(xs[|xs| - 1])
  }

  function Fills(log: seq<Response>): seq<Fill> {
    if log == [] then []
    else Fills(log[..|log| - 1]) + if log[|log| - 1].kind == FILLED then [log[|log| - 1].fill] else []
  }

  lemma OneMoreFill(log: seq<Response>, r: Response)
    ensures Fills(log + [r]) == Fills(log) + if r.kind == FILLED then [r.fill] else []
  {
    assert (log + [r])[..|log|] == log;
  }

  /** An input publishes the execution it brings, and the position moves by it. */
  lemma HandledExecutes(b: A.Both, x: A.Input, capacity: nat)
    requires A.Handled(b, x, capacity).Some? && b.ledger.net == R.NetOf(b.responses)
    ensures var b' := A.Handled(b, x, capacity).value;
      Fills(b'.responses) == Fills(b.responses) + Executed(x) && b'.ledger.net == R.NetOf(b'.responses)
  {
    hide Submitted, Responded, Becomes, MayOpen, MayCancel, MayAnswer, A.Publishable, A.S.Step, Fills, R.NetOf;
    HandledSpeaks(b, x, capacity);
    assert Fills(b.responses) + [] == Fills(b.responses) && b.responses + [] == b.responses;
    match x {
      case Requested(sub, full) =>
        if sub.request.kind == NEW {
          OpenExact(b.ledger, sub, full, capacity);
        } else {
          CancelExact(b.ledger, sub, full, capacity);
        }
      case Framed(w) => ResponseExact(b.ledger, w);
      case Told(d) =>
    }
    if Says(b.ledger, x) != [] {
      OneMoreFill(b.responses, Says(b.ledger, x)[0]);
      R.OneMore(b.responses, Says(b.ledger, x)[0], 0);
    }
  }

  /** Over every run, the executions published are those of the venue's frames, one for one, in order and at their
      prices, and their signed sum is the adapter's position. */
  lemma {:induction false} RunExecutesExact(xs: seq<A.Input>, capacity: nat)
    requires A.Ran(xs, capacity).Some?
    ensures var b := A.Ran(xs, capacity).value;
      Fills(b.responses) == AllExecuted(xs) && b.ledger.net == R.NetOf(b.responses)
  {
    hide A.Handled, Executed, Fills, R.NetOf;
    if xs == [] {
      NothingExecuted();
    } else {
      RunExecutesExact(xs[..|xs| - 1], capacity);
      HandledExecutes(A.Ran(xs[..|xs| - 1], capacity).value, xs[|xs| - 1], capacity);
    }
  }

  lemma NothingExecuted()
    ensures Fills([]) == [] && R.NetOf([]) == 0
  {
  }
}
