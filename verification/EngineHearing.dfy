/** What the engine asks a venue adapter for and what it hears back, whichever adapter that is. The adapter serves
    ticker 0. */
module EngineHearing {
  import opened Common
  import opened PositionKeeper
  import opened OrderManager
  import opened Responses
  import E = EngineSpec
  import EF = EngineFreshness
  import EC = EngineConservation

  /** Events the engine handles on its own. */
  predicate OwnEvent(ev: E.Event) { !ev.Answer? && (ev.Market? ==> ev.t < TICKERS) }

  function Sent(r: E.Result): seq<Request> { if r.request.Some? then [r.request.value] else [] }

  /** New-order requests carry different positive identifiers below the next one. */
  ghost predicate Distinct(sent: seq<Request>, nextId: nat) {
    && nextId > 0
    && (forall i :: 0 <= i < |sent| && sent[i].kind == NEW ==> 0 < sent[i].id < nextId)
    && (forall i, j :: 0 <= i < j < |sent| && sent[i].kind == NEW && sent[j].kind == NEW ==> sent[i].id != sent[j].id)
  }

  /** The new-order request of an identifier is among those the adapter has taken. */
  ghost predicate AskedFor(sent: seq<Request>, taken: nat, id: int) {
    exists i :: 0 <= i < taken && i < |sent| && sent[i].kind == NEW && sent[i].id == id
  }

  /** A new-order request of ticker 0 that the adapter has taken. */
  ghost predicate Stems(q: Request, sent: seq<Request>, taken: nat) {
    q.kind == NEW && q.ticker == 0 && exists i :: 0 <= i < taken && i < |sent| && sent[i] == q
  }

  /** Identifiers tell requests apart. */
  lemma StemIsOnly(sent: seq<Request>, taken: nat, nextId: nat, q: Request)
    requires Distinct(sent, nextId) && Stems(q, sent, taken)
    ensures forall i :: 0 <= i < |sent| && sent[i].kind == NEW && sent[i].id == q.id ==> sent[i] == q
  {
    var j :| 0 <= j < taken && j < |sent| && sent[j] == q;
    assert forall i :: 0 <= i < |sent| && sent[i].kind == NEW && sent[i].id == sent[j].id ==> i == j;
  }

  /** The engine still holds the order it asked for, with what is left of it. */
  predicate Held(slots: Slots, q: Request, left: int) {
    var o := slots.Get(q.side);
    o.id == q.id && o.offset == q.offset && o.state != NONE && (Active(o) ==> o.qty == left)
  }

  ghost predicate HeldOrOver(slots: Slots, q: Request, told: seq<Response>) {
    Over(told, q.id) || Held(slots, q, q.qty - FilledOf(told, q.id))
  }

  /** What the engine's slots are after the responses heard: an order asked for is held or over, and a dead one
      over. */
  ghost predicate SlotsFollow(slots: Slots, sent: seq<Request>, told: seq<Response>) {
    && (forall side: Side :: slots.Get(side).state == DEAD ==> Over(told, slots.Get(side).id))
    && (forall i :: 0 <= i < |sent| && sent[i].kind == NEW && sent[i].ticker == 0 ==> HeldOrOver(slots, sent[i], told))
  }

  // ----- the engine's own events -----------------------------------------------------------------------------

  /** What a request does to the slot of its side: a live order waits for its cancellation, and a free slot takes
      the new order. */
  predicate Places(slots: Slots, q: Request, slots': Slots) {
    var o := slots.Get(q.side);
    if q.kind == NEW then
      && !Active(o)
      && slots' == slots.Put(q.side, OMOrder(q.ticker, q.id, q.side, q.price, q.qty, q.offset, PENDING_NEW))
    else
      exists side: Side ::
        Active(slots.Get(side)) && slots' == slots.Put(side, slots.Get(side).(state := PENDING_CANCEL))
  }

  predicate Acts(slots: Slots, request: Option<Request>, slots': Slots) {
    if request == None then slots' == slots else Places(slots, request.value, slots')
  }

  predicate OnTicker(request: Option<Request>, t: int) {
    request.Some? && request.value.kind == NEW ==> request.value.ticker == t
  }

  lemma DecisionActs(c: E.Config, k: E.Ticker, ready: bool, t: nat, nextId: nat, d: E.Decision)
    ensures var a := E.Decided(c, k, ready, t, nextId, d);
      Acts(k.slots, a.request, a.ticker.slots) && OnTicker(a.request, t)
  {
  }

  /** A step acts on ticker 0, or leaves its slots alone and asks for no new order of it. */
  predicate ActsOnFirst(slots: Slots, request: Option<Request>, slots': Slots) {
    || Acts(slots, request, slots')
    || (slots' == slots && (request.Some? ==> request.value.kind != NEW || request.value.ticker != 0))
  }

  lemma StepActs(c: E.Config, e: E.Engine, ev: E.Event)
    requires OwnEvent(ev)
    ensures var r := E.Step(c, e, ev); ActsOnFirst(e.tickers[0].slots, r.request, r.engine.tickers[0].slots)
  {
    hide E.Decided, Acts;
    if ev.Decide? && ev.d.ticker < TICKERS {
      DecisionActs(c, e.tickers[ev.d.ticker], e.ready, ev.d.ticker, e.nextOrderId, ev.d);
    }
    NothingActs(e.tickers[0].slots);
  }

  lemma NothingActs(slots: Slots)
    ensures Acts(slots, None, slots)
  {
  }

  lemma DistinctAfter(c: E.Config, e: E.Engine, ev: E.Event, sent: seq<Request>)
    requires Distinct(sent, e.nextOrderId)
    ensures var r := E.Step(c, e, ev); Distinct(sent + Sent(r), r.engine.nextOrderId)
  {
    EF.NumbersAfter(c, e, ev);
    hide E.Step;
  }

  lemma NewIsNext(c: E.Config, e: E.Engine, ev: E.Event)
    ensures var r := E.Step(c, e, ev);
      && e.nextOrderId <= r.engine.nextOrderId
      && (r.request.Some? && r.request.value.kind == NEW ==> r.request.value.id == e.nextOrderId)
  {
    EF.NumbersAfter(c, e, ev);
    hide E.Step;
  }

  /** A new order is one of which nothing has been heard. */
  lemma SlotsAfter(slots: Slots, slots': Slots, sent: seq<Request>, request: Option<Request>, told: seq<Response>)
    requires SlotsFollow(slots, sent, told) && ActsOnFirst(slots, request, slots')
    requires request.Some? && request.value.kind == NEW ==> FilledOf(told, request.value.id) == 0
    ensures SlotsFollow(slots', sent + (if request.Some? then [request.value] else []), told)
  {
    hide Over, FilledOf;
    forall side: Side | slots'.Get(side).state == DEAD ensures Over(told, slots'.Get(side).id) {
      assert slots.Get(side) == slots'.Get(side);
    }
    var more := sent + if request.Some? then [request.value] else [];
    forall i | 0 <= i < |more| && more[i].kind == NEW && more[i].ticker == 0 ensures HeldOrOver(slots', more[i], told) {
      if i < |sent| {
        assert more[i] == sent[i] && HeldOrOver(slots, sent[i], told);
        assert slots.Get(sent[i].side).state == DEAD ==> Over(told, slots.Get(sent[i].side).id);
      }
    }
  }

  lemma OwnPosition(c: E.Config, e: E.Engine, ev: E.Event)
    requires OwnEvent(ev)
    ensures var p, p' := e.tickers[0].position, E.Step(c, e, ev).engine.tickers[0].position;
      p'.position == p.position && p'.today == p.today && p'.yesterday == p.yesterday
  {
    EC.StepMoves(c, e, ev, 0);
    if ev.Market? { MarkingKeeps(e.tickers[0].position.(bbo := Some(ev.bbo))); }
    hide E.Step, Marked;
  }

  // ----- a response ------------------------------------------------------------------------------------------

  /** The slots of ticker 0 after a response: one it may not hear would be an acceptance of a finished order, or
      an execution that does not leave what the engine expects. */
  lemma SlotsHear(slots: Slots, sent: seq<Request>, told: seq<Response>, r: Response)
    requires SlotsFollow(slots, sent, told)
    requires r.kind == ACCEPTED ==> Active(slots.Get(r.fill.side)) || slots.Get(r.fill.side).id != r.id
    requires r.kind == FILLED ==>
      forall i :: 0 <= i < |sent| && sent[i].kind == NEW && sent[i].id == r.id ==>
        sent[i].side == r.fill.side && r.leaves == sent[i].qty - FilledOf(told, r.id) - r.fill.qty
    ensures SlotsFollow(slots.Put(r.fill.side, Updated(slots.Get(r.fill.side), r)), sent, told + [r])
  {
    hide Over, FilledOf, Ends;
    var slots' := slots.Put(r.fill.side, Updated(slots.Get(r.fill.side), r));
    forall side: Side | slots'.Get(side).state == DEAD ensures Over(told + [r], slots'.Get(side).id) {
      assert slots.Get(side).id == slots'.Get(side).id;
      OneMore(told, r, slots.Get(side).id);
      EndsOf(r);
    }
    forall i | 0 <= i < |sent| && sent[i].kind == NEW && sent[i].ticker == 0
      ensures HeldOrOver(slots', sent[i], told + [r])
    {
      assert HeldOrOver(slots, sent[i], told);
      OneMore(told, r, sent[i].id);
      EndsOf(r);
    }
  }

  /** The life of an order in its slot: what a response about it makes of it, and that no other touches it. */
  lemma HeardExactly(o: OMOrder, r: Response)
    ensures var o' := Updated(o, r); var its := o.id == r.id;
      && o' == o.(state := o'.state, qty := o'.qty)
      && o'.qty == (if its && r.kind == FILLED then r.leaves else o.qty)
      && (o'.state == DEAD <==> (its && Ends(r)) || (o.state == DEAD && !(its && r.kind == ACCEPTED)))
      && (o'.state == LIVE <==>
            (its && (r.kind == ACCEPTED || (o.state == PENDING_CANCEL && r.kind == CANCEL_REJECTED)))
            || (o.state == LIVE && !(its && Ends(r))))
      && (o'.state != DEAD && o'.state != LIVE ==> o'.state == o.state)
  {
  }

  lemma EndsOf(r: Response)
    ensures Ends(r) <==> r.kind == CANCELED || r.kind == REJECTED || (r.kind == FILLED && r.leaves == 0)
  {
  }

  /** A response about another ticker. */
  lemma SlotsOverhear(slots: Slots, sent: seq<Request>, told: seq<Response>, r: Response)
    requires SlotsFollow(slots, sent, told) && r.kind != FILLED
    ensures SlotsFollow(slots, sent, told + [r])
  {
    hide Over, FilledOf, Ends;
    forall side: Side | slots.Get(side).state == DEAD ensures Over(told + [r], slots.Get(side).id) {
      OneMore(told, r, slots.Get(side).id);
    }
    forall i | 0 <= i < |sent| && sent[i].kind == NEW && sent[i].ticker == 0
      ensures HeldOrOver(slots, sent[i], told + [r])
    {
      assert HeldOrOver(slots, sent[i], told);
      OneMore(told, r, sent[i].id);
    }
  }

  /** What an answer does to ticker 0. */
  lemma AnswerEffect(c: E.Config, e: E.Engine, r: Response)
    requires r.ticker == 0
    ensures var s := E.Step(c, e, E.Answer(r)); var k, k' := e.tickers[0], s.engine.tickers[0];
      && s.engine.nextOrderId == e.nextOrderId
      && k'.position == (if r.kind == FILLED then Filled(k.position, r.fill) else k.position)
      && (s.ending == E.Normal ==> k'.slots == k.slots.Put(r.fill.side, Updated(k.slots.Get(r.fill.side), r)))
      && (r.kind == FILLED && c.simex ==>
            (s.ending == E.Normal <==> E.Agrees(k.position, r.fill, Filled(k.position, r.fill))))
      && (r.kind != FILLED || !c.simex ==> s.ending == E.Normal)
  {
    hide Filled, Updated, E.Agrees;
  }
}
