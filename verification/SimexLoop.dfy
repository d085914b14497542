/** Engine and Simex ledger, connected by the gateway's two queues: a venue that keeps its protocol never makes the
    engine hear a response its safety forbids. */
module SimexLoop {
  import opened Common
  import opened PositionKeeper
  import opened RiskManager
  import opened OrderManager
  import opened Responses
  import opened EngineHearing
  import E = EngineSpec
  import ES = EngineSafety
  import L = SimexLedger

  /** `sent` are the engine's requests and `log` the responses published to it, of which `taken` and `heard` have
      left their queues; `dead` once the adapter has thrown. The adapter serves ticker 0. */
  datatype World = World(engine: E.Engine, ledger: L.Ledger, log: seq<Response>, dead: bool,
                         sent: seq<Request>, taken: nat, heard: nat)

  /** One step of either side: anything but a response for the engine, the next response, the next request, or a
      frame from the venue. */
  datatype Move =
    | Act(ev: E.Event)
    | Hear
    | Take(orderType: L.OrderType, full: bool)
    | Receive(frame: L.Wire)

  function Begin(c: E.Config): World { World(E.Start(c), L.EMPTY_LEDGER, [], false, [], 0, 0) }

  function SubmissionOf(q: Request, orderType: L.OrderType): L.Submission { L.Submission(q, q.ticker == 0, orderType) }

  /** The venue keeps its protocol, and without a position limit, positions within 31 bits. */
  predicate Sends(c: E.Config, s: L.Ledger, frame: L.Wire) {
    && L.VenueAllows(s, frame)
    && (c.limits.maxPosition == QTY_INVALID ==> Abs(L.NetAfter(s.net, frame)) <= INT32_MAX)
  }

  ghost function Next(c: E.Config, capacity: nat, w: World, m: Move): World {
    match m
    case Act(ev) =>
      if !OwnEvent(ev) then w
      else var r := E.Step(c, w.engine, ev); w.(engine := r.engine, sent := w.sent + Sent(r))
    case Hear =>
      if w.heard >= |w.log| then w
      else w.(engine := E.Step(c, w.engine, E.Answer(w.log[w.heard])).engine, heard := w.heard + 1)
    case Take(orderType, full) =>
      if w.dead || w.taken >= |w.sent| then w
      else
        var q := w.sent[w.taken];
        var sub := SubmissionOf(q, orderType);
        var s := L.Submitted(w.ledger, sub, full, capacity);
        if s == None then w.(dead := true, taken := w.taken + 1)
        else
          w.(ledger := s.value, log := w.log + L.Refusals(w.ledger, sub), taken := w.taken + 1)
    case Receive(frame) =>
      if w.dead || !Sends(c, w.ledger, frame) then w
      else
        var s := L.Responded(w.ledger, frame);
        if s == None then w.(dead := true) else w.(ledger := s.value, log := w.log + [L.Forwarded(frame)])
  }

  ghost function Run(c: E.Config, capacity: nat, ms: seq<Move>): World {
    if ms == [] then Begin(c) else Next(c, capacity, Run(c, capacity, ms[..|ms| - 1]), ms[|ms| - 1])
  }

  // ----- the invariant ---------------------------------------------------------------------------------------

  /** An order of the ledger, as the responses published account for it. */
  ghost predicate Accounted(o: L.Order, log: seq<Response>, sent: seq<Request>, taken: nat) {
    && Stems(o.request, sent, taken)
    && (o.terminal <==> Over(log, o.request.id))
    && o.remaining == o.request.qty - FilledOf(log, o.request.id)
  }

  ghost predicate AllAccounted(orders: L.Orders, log: seq<Response>, sent: seq<Request>, taken: nat) {
    forall id :: id in orders ==> orders[id].request.id == id && Accounted(orders[id], log, sent, taken)
  }

  /** A response repeats what its request asked for. */
  predicate AnswersTo(q: Request, r: Response) {
    r.ticker == 0 && r.id == q.id && r.fill.side == q.side && r.fill.offset == q.offset
  }

  /** What was left of the order covers an execution, and is stated as less by it. */
  predicate Covers(before: seq<Response>, r: Response, q: Request) {
    var left := q.qty - FilledOf(before, r.id);
    AnswersTo(q, r) && (r.kind == FILLED ==> 0 < r.fill.qty <= left && r.leaves == left - r.fill.qty)
  }

  /** An acceptance or execution published after `before` is about an order that was not over. */
  ghost predicate Due(before: seq<Response>, r: Response, sent: seq<Request>, taken: nat) {
    !Over(before, r.id) && exists q :: Stems(q, sent, taken) && Covers(before, r, q)
  }

  /** Without a position limit, positions fit. */
  predicate NetFits(c: E.Config, net: int) { c.limits.maxPosition == QTY_INVALID ==> Abs(net) <= INT32_MAX }

  ghost predicate Fits(c: E.Config, before: seq<Response>, r: Response, sent: seq<Request>, taken: nat) {
    && (r.kind != CANCEL_REJECTED ==> AskedFor(sent, taken, r.id))
    && (r.kind == ACCEPTED || r.kind == FILLED ==> Due(before, r, sent, taken))
    && (r.kind == FILLED ==> NetFits(c, NetOf(before + [r])))
  }

  ghost predicate AllFit(c: E.Config, log: seq<Response>, sent: seq<Request>, taken: nat) {
    forall i :: 0 <= i < |log| ==> Fits(c, log[..i], log[i], sent, taken)
  }

  /** The adapter's side. */
  ghost predicate Served(c: E.Config, s: L.Ledger, log: seq<Response>, sent: seq<Request>, taken: nat) {
    L.Debts(s) && s.net == NetOf(log) && AllAccounted(s.orders, log, sent, taken) && AllFit(c, log, sent, taken)
  }

  /** The engine's side. */
  ghost predicate Follows(e: E.Engine, sent: seq<Request>, told: seq<Response>) {
    && Distinct(sent, e.nextOrderId)
    && SlotsFollow(e.tickers[0].slots, sent, told)
    && e.tickers[0].position.position == NetOf(told)
  }

  ghost predicate Sound(c: E.Config, w: World) {
    && w.taken <= |w.sent| && w.heard <= |w.log|
    && ES.Kept(c, w.engine)
    && Follows(w.engine, w.sent, w.log[..w.heard])
    && Served(c, w.ledger, w.log, w.sent, w.taken)
  }

  // ----- more requests, more responses -----------------------------------------------------------------------

  lemma StemsStill(q: Request, sent: seq<Request>, sent': seq<Request>, taken: nat, taken': nat)
    requires Stems(q, sent, taken) && sent <= sent' && taken <= taken' && taken <= |sent|
    ensures Stems(q, sent', taken')
  {
    var i :| 0 <= i < taken && i < |sent| && sent[i] == q;
    assert sent'[i] == q;
  }

  lemma FitsStill(c: E.Config, before: seq<Response>, r: Response, sent: seq<Request>, sent': seq<Request>,
                  taken: nat, taken': nat)
    requires Fits(c, before, r, sent, taken) && sent <= sent' && taken <= taken' && taken <= |sent|
    ensures Fits(c, before, r, sent', taken')
  {
    hide Over, FilledOf, NetOf, Stems;
    if r.kind != CANCEL_REJECTED {
      var i :| 0 <= i < taken && i < |sent| && sent[i].kind == NEW && sent[i].id == r.id;
      assert sent'[i] == sent[i];
    }
    if r.kind == ACCEPTED || r.kind == FILLED {
      var q :| Stems(q, sent, taken) && Covers(before, r, q);
      StemsStill(q, sent, sent', taken, taken');
    }
  }

  lemma ServedStill(c: E.Config, s: L.Ledger, log: seq<Response>, sent: seq<Request>, sent': seq<Request>,
                    taken: nat, taken': nat)
    requires Served(c, s, log, sent, taken) && sent <= sent' && taken <= taken' && taken <= |sent|
    ensures Served(c, s, log, sent', taken')
  {
    hide Over, FilledOf, NetOf, Stems, L.Debts, Fits;
    forall id | id in s.orders ensures Accounted(s.orders[id], log, sent', taken') {
      assert Accounted(s.orders[id], log, sent, taken);
      StemsStill(s.orders[id].request, sent, sent', taken, taken');
    }
    forall i | 0 <= i < |log| ensures Fits(c, log[..i], log[i], sent', taken') {
      FitsStill(c, log[..i], log[i], sent, sent', taken, taken');
    }
  }

  lemma AllFitMore(c: E.Config, log: seq<Response>, r: Response, sent: seq<Request>, taken: nat)
    requires AllFit(c, log, sent, taken) && Fits(c, log, r, sent, taken)
    ensures AllFit(c, log + [r], sent, taken)
  {
    hide Fits;
    var more := log + [r];
    forall i | 0 <= i < |more| ensures Fits(c, more[..i], more[i], sent, taken) {
      if i < |log| { assert more[..i] == log[..i] && more[i] == log[i]; } else { assert more[..i] == log; }
    }
  }

  // ----- the next response is allowed ------------------------------------------------------------------------

  lemma CoversItsOwn(before: seq<Response>, r: Response, q: Request)
    requires Covers(before, r, q)
    ensures q.id == r.id
  {
  }

  /** The engine's order of an acceptance or execution it has not heard yet. */
  lemma StillHeld(c: E.Config, w: World) returns (q: Request)
    requires Sound(c, w) && w.heard < |w.log|
    requires w.log[w.heard].kind == ACCEPTED || w.log[w.heard].kind == FILLED
    ensures var r, told, slots := w.log[w.heard], w.log[..w.heard], w.engine.tickers[0].slots;
      && Stems(q, w.sent, w.taken) && Covers(told, r, q)
      && Held(slots, q, q.qty - FilledOf(told, q.id)) && Active(slots.Get(q.side))
      && (r.kind == FILLED ==> NetFits(c, NetOf(told + [r])))
  {
    var r, told := w.log[w.heard], w.log[..w.heard];
    hide ES.Kept, L.Debts, AllAccounted, Over, FilledOf, NetOf, NetFits;
    assert Fits(c, told, r, w.sent, w.taken);
    q :| Stems(q, w.sent, w.taken) && Covers(told, r, q);
    hide Covers, AllFit, Distinct;
    assert q.id == r.id by { CoversItsOwn(told, r, q); }
    var i :| 0 <= i < w.taken && i < |w.sent| && w.sent[i] == q;
    assert HeldOrOver(w.engine.tickers[0].slots, w.sent[i], told);
  }

  /** The next response is one the engine may safely hear. */
  lemma NextIsAllowed(c: E.Config, w: World)
    requires Sound(c, w) && w.heard < |w.log|
    ensures ES.Allowed(c, w.engine, E.Answer(w.log[w.heard]))
  {
    var r := w.log[w.heard];
    if r.kind == ACCEPTED || r.kind == FILLED {
      var q := StillHeld(c, w);
      ES.KeptIsSafe(c, w.engine);
      OneMore(w.log[..w.heard], r, r.id);
      hide Served, SlotsFollow, Distinct, Over, FilledOf, NetOf, ES.Kept, Stems;
      assert ES.TickerSafe(c, w.engine.tickers[0]);
    }
  }

  // ----- the engine's steps ----------------------------------------------------------------------------------

  /** What the engine's configuration has to meet (the exact condition of its safety). */
  predicate Fit(c: E.Config) { E.Configured(c) && c.simex && ES.QuantityFits(c) }

  /** Nothing was executed of an identifier not asked for. */
  lemma NothingYet(c: E.Config, w: World)
    requires Sound(c, w)
    ensures FilledOf(w.log[..w.heard], w.engine.nextOrderId) == 0
  {
    var told := w.log[..w.heard];
    hide ES.Kept, L.Debts, AllAccounted, Over, FilledOf, NetOf, NetFits, Due, SlotsFollow;
    forall i | 0 <= i < |told| && told[i].kind == FILLED ensures told[i].id != w.engine.nextOrderId {
      assert Fits(c, w.log[..i], w.log[i], w.sent, w.taken);
    }
    NothingFilled(told, w.engine.nextOrderId);
  }

  lemma ActFollows(c: E.Config, e: E.Engine, ev: E.Event, sent: seq<Request>, told: seq<Response>)
    requires Follows(e, sent, told) && OwnEvent(ev) && FilledOf(told, e.nextOrderId) == 0
    ensures var r := E.Step(c, e, ev); Follows(r.engine, sent + Sent(r), told)
  {
    hide E.Step, SlotsFollow, Distinct, ActsOnFirst, FilledOf, NetOf;
    var r := E.Step(c, e, ev);
    StepActs(c, e, ev);
    NewIsNext(c, e, ev);
    SlotsAfter(e.tickers[0].slots, r.engine.tickers[0].slots, sent, r.request, told);
    DistinctAfter(c, e, ev, sent);
    OwnPosition(c, e, ev);
  }

  lemma ActKeeps(c: E.Config, capacity: nat, w: World, ev: E.Event)
    requires Fit(c) && Sound(c, w) && OwnEvent(ev)
    ensures Sound(c, Next(c, capacity, w, Act(ev)))
  {
    var r := E.Step(c, w.engine, ev);
    hide E.Step, ES.Kept, Follows, Served, E.Configured, ES.QuantityFits, L.Submitted, L.Passes, L.Responded, Sends;
    assert ES.Allowed(c, w.engine, ev);
    ES.StepKeeps(c, w.engine, ev);
    NothingYet(c, w);
    ActFollows(c, w.engine, ev, w.sent, w.log[..w.heard]);
    ServedStill(c, w.ledger, w.log, w.sent, w.sent + Sent(r), w.taken, w.taken);
  }

  /** Hearing a response about ticker 0. */
  lemma HearFollows(c: E.Config, w: World)
    requires Fit(c) && Sound(c, w) && w.heard < |w.log| && w.log[w.heard].ticker == 0
    requires E.Step(c, w.engine, E.Answer(w.log[w.heard])).ending == E.Normal
    ensures Follows(E.Step(c, w.engine, E.Answer(w.log[w.heard])).engine, w.sent, w.log[..w.heard] + [w.log[w.heard]])
  {
    var r, told, slots := w.log[w.heard], w.log[..w.heard], w.engine.tickers[0].slots;
    if r.kind == ACCEPTED || r.kind == FILLED {
      var q := StillHeld(c, w);
      StemIsOnly(w.sent, w.taken, w.engine.nextOrderId, q);
    }
    hide E.Step, Served, Distinct, SlotsFollow, ES.Kept, Filled, FilledOf, NetOf, Updated;
    AnswerEffect(c, w.engine, r);
    SlotsHear(slots, w.sent, told, r);
    OneMore(told, r, r.id);
  }

  /** A response about another ticker. */
  lemma OverhearFollows(c: E.Config, w: World)
    requires Fit(c) && Sound(c, w) && w.heard < |w.log| && w.log[w.heard].ticker != 0
    ensures Follows(E.Step(c, w.engine, E.Answer(w.log[w.heard])).engine, w.sent, w.log[..w.heard] + [w.log[w.heard]])
  {
    var r, told := w.log[w.heard], w.log[..w.heard];
    assert Fits(c, told, r, w.sent, w.taken);
    OneMore(told, r, r.id);
    hide Served, Distinct, SlotsFollow, ES.Kept, FilledOf, NetOf, E.Answered;
    SlotsOverhear(w.engine.tickers[0].slots, w.sent, told, r);
  }

  lemma HearKeeps(c: E.Config, capacity: nat, w: World)
    requires Fit(c) && Sound(c, w) && w.heard < |w.log|
    ensures Sound(c, Next(c, capacity, w, Hear))
    ensures E.Step(c, w.engine, E.Answer(w.log[w.heard])).ending == E.Normal
  {
    hide L.Submitted, L.Passes, L.Responded, Sends, ES.Kept, Follows, Served, E.Configured, ES.QuantityFits,
      ES.Allowed, E.Step;
    var r := w.log[w.heard];
    NextIsAllowed(c, w);
    ES.StepKeeps(c, w.engine, E.Answer(r));
    if r.ticker == 0 { HearFollows(c, w); } else { OverhearFollows(c, w); }
    assert w.log[..w.heard + 1] == w.log[..w.heard] + [r];
  }

  // ----- the adapter's steps ---------------------------------------------------------------------------------

  /** One more response changes the account of its own order only. */
  lemma AccountedStill(orders: L.Orders, log: seq<Response>, r: Response, sent: seq<Request>, taken: nat)
    requires AllAccounted(orders, log, sent, taken) && (r.kind == FILLED || Ends(r) ==> r.id !in orders)
    ensures AllAccounted(orders, log + [r], sent, taken)
  {
    hide Over, FilledOf, Ends, Stems;
    forall id | id in orders ensures Accounted(orders[id], log + [r], sent, taken) {
      assert Accounted(orders[id], log, sent, taken);
      OneMore(log, r, id);
    }
  }

  /** A request not taken yet has no order. */
  lemma NotStored(orders: L.Orders, log: seq<Response>, sent: seq<Request>, taken: nat, nextId: nat)
    requires AllAccounted(orders, log, sent, taken) && taken < |sent| && Distinct(sent, nextId)
    ensures sent[taken].kind == NEW ==> sent[taken].id !in orders
  {
    hide Over, FilledOf;
    forall id | id in orders && sent[taken].kind == NEW ensures id != sent[taken].id {
      assert Accounted(orders[id], log, sent, taken);
      var i :| 0 <= i < taken && i < |sent| && sent[i] == orders[id].request;
      assert sent[i].kind == NEW;
    }
  }

  lemma RefusalFits(c: E.Config, log: seq<Response>, sent: seq<Request>, taken: nat)
    requires taken < |sent|
    ensures Fits(c, log, L.Rejected(sent[taken]), sent, taken + 1)
  {
    assert sent[taken].id == L.Rejected(sent[taken]).id;
  }

  /** A request answered locally: its identifier, if new, is in no order. */
  lemma RefusedServes(c: E.Config, s: L.Ledger, s': L.Ledger, log: seq<Response>, sent: seq<Request>, taken: nat,
                      nextId: nat)
    requires Served(c, s, log, sent, taken) && taken < |sent| && Distinct(sent, nextId)
    requires L.Debts(s') && s'.orders == s.orders && s'.net == s.net
    ensures Served(c, s', log + [L.Rejected(sent[taken])], sent, taken + 1)
  {
    var r := L.Rejected(sent[taken]);
    hide AllAccounted, AllFit, Fits, L.Debts, NetOf, Distinct, Ends;
    ServedStill(c, s, log, sent, sent, taken, taken + 1);
    NotStored(s.orders, log, sent, taken, nextId);
    EndsOf(r);
    RefusalFits(c, log, sent, taken);
    AccountedStill(s.orders, log, r, sent, taken + 1);
    AllFitMore(c, log, r, sent, taken + 1);
    OneMore(log, r, r.id);
  }

  /** An order as before, but for a pending cancel. */
  predicate SameAccount(o: L.Order, o': L.Order) {
    o'.request == o.request && o'.remaining == o.remaining && o'.terminal == o.terminal
  }

  /** Orders after a request that went out: some may have been purged, and the new one is there. */
  ghost predicate Taken(orders: L.Orders, orders': L.Orders, q: Request) {
    forall id :: id in orders' ==>
      || (id in orders && SameAccount(orders[id], orders'[id]))
      || (q.kind == NEW && q.ticker == 0 && id == q.id
          && SameAccount(L.Order(q, L.LIMIT, q.qty, false, false), orders'[id]))
  }

  lemma SubmittedTakes(s: L.Ledger, q: Request, orderType: L.OrderType, full: bool, capacity: nat)
    requires var sub := SubmissionOf(q, orderType); L.Passes(s, sub) && L.Submitted(s, sub, full, capacity).Some?
    ensures var s' := L.Submitted(s, SubmissionOf(q, orderType), full, capacity).value;
      s'.net == s.net && Taken(s.orders, s'.orders, q)
  {
    hide L.OppositeExposure;
  }

  /** Nothing but cancel rejections was published about a request not taken yet. */
  lemma NotHeardOf(c: E.Config, log: seq<Response>, sent: seq<Request>, taken: nat, nextId: nat)
    requires AllFit(c, log, sent, taken) && taken < |sent| && Distinct(sent, nextId) && sent[taken].kind == NEW
    ensures FilledOf(log, sent[taken].id) == 0 && !Over(log, sent[taken].id)
  {
    hide Due, NetFits;
    forall i | 0 <= i < |log| && log[i].id == sent[taken].id ensures log[i].kind == CANCEL_REJECTED {
      assert Fits(c, log[..i], log[i], sent, taken);
    }
    Untouched(log, sent[taken].id);
  }

  lemma TakenServes(c: E.Config, s: L.Ledger, s': L.Ledger, log: seq<Response>, sent: seq<Request>, taken: nat,
                    nextId: nat)
    requires Served(c, s, log, sent, taken) && taken < |sent| && Distinct(sent, nextId)
    requires L.Debts(s') && s'.net == s.net && Taken(s.orders, s'.orders, sent[taken])
    ensures Served(c, s', log, sent, taken + 1)
  {
    hide AllFit, L.Debts, NetOf, Over, FilledOf;
    var q := sent[taken];
    if q.kind == NEW { NotHeardOf(c, log, sent, taken, nextId); }
    ServedStill(c, s, log, sent, sent, taken, taken + 1);
    forall id | id in s'.orders
      ensures s'.orders[id].request.id == id && Accounted(s'.orders[id], log, sent, taken + 1)
    {
      if id in s.orders && SameAccount(s.orders[id], s'.orders[id]) {
        assert Accounted(s.orders[id], log, sent, taken + 1);
      } else {
        assert sent[taken] == s'.orders[id].request;
      }
    }
  }

  lemma TakeServes(c: E.Config, capacity: nat, w: World, orderType: L.OrderType, full: bool)
    requires Served(c, w.ledger, w.log, w.sent, w.taken) && Distinct(w.sent, w.engine.nextOrderId)
    requires !w.dead && w.taken < |w.sent|
    ensures var w' := Next(c, capacity, w, Take(orderType, full)); Served(c, w'.ledger, w'.log, w'.sent, w'.taken)
  {
    hide Served, Distinct, Taken, L.Submitted, L.Passes, L.Responded, E.Step, Sends, L.Debts;
    var q, sub := w.sent[w.taken], SubmissionOf(w.sent[w.taken], orderType);
    if L.Submitted(w.ledger, sub, full, capacity) == None {
      ServedStill(c, w.ledger, w.log, w.sent, w.sent, w.taken, w.taken + 1);
    } else {
      var s' := L.Submitted(w.ledger, sub, full, capacity).value;
      ServedDebts(c, w.ledger, w.log, w.sent, w.taken);
      L.StepKeepsDebts(w.ledger, L.Submit(sub, full), capacity);
      if L.Passes(w.ledger, sub) {
        SubmittedTakes(w.ledger, q, orderType, full, capacity);
        TakenServes(c, w.ledger, s', w.log, w.sent, w.taken, w.engine.nextOrderId);
        assert w.log + [] == w.log;
      } else {
        SubmittedRefuses(w.ledger, sub, full, capacity);
        RefusedServes(c, w.ledger, s', w.log, w.sent, w.taken, w.engine.nextOrderId);
      }
    }
  }

  lemma ServedDebts(c: E.Config, s: L.Ledger, log: seq<Response>, sent: seq<Request>, taken: nat)
    requires Served(c, s, log, sent, taken)
    ensures L.Debts(s)
  {
  }

  lemma SubmittedRefuses(s: L.Ledger, sub: L.Submission, full: bool, capacity: nat)
    requires !L.Passes(s, sub)
    ensures var s' := L.Submitted(s, sub, full, capacity);
      s'.Some? && s'.value.orders == s.orders && s'.value.net == s.net
  {
    hide L.Passes;
  }

  // ----- a frame from the venue ------------------------------------------------------------------------------

  /** A frame the protocol allows, accepted: its order was not over, unless only a cancel is rejected. */
  lemma FrameFits(c: E.Config, s: L.Ledger, frame: L.Wire, log: seq<Response>, sent: seq<Request>, taken: nat)
    requires Served(c, s, log, sent, taken) && Sends(c, s, frame) && L.Responded(s, frame).Some?
    ensures frame.id in s.orders && Fits(c, log, L.Forwarded(frame), sent, taken)
    ensures frame.kind != CANCEL_REJECTED ==> !s.orders[frame.id].terminal
  {
    var r, o := L.Forwarded(frame), s.orders[frame.id];
    hide L.DebtOf, Over, FilledOf, NetOf;
    assert Accounted(o, log, sent, taken);
    assert AnswersTo(o.request, r);
    var i :| 0 <= i < taken && i < |sent| && sent[i] == o.request;
    assert sent[i].kind == NEW && sent[i].id == r.id;
    assert frame.kind == FILLED ==> Covers(log, r, o.request);
    OneMore(log, r, r.id);
  }

  lemma FrameAccounted(s: L.Ledger, frame: L.Wire, log: seq<Response>, sent: seq<Request>, taken: nat)
    requires AllAccounted(s.orders, log, sent, taken) && L.Responded(s, frame).Some?
    requires frame.id in s.orders && (frame.kind != CANCEL_REJECTED ==> !s.orders[frame.id].terminal)
    ensures var s' := L.Responded(s, frame).value; AllAccounted(s'.orders, log + [L.Forwarded(frame)], sent, taken)
  {
    var r, s' := L.Forwarded(frame), L.Responded(s, frame).value;
    hide Over, FilledOf, Stems;
    forall id | id in s'.orders
      ensures s'.orders[id].request.id == id && Accounted(s'.orders[id], log + [r], sent, taken)
    {
      assert Accounted(s.orders[id], log, sent, taken);
      OneMore(log, r, id);
    }
  }

  lemma ReceiveServes(c: E.Config, s: L.Ledger, frame: L.Wire, log: seq<Response>, sent: seq<Request>, taken: nat)
    requires Served(c, s, log, sent, taken) && Sends(c, s, frame) && L.Responded(s, frame).Some?
    ensures Served(c, L.Responded(s, frame).value, log + [L.Forwarded(frame)], sent, taken)
  {
    FrameFits(c, s, frame, log, sent, taken);
    FrameAccounted(s, frame, log, sent, taken);
    OneMore(log, L.Forwarded(frame), frame.id);
    assert L.Responded(s, frame).value.net == L.NetAfter(s.net, frame);
    hide L.Debts, AllAccounted, AllFit, Fits, NetOf, L.VenueAllows;
    AllFitMore(c, log, L.Forwarded(frame), sent, taken);
    L.StepKeepsDebts(s, L.Receive(frame), 0);
  }

  // ----- runs ------------------------------------------------------------------------------------------------

  lemma TakeKeeps(c: E.Config, capacity: nat, w: World, orderType: L.OrderType, full: bool)
    requires Sound(c, w) && !w.dead && w.taken < |w.sent|
    ensures Sound(c, Next(c, capacity, w, Take(orderType, full)))
  {
    hide ES.Kept, SlotsFollow, Distinct, Served, NetOf, L.Submitted, L.Passes, L.Responded, E.Step, Sends;
    TakeServes(c, capacity, w, orderType, full);
    LogGrows(w, Next(c, capacity, w, Take(orderType, full)));
  }

  lemma ReceiveKeeps(c: E.Config, capacity: nat, w: World, frame: L.Wire)
    requires Sound(c, w) && !w.dead && Sends(c, w.ledger, frame)
    ensures Sound(c, Next(c, capacity, w, Receive(frame)))
  {
    hide ES.Kept, Follows, Served, L.Responded, L.Submitted, L.Passes, E.Step, Sends;
    if L.Responded(w.ledger, frame).Some? { ReceiveServes(c, w.ledger, frame, w.log, w.sent, w.taken); }
    LogGrows(w, Next(c, capacity, w, Receive(frame)));
  }

  lemma LogGrows(w: World, w': World)
    requires w.heard <= |w.log| && w.log <= w'.log
    ensures w'.log[..w.heard] == w.log[..w.heard]
  {
  }

  lemma BeginIsSound(c: E.Config)
    ensures Sound(c, Begin(c))
  {
    hide ES.Kept, Marked, Filled;
    ES.StartIsKept(c);
    assert E.Start(c).tickers[0] == E.NEW_TICKER;
    hide E.Start;
  }

  lemma NextIsSound(c: E.Config, capacity: nat, w: World, m: Move)
    requires Fit(c) && Sound(c, w)
    ensures Sound(c, Next(c, capacity, w, m))
  {
    match m {
      case Act(ev) => if OwnEvent(ev) { ActKeeps(c, capacity, w, ev); }
      case Hear => if w.heard < |w.log| { HearKeeps(c, capacity, w); }
      case Take(orderType, full) => if !w.dead && w.taken < |w.sent| { TakeKeeps(c, capacity, w, orderType, full); }
      case Receive(frame) => if !w.dead && Sends(c, w.ledger, frame) { ReceiveKeeps(c, capacity, w, frame); }
    }
    hide E.Step, L.Submitted, L.Responded, L.Passes, Sends, ES.Kept, Follows, Served, Fit;
  }

  lemma {:induction false} RunIsSound(c: E.Config, capacity: nat, ms: seq<Move>)
    requires Fit(c)
    ensures Sound(c, Run(c, capacity, ms))
  {
    hide Fit, Sound, Next, Begin;
    if ms == [] {
      BeginIsSound(c);
    } else {
      RunIsSound(c, capacity, ms[..|ms| - 1]);
      NextIsSound(c, capacity, Run(c, capacity, ms[..|ms| - 1]), ms[|ms| - 1]);
    }
  }

  /** However the two sides interleave: with a venue that keeps the ledger's protocol the next response is one that
      engine safety allows, handling it never throws, the engine is safe, and its position is the signed sum of
      the executions heard, hence the adapter's own once all are heard. */
  lemma LoopIsSafe(c: E.Config, capacity: nat, ms: seq<Move>)
    requires Fit(c)
    ensures var w := Run(c, capacity, ms);
      && ES.Safe(c, w.engine) && w.heard <= |w.log|
      && (w.heard < |w.log| ==>
            && ES.Allowed(c, w.engine, E.Answer(w.log[w.heard]))
            && E.Step(c, w.engine, E.Answer(w.log[w.heard])).ending == E.Normal)
      && w.engine.tickers[0].position.position == NetOf(w.log[..w.heard])
      && (w.heard == |w.log| ==> w.engine.tickers[0].position.position == w.ledger.net)
  {
    RunIsSound(c, capacity, ms);
    var w := Run(c, capacity, ms);
    if w.heard < |w.log| {
      NextIsAllowed(c, w);
      HearKeeps(c, capacity, w);
    } else {
      assert w.log[..w.heard] == w.log;
    }
    hide E.Step, ES.Kept, ES.Allowed, Next, Run, NetOf;
    ES.KeptIsSafe(c, w.engine);
    hide ES.Safe;
  }
}
