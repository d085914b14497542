/** Engine and SimNow adapter, connected by the gateway's two queues (src/trading/order_gw/order_gateway.h): whatever
    the CTP library calls back, the adapter answers only as the engine's safety demands. */
module VenueLoop {
  import opened Common
  import opened BookSpec
  import opened PositionKeeper
  import opened RiskManager
  import opened OrderManager
  import opened Responses
  import opened EngineHearing
  import E = EngineSpec
  import ES = EngineSafety
  import A = SimNowSpec
  import AS = SimNowSafety
  import AL = SimNowLifecycle

  /** `sent` are the engine's requests and the adapter's log its responses, of which `taken` and `heard` have
      left their queues. The adapter serves ticker 0. */
  datatype World = World(engine: E.Engine, adapter: A.State, sent: seq<Request>, taken: nat, heard: nat)

  /** One step of either side: anything but a response for the engine, the next response, the next request (with
      what the transport makes of it), or anything but a request for the adapter. */
  datatype Move =
    | Act(ev: E.Event)
    | Hear
    | Take(plain: bool, rc: int)
    | Work(a: A.Action)

  function Begin(c: E.Config, instrument: string): World { World(E.Start(c), A.Initial(instrument), [], 0, 0) }

  ghost function Next(c: E.Config, w: World, m: Move): World {
    match m
    case Act(ev) =>
      if !OwnEvent(ev) then w
      else var r := E.Step(c, w.engine, ev); w.(engine := r.engine, sent := w.sent + Sent(r))
    case Hear =>
      if w.heard >= |w.adapter.book.log| then w
      else w.(engine := E.Step(c, w.engine, E.Answer(w.adapter.book.log[w.heard])).engine, heard := w.heard + 1)
    case Take(plain, rc) =>
      if w.taken >= |w.sent| then w
      else
        var q := w.sent[w.taken];
        w.(adapter := A.Submitted(w.adapter, A.Submission(q, q.ticker == 0, plain), rc), taken := w.taken + 1)
    case Work(a) => if a.Submit? then w else w.(adapter := A.Step(w.adapter, a))
  }

  ghost function Run(c: E.Config, instrument: string, ms: seq<Move>): World {
    if ms == [] then Begin(c, instrument) else Next(c, Run(c, instrument, ms[..|ms| - 1]), ms[|ms| - 1])
  }

  // ----- the invariant ---------------------------------------------------------------------------------------

  /** The adapter has counted the identifiers of the requests taken, each once. */
  ghost predicate Counted(used: multiset<int>, sent: seq<Request>, taken: nat) {
    forall id :: used[id] > 0 ==> used[id] == 1 && AskedFor(sent, taken, id)
  }

  /** Stored orders come from requests taken. */
  ghost predicate AllStem(orders: map<nat, A.Order>, sent: seq<Request>, taken: nat) {
    forall ref :: ref in orders ==> Stems(orders[ref].request, sent, taken)
  }

  ghost predicate AllBacked(b: A.Book) {
    forall i :: 0 <= i < |b.log| ==> AL.Backed(b, b.log[i])
  }

  function Told(w: World): seq<Response>
    requires w.heard <= |w.adapter.book.log|
  {
    w.adapter.book.log[..w.heard]
  }

  /** The adapter's side. */
  ghost predicate Served(b: A.Book, sent: seq<Request>, taken: nat) {
    Counted(b.used, sent, taken) && AllStem(b.orders, sent, taken) && AllBacked(b)
  }

  /** A position of at most one lot, today's, that the responses heard account for. */
  predicate PositionFollows(p: Position, told: seq<Response>) {
    -1 <= NetOf(told) <= 1 && AS.Agree(p, NetOf(told))
  }

  /** The engine's side: slots and position follow the responses heard. */
  ghost predicate Follows(e: E.Engine, sent: seq<Request>, told: seq<Response>) {
    && Distinct(sent, e.nextOrderId)
    && SlotsFollow(e.tickers[0].slots, sent, told)
    && PositionFollows(e.tickers[0].position, told)
  }

  /** Where engine safety does not depend on the venue. */
  ghost predicate KeptIfFit(c: E.Config, e: E.Engine) {
    c.simex && ES.QuantityFits(c) ==> ES.Kept(c, e)
  }

  ghost predicate Sound(c: E.Config, w: World) {
    && w.taken <= |w.sent| && w.heard <= |w.adapter.book.log|
    && KeptIfFit(c, w.engine) && AS.Inv(w.adapter)
    && Follows(w.engine, w.sent, Told(w))
    && Served(w.adapter.book, w.sent, w.taken)
  }

  // ----- the next response is allowed ------------------------------------------------------------------------

  lemma {:induction false} OfSplits(log: seq<Response>, n: nat, id: int)
    requires n < |log|
    ensures var before := AS.Of(log[..n], id);
      AS.Of(log[..n + 1], id) == if log[n].id == id then before + [log[n].kind] else before
    ensures AS.Of(log[..n + 1], id) <= AS.Of(log, id)
  {
    assert log[..n + 1] == log[..n] + [log[n]];
    AS.Appended(log[..n], log[n], id);
    AL.OfPrefix(log[..n + 1], log, id);
  }

  /** Before a response to an orderly order nothing has ended it. */
  lemma {:induction false} NotOverYet(log: seq<Response>, n: nat, id: int)
    requires n < |log| && log[n].id == id && AS.NothingAfterTerminal(AS.Of(log, id))
    ensures !Over(log[..n], id)
  {
    forall i | 0 <= i < n && log[i].id == id ensures !Ends(log[i]) {
      OfSplits(log, i, id);
      OfSplits(log, n, id);
      AL.OfPrefix(log[..i + 1], log[..n], id);
      var k := |AS.Of(log[..i], id)|;
      assert AS.Of(log, id)[k] == log[i].kind && k + 1 < |AS.Of(log, id)|;
    }
  }

  /** Acceptances and executions concern an order with an orderly life, for one lot, that the engine asked for. */
  lemma Meant(c: E.Config, w: World, n: nat) returns (q: Request)
    requires Sound(c, w) && n < |w.adapter.book.log|
    requires var r := w.adapter.book.log[n]; r.kind == ACCEPTED || r.kind == FILLED
    ensures AL.AnswersTo(q, w.adapter.book.log[n]) && Stems(q, w.sent, w.taken) && q.qty == 1
    ensures AS.NothingAfterTerminal(AS.Of(w.adapter.book.log, q.id))
  {
    var b := w.adapter.book;
    assert AL.Backed(b, b.log[n]);
    var ref :| ref in b.orders && AL.AnswersTo(b.orders[ref].request, b.log[n]);
    q := b.orders[ref].request;
    hide AL.AnswersTo, AS.Of, Stems;
    assert Stems(q, w.sent, w.taken);
    assert AS.FitsPosition(b.orders[ref], b.net);
    assert AS.Life(b.orders, b.log, b.used, q.id);
    assert b.used[q.id] == 1;
    assert AS.OrderlyLife(b.orders[ref], AS.Of(b.log, q.id));
  }

  /** Every execution fills its order, which is for one lot. */
  lemma AllFillsEnd(c: E.Config, w: World)
    requires Sound(c, w)
    ensures forall i :: 0 <= i < |w.adapter.book.log| && w.adapter.book.log[i].kind == FILLED ==>
      Ends(w.adapter.book.log[i]) && w.adapter.book.log[i].id < w.engine.nextOrderId
  {
    forall i | 0 <= i < |w.adapter.book.log| && w.adapter.book.log[i].kind == FILLED
      ensures Ends(w.adapter.book.log[i]) && w.adapter.book.log[i].id < w.engine.nextOrderId
    {
      var q := Meant(c, w, i);
      hide AS.Inv, KeptIfFit, PositionFollows, Served, SlotsFollow;
      var j :| 0 <= j < w.taken && j < |w.sent| && w.sent[j] == q;
      assert w.sent[j].kind == NEW;
    }
  }

  /** The engine's order of an acceptance or execution it has not heard yet. */
  lemma StillHeld(c: E.Config, w: World) returns (q: Request)
    requires Sound(c, w) && w.heard < |w.adapter.book.log|
    requires var r := w.adapter.book.log[w.heard]; r.kind == ACCEPTED || r.kind == FILLED
    ensures var r := w.adapter.book.log[w.heard]; var slots := w.engine.tickers[0].slots;
      && AL.AnswersTo(q, r) && q.qty == 1 && Stems(q, w.sent, w.taken) && FilledOf(Told(w), q.id) == 0
      && Held(slots, q, 1) && Active(slots.Get(q.side))
  {
    q := Meant(c, w, w.heard);
    var log := w.adapter.book.log;
    NotOverYet(log, w.heard, q.id);
    AllFillsEnd(c, w);
    hide AS.Inv, KeptIfFit, PositionFollows, Served, AS.Of, AS.NothingAfterTerminal, Ends;
    forall i | 0 <= i < w.heard && log[i].kind == FILLED ensures log[..w.heard][i].id != q.id {
      assert log[..w.heard][i] == log[i];
    }
    NothingFilled(log[..w.heard], q.id);
    hide Over, FilledOf;
    var slots := w.engine.tickers[0].slots;
    assert SlotsFollow(slots, w.sent, log[..w.heard]);
    var i :| 0 <= i < w.taken && i < |w.sent| && w.sent[i] == q;
    assert HeldOrOver(slots, w.sent[i], log[..w.heard]);
  }

  /** The next response is one the engine may safely hear. */
  lemma NextIsAllowed(c: E.Config, w: World)
    requires Sound(c, w) && w.heard < |w.adapter.book.log|
    ensures var r := w.adapter.book.log[w.heard];
      && r.ticker == 0 && ES.VenueAllows(c, w.engine.tickers[0], r)
      && (r.kind == ACCEPTED || r.kind == FILLED ==>
            w.engine.tickers[0].slots.Get(r.fill.side).id == r.id && Active(w.engine.tickers[0].slots.Get(r.fill.side)))
      && (r.kind == FILLED ==> AS.FitsNet(r.fill, NetOf(Told(w))) && r.leaves == 0)
  {
    var r := w.adapter.book.log[w.heard];
    assert AL.Backed(w.adapter.book, r);
    if r.kind == ACCEPTED || r.kind == FILLED {
      var q := StillHeld(c, w);
      assert r.kind == FILLED ==> AS.FitsNet(r.fill, NetOf(Told(w)));
    }
  }

  // ----- the engine's own events -----------------------------------------------------------------------------

  lemma ActFollows(c: E.Config, e: E.Engine, ev: E.Event, sent: seq<Request>, told: seq<Response>)
    requires Follows(e, sent, told) && OwnEvent(ev) && FilledOf(told, e.nextOrderId) == 0
    ensures var r := E.Step(c, e, ev); Follows(r.engine, sent + Sent(r), told)
  {
    hide E.Step, SlotsFollow, Distinct, ActsOnFirst, FilledOf;
    var r := E.Step(c, e, ev);
    StepActs(c, e, ev);
    NewIsNext(c, e, ev);
    SlotsAfter(e.tickers[0].slots, r.engine.tickers[0].slots, sent, r.request, told);
    DistinctAfter(c, e, ev, sent);
    OwnPosition(c, e, ev);
  }

  /** A step the engine's safety allows. */
  lemma StaysKept(c: E.Config, e: E.Engine, ev: E.Event)
    requires E.Configured(c) && KeptIfFit(c, e) && ES.Allowed(c, e, ev)
    ensures KeptIfFit(c, E.Step(c, e, ev).engine)
  {
    hide ES.Kept, E.Step, ES.QuantityFits, E.Configured, ES.Allowed;
    if c.simex && ES.QuantityFits(c) { ES.StepKeeps(c, e, ev); }
  }

  lemma ActKeeps(c: E.Config, w: World, ev: E.Event)
    requires E.Configured(c) && Sound(c, w) && OwnEvent(ev)
    ensures Sound(c, Next(c, w, Act(ev)))
  {
    var r := E.Step(c, w.engine, ev);
    hide E.Step, A.Step, A.Submitted, KeptIfFit, AS.Inv, Follows, Served, E.Configured;
    StaysKept(c, w.engine, ev);
    AllFillsEnd(c, w);
    NothingFilled(Told(w), w.engine.nextOrderId);
    ActFollows(c, w.engine, ev, w.sent, Told(w));
    ServedStill(w.adapter.book, w.adapter.book, w.sent, w.sent + Sent(r), w.taken);
  }

  /** More requests take nothing away. */
  lemma ServedStill(b: A.Book, b': A.Book, sent: seq<Request>, sent': seq<Request>, taken: nat)
    requires Served(b, sent, taken) && sent <= sent' && taken <= |sent| && b' == b
    ensures Served(b', sent', taken)
  {
    hide AL.Backed;
    forall ref | ref in b.orders ensures Stems(b.orders[ref].request, sent', taken) {
      assert Stems(b.orders[ref].request, sent, taken);
    }
    forall id | b.used[id] > 0 ensures b.used[id] == 1 && AskedFor(sent', taken, id) {
      var i :| 0 <= i < taken && i < |sent| && sent[i].kind == NEW && sent[i].id == id;
      assert sent'[i].kind == NEW;
    }
  }

  // ----- a response ------------------------------------------------------------------------------------------

  /** An execution that fits the position never throws, and is accounted for. */
  lemma FittingFill(p: Position, told: seq<Response>, r: Response)
    requires PositionFollows(p, told) && r.kind == FILLED && AS.FitsNet(r.fill, NetOf(told))
    ensures E.Agrees(p, r.fill, Filled(p, r.fill)) && PositionFollows(Filled(p, r.fill), told + [r])
  {
    hide Filled, NetOf, AS.Folded;
    assert LotsMatch(p) && Proper(p, r.fill);
    ES.DisagreesExactlyWhenImproper(p, r.fill);
    AS.FillAgrees(p, NetOf(told), r.fill);
    OneMore(told, r, r.id);
  }

  lemma FollowsOn(c: E.Config, e: E.Engine, sent: seq<Request>, told: seq<Response>, r: Response)
    requires Follows(e, sent, told) && r.ticker == 0
    requires var o := e.tickers[0].slots.Get(r.fill.side); r.kind == ACCEPTED ==> Active(o) || o.id != r.id
    requires r.kind == FILLED ==> AS.FitsNet(r.fill, NetOf(told)) && r.leaves == 0 && FilledOf(told, r.id) == 0
    requires r.kind == FILLED ==> OneLotAskedFor(sent, r)
    ensures E.Step(c, e, E.Answer(r)).ending == E.Normal
    ensures Follows(E.Step(c, e, E.Answer(r)).engine, sent, told + [r])
  {
    assert r.kind == FILLED ==> r.fill.qty == 1;
    hide E.Step, Distinct, SlotsFollow, Updated, Filled, NetOf, AS.FitsNet, AS.Agree, E.Agrees, FilledOf;
    AnswerEffect(c, e, r);
    SlotsHear(e.tickers[0].slots, sent, told, r);
    if r.kind == FILLED {
      FittingFill(e.tickers[0].position, told, r);
    } else {
      OneMore(told, r, r.id);
    }
  }

  /** Requests with the identifier of a response are for one lot of its side. */
  ghost predicate OneLotAskedFor(sent: seq<Request>, r: Response) {
    forall i :: 0 <= i < |sent| && sent[i].kind == NEW && sent[i].id == r.id ==>
      sent[i].side == r.fill.side && sent[i].qty == 1
  }

  lemma HearKeeps(c: E.Config, w: World)
    requires E.Configured(c) && Sound(c, w) && w.heard < |w.adapter.book.log|
    ensures Sound(c, Next(c, w, Hear))
    ensures E.Step(c, w.engine, E.Answer(w.adapter.book.log[w.heard])).ending == E.Normal
  {
    hide E.Step, A.Step, A.Submitted, AS.Inv, Follows, Served, ES.VenueAllows, AS.FitsNet, KeptIfFit, E.Configured,
      Distinct, Stems;
    var log, r := w.adapter.book.log, w.adapter.book.log[w.heard];
    NextIsAllowed(c, w);
    if r.kind == FILLED {
      var q := StillHeld(c, w);
      SoundParts(c, w);
      StemIsOnly(w.sent, w.taken, w.engine.nextOrderId, q);
    }
    assert ES.Allowed(c, w.engine, E.Answer(r));
    hide ES.Allowed, E.Step;
    StaysKept(c, w.engine, E.Answer(r));
    FollowsOn(c, w.engine, w.sent, log[..w.heard], r);
    assert log[..w.heard + 1] == log[..w.heard] + [r];
  }

  // ----- the adapter -----------------------------------------------------------------------------------------

  /** New responses are backed, and old ones stay so. */
  lemma BackedAfter(b: A.Book, b': A.Book)
    requires AllBacked(b) && AL.Grows(b, b')
    ensures AllBacked(b')
  {
    hide AL.Backed;
    forall i | 0 <= i < |b'.log| ensures AL.Backed(b', b'.log[i]) {
      if i < |b.log| {
        assert b'.log[i] == b.log[i];
        AL.BackedStill(b, b', b.log[i]);
      }
    }
  }

  lemma WorkServes(b: A.Book, b': A.Book, sent: seq<Request>, taken: nat)
    requires Served(b, sent, taken) && AL.Grows(b, b') && AL.SameUses(b, b')
    ensures Served(b', sent, taken)
  {
    BackedAfter(b, b');
    hide AL.Backed, Counted;
    forall ref | ref in b'.orders ensures Stems(b'.orders[ref].request, sent, taken) {
      assert AL.Evolves(b.orders[ref], b'.orders[ref]);
    }
  }

  /** A step of the adapter that keeps its side leaves the other as it is. */
  lemma SoundStill(c: E.Config, w: World, adapter: A.State, taken: nat)
    requires Sound(c, w) && AS.Inv(adapter) && AL.Grows(w.adapter.book, adapter.book)
    requires taken <= |w.sent| && Served(adapter.book, w.sent, taken)
    ensures Sound(c, w.(adapter := adapter, taken := taken))
  {
    hide KeptIfFit, AS.Inv, Follows, Served;
    assert w.adapter.book.log <= adapter.book.log;
    hide AL.Grows;
    assert adapter.book.log[..w.heard] == w.adapter.book.log[..w.heard];
  }

  lemma WorkKeeps(c: E.Config, w: World, a: A.Action)
    requires Sound(c, w) && !a.Submit?
    ensures Sound(c, Next(c, w, Work(a)))
  {
    hide A.Step, E.Step, A.Submitted, KeptIfFit, AS.Inv, Follows, Served, AL.Grows;
    AS.StepKeeps(w.adapter, a);
    AL.StepGrows(w.adapter, a);
    AL.StepUses(w.adapter, a);
    var b, b' := w.adapter.book, A.Step(w.adapter, a).book;
    WorkServes(b, b', w.sent, w.taken);
    SoundStill(c, w, A.Step(w.adapter, a), w.taken);
  }

  /** What taking a request does to the counted identifiers and the stored orders. */
  predicate Takes(b: A.Book, b': A.Book, q: Request, ref: nat) {
    && b'.used == (if q.kind == NEW then b.used + multiset{q.id} else b.used)
    && (b'.orders.Keys == b.orders.Keys
        || (q.kind == NEW && q.ticker == 0 && b'.orders.Keys == b.orders.Keys + {ref} && b'.orders[ref].request == q))
  }

  lemma SubmissionTakes(s: A.State, sub: A.Submission, rc: int)
    requires sub.ours ==> sub.request.ticker == 0
    ensures Takes(s.book, A.Submitted(s, sub, rc).book, sub.request, s.book.nextRef + 1)
  {
    hide A.Submitted;
    AL.SubmissionUses(s, sub, rc);
  }

  /** A request taken: its identifier is new to the adapter, and an order stored for it stems from it. */
  lemma TakeServes(b: A.Book, b': A.Book, sent: seq<Request>, taken: nat, nextId: nat, ref: nat)
    requires Served(b, sent, taken) && taken < |sent| && Distinct(sent, nextId) && AL.Grows(b, b')
    requires Takes(b, b', sent[taken], ref)
    ensures Served(b', sent, taken + 1)
  {
    BackedAfter(b, b');
    hide AL.Backed, AllBacked;
    var q := sent[taken];
    forall at | at in b'.orders ensures Stems(b'.orders[at].request, sent, taken + 1) {
      if at in b.orders {
        assert AL.Evolves(b.orders[at], b'.orders[at]) && Stems(b.orders[at].request, sent, taken);
      } else {
        assert sent[taken] == b'.orders[at].request;
      }
    }
    forall id | b'.used[id] > 0 ensures b'.used[id] == 1 && AskedFor(sent, taken + 1, id) {
      if b.used[id] > 0 {
        var i :| 0 <= i < taken && i < |sent| && sent[i].kind == NEW && sent[i].id == id;
        assert q.kind == NEW ==> sent[i].id != q.id;
      } else {
        assert q.kind == NEW && q.id == id;
      }
    }
  }

  lemma TakenServes(s: A.State, sub: A.Submission, rc: int, sent: seq<Request>, taken: nat, nextId: nat)
    requires AS.Inv(s) && Served(s.book, sent, taken) && Distinct(sent, nextId)
    requires taken < |sent| && sub.request == sent[taken] && (sub.ours ==> sub.request.ticker == 0)
    ensures Served(A.Submitted(s, sub, rc).book, sent, taken + 1)
  {
    hide A.Submitted, Served, Distinct, AL.Grows, Takes;
    SubmissionTakes(s, sub, rc);
    AL.SubmissionGrows(s, sub, rc);
    TakeServes(s.book, A.Submitted(s, sub, rc).book, sent, taken, nextId, s.book.nextRef + 1);
  }

  lemma TakeKeeps(c: E.Config, w: World, plain: bool, rc: int)
    requires Sound(c, w) && w.taken < |w.sent|
    ensures Sound(c, Next(c, w, Take(plain, rc)))
  {
    hide Sound, AS.Inv, Served, Follows, Distinct, A.Submitted, AL.Grows, E.Step, A.Step;
    var sub := A.Submission(w.sent[w.taken], w.sent[w.taken].ticker == 0, plain);
    SoundParts(c, w);
    AS.SubmissionKeeps(w.adapter, sub, rc);
    AL.SubmissionGrows(w.adapter, sub, rc);
    TakenServes(w.adapter, sub, rc, w.sent, w.taken, w.engine.nextOrderId);
    SoundStill(c, w, A.Submitted(w.adapter, sub, rc), w.taken + 1);
  }

  lemma SoundParts(c: E.Config, w: World)
    requires Sound(c, w)
    ensures AS.Inv(w.adapter) && Served(w.adapter.book, w.sent, w.taken) && Distinct(w.sent, w.engine.nextOrderId)
  {
    hide KeptIfFit, AS.Inv, Served, Distinct;
  }

  // ----- runs ------------------------------------------------------------------------------------------------

  lemma BeginIsSound(c: E.Config, instrument: string)
    requires E.Configured(c)
    ensures Sound(c, Begin(c, instrument))
  {
    hide AS.Inv, Filled, Marked, ES.Kept;
    AS.InitialInv(instrument);
    ES.StartIsKept(c);
    assert E.Start(c).tickers[0] == E.NEW_TICKER;
    hide E.Start;
  }

  lemma NextIsSound(c: E.Config, w: World, m: Move)
    requires E.Configured(c) && Sound(c, w)
    ensures Sound(c, Next(c, w, m))
  {
    match m {
      case Act(ev) => if OwnEvent(ev) { ActKeeps(c, w, ev); }
      case Hear => if w.heard < |w.adapter.book.log| { HearKeeps(c, w); }
      case Take(plain, rc) => if w.taken < |w.sent| { TakeKeeps(c, w, plain, rc); }
      case Work(a) => if !a.Submit? { WorkKeeps(c, w, a); }
    }
    hide E.Step, A.Step, A.Submitted, KeptIfFit, AS.Inv, Follows, Served, E.Configured;
  }

  lemma {:induction false} RunIsSound(c: E.Config, instrument: string, ms: seq<Move>)
    requires E.Configured(c)
    ensures Sound(c, Run(c, instrument, ms))
  {
    hide E.Configured, Sound, Next, Begin;
    if ms == [] {
      BeginIsSound(c, instrument);
    } else {
      RunIsSound(c, instrument, ms[..|ms| - 1]);
      NextIsSound(c, Run(c, instrument, ms[..|ms| - 1]), ms[|ms| - 1]);
    }
  }

  /** However the two sides interleave and whatever the CTP library calls back: the next response is one that
      engine safety allows, handling it never throws, and the engine's position is the signed sum of the
      executions heard, one lot of today's at most, hence the adapter's own once all are heard. Under the simex
      constraints, with a quantity that fits, the whole engine is safe. */
  lemma LoopIsSafe(c: E.Config, instrument: string, ms: seq<Move>)
    requires E.Configured(c)
    ensures var w := Run(c, instrument, ms); var log := w.adapter.book.log; var k := w.engine.tickers[0];
      && w.heard <= |log|
      && (w.heard < |log| ==>
            && log[w.heard].ticker == 0 && ES.VenueAllows(c, k, log[w.heard])
            && E.Step(c, w.engine, E.Answer(log[w.heard])).ending == E.Normal)
      && PositionFollows(k.position, log[..w.heard])
      && (w.heard == |log| ==> k.position.position == w.adapter.book.net)
      && (c.simex && ES.QuantityFits(c) ==> ES.Safe(c, w.engine))
  {
    RunIsSound(c, instrument, ms);
    var w := Run(c, instrument, ms);
    if w.heard < |w.adapter.book.log| {
      NextIsAllowed(c, w);
      HearKeeps(c, w);
    } else {
      assert w.adapter.book.log[..w.heard] == w.adapter.book.log;
    }
    hide E.Step, ES.Kept, Next, Run, ES.VenueAllows;
    if c.simex && ES.QuantityFits(c) { ES.KeptIsSafe(c, w.engine); }
    hide ES.Safe, ES.QuantityFits;
  }
}
