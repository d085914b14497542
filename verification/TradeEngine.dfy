/** The engine object (src/trading/strategy/trade_engine.h): positions, order slots, quotes and evaluation
    identifiers updated in place by the event handlers. */
module TradeEngines {
  import opened Common
  import opened BookSpec
  import opened PositionKeeper
  import opened RiskManager
  import opened OrderManager
  import opened EngineSpec
  import opened EngineSafety

  /** `AccountState`. */
  datatype Account = Account(availableMargin: real, usedMargin: real, equity: real)

  class TradeEngine {
    const config: Config
    const positions: seq<PositionInfo>
    const orderManager: OrderManager
    const bbos: array<BBO>
    const valid: array<bool>
    const latest: array<nat>
    var nextEvaluationId: nat
    var venueReady: bool
    var outgoing: seq<Request>
    var venueAccount: Account
    var venueMultiplier: real

    ghost const Repr: set<object>

    ghost predicate Valid()
      reads this, Repr
    {
      && this in Repr && orderManager in Repr && orderManager.orders in Repr
      && bbos in Repr && valid in Repr && latest in Repr
      && (forall t: nat :: t < |positions| ==> positions[t] in Repr)
      && orderManager.Valid() && Configured(config)
      && |positions| == bbos.Length == valid.Length == latest.Length == TICKERS
      && (forall t: nat, u: nat :: t < u < TICKERS ==> positions[t] != positions[u])
    }

    ghost function At(t: nat): Ticker
      requires Valid() && t < TICKERS
      reads this, Repr
    {
      Ticker(positions[t].View(), orderManager.View(t), bbos[t], valid[t], latest[t])
    }

    ghost function View(): Engine
      requires Valid()
      reads this, Repr
    {
      Engine(seq(TICKERS, t requires 0 <= t < TICKERS && Valid() reads this, Repr => At(t)),
             orderManager.nextOrderId, nextEvaluationId, venueReady)
    }

    /** One flat position for each ticker. */
    static method NewPositions() returns (ps: seq<PositionInfo>)
      ensures |ps| == TICKERS
      ensures forall t: nat :: t < TICKERS ==> fresh(ps[t]) && ps[t].View() == FLAT
      ensures forall t: nat, u: nat :: t < u < TICKERS ==> ps[t] != ps[u]
    {
      hide FLAT;
      ps := [];
      while |ps| < TICKERS
        invariant |ps| <= TICKERS
        invariant forall t: nat :: t < |ps| ==> fresh(ps[t]) && ps[t].View() == FLAT
        invariant forall t: nat, u: nat :: t < u < |ps| ==> ps[t] != ps[u]
      {
        var p := new PositionInfo();
        ps := ps + [p];
      }
    }

    constructor (config: Config)
      requires Configured(config)
      ensures Valid() && fresh(Repr) && this.config == config
      ensures View() == Start(config) && outgoing == []
    {
      this.config := config;
      var orders := new OrderManager();
      var quotes := new BBO[TICKERS](_ => NO_BBO);
      var flags := new bool[TICKERS](_ => false);
      var ids := new nat[TICKERS](_ => 0);
      var keeper := NewPositions();
      orderManager, bbos, valid, latest := orders, quotes, flags, ids;
      positions := keeper;
      nextEvaluationId, venueReady, outgoing := 1, !config.single, [];
      venueAccount, venueMultiplier := Account(0.0, 0.0, 0.0), 1.0;
      Repr := {this, orders, orders.orders, quotes, flags, ids} + (set p | p in keeper);
      new;
      hide FLAT, NO_ORDER, NO_BBO;
      forall t: nat | t < TICKERS ensures At(t) == NEW_TICKER {
        assert positions[t].View() == FLAT && orderManager.View(t) == Slots(NO_ORDER, NO_ORDER);
      }
      hide TradeEngine.At;
    }

    /** The engine's values after one event, the request of that event queued for the gateway. */
    twostate predicate Took(ev: Event, ending: Ending)
      requires Valid() && old(Valid())
      reads this, Repr
    {
      var r := Step(config, old(View()), ev);
      && View() == r.engine && ending == r.ending
      && outgoing == old(outgoing) + if r.request.Some? then [r.request.value] else []
    }

    /** `handleClientResponse`. */
    method HandleClientResponse(r: Response) returns (ending: Ending)
      requires Valid()
      modifies Repr
      ensures Valid() && Took(Answer(r), ending)
    {
      hide Filled, Updated, Abs;
      if r.ticker >= TICKERS {
        return Normal;
      }
      if r.kind == FILLED {
        var p := positions[r.ticker];
        var expected := p.position + SideToValue(r.fill.side) * r.fill.qty;
        p.OnFill(r.fill);
        if config.simex && (p.position != expected || p.today.qty + p.yesterday.qty != Abs(expected)) {
          assert forall t: nat :: t < TICKERS && t != r.ticker ==> At(t) == old(At(t));
          return Disagreement;
        }
      }
      orderManager.OnOrderUpdate(r);
      assert forall t: nat :: t < TICKERS && t != r.ticker ==> At(t) == old(At(t));
      return Normal;
    }

    /** `handleMarketUpdate`; a ticker without a book terminates. */
    method HandleMarketUpdate(t: nat, bbo: BBO) returns (ending: Ending)
      requires Valid()
      modifies Repr
      ensures Valid() && Took(Market(t, bbo), ending)
    {
      hide Requoted, FeaturesValid;
      if t >= TICKERS {
        return Terminated;
      }
      bbos[t] := bbo;
      positions[t].UpdateBBO(bbo);
      valid[t] := FeaturesValid(bbo);
      if !valid[t] {
        latest[t] := 0;
      }
      assert forall u: nat :: u < TICKERS && u != t ==> At(u) == old(At(u));
      return Normal;
    }

    /** An order may be working for the ticker. */
    method Working(t: nat) returns (working: bool)
      requires Valid() && t < TICKERS
      ensures working == (Active(At(t).slots.buy) || Active(At(t).slots.sell))
    {
      var buy := orderManager.GetOrder(t, BUY);
      var sell := orderManager.GetOrder(t, SELL);
      return Active(buy) || Active(sell);
    }

    /** The guards of `handleJevDecision`. */
    method Admits(d: Decision) returns (admitted: bool)
      requires Valid() && d.ticker < TICKERS
      ensures admitted == Admitted(config, At(d.ticker), venueReady, d)
    {
      if config.single && !venueReady {
        return false;
      }
      if d.id == 0 || d.id != latest[d.ticker] {
        return false;
      }
      if !valid[d.ticker] {
        return false;
      }
      if config.single {
        var working := Working(d.ticker);
        if working || (d.intent == OPENING && positions[d.ticker].position != 0) {
          return false;
        }
      }
      return true;
    }

    /** What the order methods below leave, and the request still to be sent. */
    twostate predicate Placed(t: nat, a: Acted, new request: Option<Request>)
      requires Valid() && old(Valid()) && t < TICKERS
      reads this, Repr
    {
      && At(t) == a.ticker && request == a.request && orderManager.nextOrderId == a.nextId
      && forall u: nat :: u < TICKERS && u != t ==> At(u) == old(At(u))
    }

    /** The opening branch of `handleJevDecision`. */
    method PlaceOpen(t: nat, side: Side) returns (request: Option<Request>)
      requires Valid() && t < TICKERS
      modifies orderManager`nextOrderId, orderManager.orders
      ensures Valid() && Placed(t, ActOpen(config, old(At(t)), t, old(orderManager.nextOrderId), side), request)
    {
      hide MoveOrder;
      var bbo, p := bbos[t], positions[t];
      if config.simex {
        var opposite := orderManager.GetOrder(t, Opposite(side));
        if (p.position > 0 && side == SELL) || (p.position < 0 && side == BUY)
           || (Active(opposite) && opposite.offset == OPEN) {
          return None;
        }
      }
      var price := if side == BUY then bbo.askPrice else bbo.bidPrice;
      if price == PRICE_INVALID {
        return None;
      }
      request := orderManager.MoveOpenOrder(t, p.View(), config.limits, price, side, config.quantity);
    }

    /** The closing branch of `handleJevDecision`. */
    method PlaceClose(t: nat) returns (request: Option<Request>)
      requires Valid() && t < TICKERS
      modifies orderManager`nextOrderId, orderManager.orders
      ensures Valid() && Placed(t, ActClose(config, old(At(t)), t, old(orderManager.nextOrderId)), request)
    {
      hide MoveCloseOrder;
      var bbo, p := bbos[t], positions[t];
      if p.position == 0 {
        return None;
      }
      var side := if p.position > 0 then SELL else BUY;
      var price := if side == BUY then bbo.askPrice else bbo.bidPrice;
      if price == PRICE_INVALID {
        return None;
      }
      request := orderManager.MoveClose(t, p.View(), config.limits, price, side, config.quantity);
    }

    /** The branches of a decision. */
    method Act(d: Decision) returns (request: Option<Request>)
      requires Valid() && d.ticker < TICKERS
      modifies orderManager`nextOrderId, orderManager.orders
      ensures Valid()
      ensures var a := Decided(config, old(At(d.ticker)), venueReady, d.ticker, old(orderManager.nextOrderId), d);
        Placed(d.ticker, a, request)
    {
      hide ActOpen, ActClose, Admitted;
      request := None;
      var admitted := Admits(d);
      if !admitted {
        return;
      }
      match d.intent {
        case OPENING => request := PlaceOpen(d.ticker, if d.bias == LONG then BUY else SELL);
        case CLOSING => request := PlaceClose(d.ticker);
        case _ =>
      }
    }

    /** `handleJevDecision`: the guards, then an open or a close. */
    method HandleJevDecision(d: Decision)
      requires Valid()
      modifies Repr
      ensures Valid() && Took(Decide(d), Normal)
    {
      hide Decided;
      if d.ticker >= TICKERS {
        return;
      }
      ghost var acted := Decided(config, At(d.ticker), venueReady, d.ticker, orderManager.nextOrderId, d);
      var request := Act(d);
      SendClientRequest(request);
      assert View().tickers == old(View()).tickers[d.ticker := acted.ticker];
    }

    method SendClientRequest(request: Option<Request>)
      modifies this`outgoing
      ensures outgoing == old(outgoing) + if request.Some? then [request.value] else []
    {
      if request.Some? {
        outgoing := outgoing + [request.value];
      }
    }

    /** `scheduleJevEvaluation`. */
    method ScheduleJevEvaluation(due: bool) returns (scheduled: bool)
      requires Valid()
      modifies Repr
      ensures Valid() && Took(Schedule(due), Normal)
      ensures scheduled == old(Schedules(config, View(), due))
    {
      if config.single && !venueReady {
        return false;
      }
      if config.scheduled == None || !valid[config.scheduled.value] || !due {
        return false;
      }
      var t := config.scheduled.value;
      latest[t] := nextEvaluationId;
      nextEvaluationId := nextEvaluationId + 1;
      assert forall u: nat :: u < TICKERS && u != t ==> At(u) == old(At(u));
      return true;
    }

    method ForgetEvaluations()
      requires Valid()
      modifies latest
      ensures forall t: nat :: t < TICKERS ==> At(t) == old(At(t)).(latest := 0)
    {
      var i := 0;
      while i < TICKERS
        invariant i <= TICKERS
        invariant forall t: nat :: t < i ==> latest[t] == 0
      {
        latest[i] := 0;
        i := i + 1;
      }
    }

    /** `updateVenueState`. */
    method UpdateVenueState(ready: bool, account: Account, multiplier: real)
      requires Valid()
      modifies Repr
      ensures Valid() && Took(VenueState(ready), Normal)
      ensures venueAccount == account && venueMultiplier == multiplier
    {
      venueAccount, venueMultiplier := account, multiplier;
      venueReady := ready;
      if !ready {
        ForgetEvaluations();
      }
      assert ready ==> forall t: nat :: t < TICKERS ==> At(t) == old(At(t));
    }

    method DisableVenueTrading()
      requires Valid()
      modifies Repr
      ensures Valid() && Took(VenueDisabled, Normal)
    {
      venueReady := false;
      ForgetEvaluations();
    }

    /** `acceptsEvaluation`: exactly the evaluations a decision could still be acted on for. */
    method AcceptsEvaluation(t: nat, id: nat) returns (accepts: bool)
      requires Valid()
      ensures accepts <==> (config.single ==> venueReady) && t < TICKERS && id != 0 && At(t).latest == id
    {
      return (!config.single || venueReady) && t < TICKERS && id != 0 && latest[t] == id;
    }

    /** The object after handling events, their requests queued for the gateway in order. */
    twostate predicate Handled(es: seq<Event>, ending: Ending)
      requires Valid() && old(Valid())
      reads this, Repr
    {
      var fed := Feed(config, old(View()), es);
      View() == fed.engine && ending == fed.ending && outgoing == old(outgoing) + fed.sent
    }

    /** One event of a drained queue. */
    method Handle(ev: Event) returns (ending: Ending)
      requires Valid() && (ev.Answer? || ev.Market? || ev.Decide?)
      modifies Repr
      ensures Valid() && Took(ev, ending)
    {
      ending := Normal;
      match ev {
        case Answer(r) => ending := HandleClientResponse(r);
        case Market(t, bbo) => ending := HandleMarketUpdate(t, bbo);
        case Decide(d) => HandleJevDecision(d);
      }
    }

    /** Draining a queue of client responses, market updates or decisions; it stops when a handler does. */
    method Drain(es: seq<Event>) returns (ending: Ending)
      requires Valid()
      requires forall k: nat :: k < |es| ==> es[k].Answer? || es[k].Market? || es[k].Decide?
      modifies Repr
      ensures Valid() && Handled(es, ending)
    {
      hide Step, View, Valid;
      ending := Normal;
      var i := 0;
      while i < |es|
        invariant i <= |es| && Valid() && ending == Normal
        invariant old(outgoing) <= outgoing
        invariant Feed(config, old(View()), es[..i]) == Fed(View(), Normal, outgoing[|old(outgoing)|..])
      {
        ghost var before, sent := View(), outgoing;
        ending := Handle(es[i]);
        assert es[..i + 1][..i] == es[..i];
        assert outgoing[|old(outgoing)|..] == sent[|old(outgoing)|..] + outgoing[|sent|..];
        i := i + 1;
        assert Feed(config, old(View()), es[..i]) == Fed(View(), ending, outgoing[|old(outgoing)|..]);
        if ending != Normal {
          FeedAppend(config, old(View()), es[..i], es[i..]);
          assert es[..i] + es[i..] == es;
          return;
        }
      }
      assert es[..i] == es;
    }

    /** Two queues in turn. */
    method DrainBoth(first: seq<Event>, second: seq<Event>) returns (ending: Ending)
      requires Valid()
      requires forall k: nat :: k < |first| ==> first[k].Answer? || first[k].Market? || first[k].Decide?
      requires forall k: nat :: k < |second| ==> second[k].Answer? || second[k].Market? || second[k].Decide?
      modifies Repr
      ensures Valid() && Handled(first + second, ending)
    {
      hide Feed, View, Valid;
      FeedAppend(config, View(), first, second);
      ending := Drain(first);
      if ending == Normal {
        ending := Drain(second);
      }
    }

    /** The timer as an event of its own. */
    method Timer(due: bool)
      requires Valid()
      modifies Repr
      ensures Valid() && Handled([Schedule(due)], Normal)
    {
      hide Step, View, Valid;
      ghost var before := View();
      var _ := ScheduleJevEvaluation(due);
      assert [Schedule(due)][..0] == [];
      assert Feed(config, before, [Schedule(due)]) == FedOne(config, Fed(before, Normal, []), Schedule(due));
    }

    /** `processPending`: responses, then market updates, then decisions, then the evaluation timer. */
    method ProcessPending(turn: Turn) returns (ending: Ending)
      requires Valid() && turn.Pending? && Sorted(turn)
      modifies Repr
      ensures Valid() && Handled(EventsOf(turn), ending)
    {
      hide Feed, View, Valid;
      ghost var start, timer := View(), [Schedule(turn.due)];
      FeedAppend(config, start, turn.responses + turn.updates, turn.decisions);
      FeedAppend(config, start, turn.responses + turn.updates + turn.decisions, timer);
      ending := DrainBoth(turn.responses, turn.updates);
      if ending == Normal {
        ending := Drain(turn.decisions);
      }
      if ending == Normal {
        Timer(turn.due);
      }
    }

    /** A turn of either thread. */
    method Round(turn: Turn) returns (ending: Ending)
      requires Valid() && Sorted(turn)
      modifies Repr
      ensures Valid() && Handled(EventsOf(turn), ending)
    {
      hide Step, View, Valid;
      ghost var before, es := View(), EventsOf(turn);
      ending := Normal;
      match turn {
        case Pending(_, _, _, _) => ending := ProcessPending(turn);
        case Venue(ready, account, multiplier) =>
          UpdateVenueState(ready, account, multiplier);
          assert es[..0] == [] && Feed(config, before, es) == FedOne(config, Fed(before, Normal, []), es[0]);
        case Disable =>
          DisableVenueTrading();
          assert es[..0] == [] && Feed(config, before, es) == FedOne(config, Fed(before, Normal, []), es[0]);
      }
    }
  }

  /** One round of the engine thread, or a call of the venue thread. */
  datatype Turn =
    | Pending(responses: seq<Event>, updates: seq<Event>, decisions: seq<Event>, due: bool)
    | Venue(ready: bool, account: Account, multiplier: real)
    | Disable

  /** Each queue holds its own kind of events. */
  predicate Sorted(turn: Turn) {
    turn.Pending? ==>
      && (forall k: nat :: k < |turn.responses| ==> turn.responses[k].Answer?)
      && (forall k: nat :: k < |turn.updates| ==> turn.updates[k].Market?)
      && (forall k: nat :: k < |turn.decisions| ==> turn.decisions[k].Decide?)
  }

  function EventsOf(turn: Turn): seq<Event> {
    match turn
    case Pending(rs, us, ds, due) => rs + us + ds + [Schedule(due)]
    case Venue(ready, _, _) => [VenueState(ready)]
    case Disable => [VenueDisabled]
  }

  function AllEvents(turns: seq<Turn>): seq<Event> {
    if turns == [] then [] else AllEvents(turns[..|turns| - 1]) + EventsOf(turns[|turns| - 1])
  }

  /** A run that ends early has ended for good. */
  lemma {:induction false} EndingStays(c: Config, turns: seq<Turn>, k: nat)
    requires k <= |turns| && Feed(c, Start(c), AllEvents(turns[..k])).ending != Normal
    ensures Feed(c, Start(c), AllEvents(turns)) == Feed(c, Start(c), AllEvents(turns[..k]))
  {
    hide Feed, EventsOf;
    if k == |turns| {
      assert turns[..k] == turns;
    } else {
      var n := |turns| - 1;
      assert turns[..n][..k] == turns[..k];
      EndingStays(c, turns[..n], k);
      FeedAppend(c, Start(c), AllEvents(turns[..n]), EventsOf(turns[n]));
    }
  }

  /** A fresh engine through any turns of both threads, up to an exception: it is what handling all their events
      makes of it, and the requests sent are queued. With the simex constraints, a quantity that fits and a venue
      that plays by the rules there is no exception, and every position is safe. */
  method Trade(config: Config, turns: seq<Turn>) returns (engine: TradeEngine, ending: Ending)
    requires Configured(config) && forall turn :: turn in turns ==> Sorted(turn)
    ensures engine.Valid()
    ensures Feed(config, Start(config), AllEvents(turns)) == Fed(engine.View(), ending, engine.outgoing)
    ensures config.simex && QuantityFits(config) && AllowedRun(config, AllEvents(turns)) ==>
      ending == Normal && Safe(config, engine.View())
  {
    hide Step, TradeEngine.View, TradeEngine.Valid, Configured, QuantityFits;
    engine := new TradeEngine(config);
    ending := Normal;
    var i := 0;
    while i < |turns| && ending == Normal
      invariant i <= |turns| && engine.Valid() && fresh(engine.Repr) && engine.config == config
      invariant Feed(config, Start(config), AllEvents(turns[..i])) == Fed(engine.View(), ending, engine.outgoing)
    {
      assert turns[i] in turns && turns[..i + 1][..i] == turns[..i];
      FeedAppend(config, Start(config), AllEvents(turns[..i]), EventsOf(turns[i]));
      ending := engine.Round(turns[i]);
      i := i + 1;
    }
    if ending != Normal {
      EndingStays(config, turns, i);
    } else {
      assert turns[..i] == turns;
    }
    if config.simex && QuantityFits(config) && AllowedRun(config, AllEvents(turns)) {
      AllowedIsHandled(config, AllEvents(turns));
      RunIsSafe(config, AllEvents(turns));
    }
  }
}
