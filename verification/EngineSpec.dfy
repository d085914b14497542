/** What the engine's event handlers do, on values (src/trading/strategy/trade_engine.cpp). Each handler is one
    atomic step; the venue thread's mailbox updates are steps too. */
module EngineSpec {
  import opened Common
  import opened BookSpec
  import opened PositionKeeper
  import opened RiskManager
  import opened OrderManager

  datatype Bias = NO_BIAS | LONG | SHORT

  datatype Intent = NO_INTENT | OPENING | CLOSING | HOLD

  datatype Decision = Decision(id: nat, ticker: nat, bias: Bias, intent: Intent)

  /** What is set before the engine starts. */
  datatype Config = Config(limits: RiskLimits, quantity: Qty, simex: bool, single: bool, scheduled: Option<nat>)

  /** `enableSingleOrderVenue` turns the simex constraints on too; quantity and ticker checks of the setters. */
  predicate Configured(c: Config) {
    (c.single ==> c.simex) && 0 < c.quantity < QTY_INVALID && (c.scheduled.Some? ==> c.scheduled.value < TICKERS)
  }

  /** Everything the engine keeps for one ticker; `bbo` is the book's, `latest` the evaluation a decision must
      match, 0 for none. */
  datatype Ticker = Ticker(position: Position, slots: Slots, bbo: BBO, valid: bool, latest: nat)

  const NEW_TICKER: Ticker := Ticker(FLAT, Slots(NO_ORDER, NO_ORDER), NO_BBO, false, 0)

  type Tickers = ts: seq<Ticker> | |ts| == TICKERS witness seq(TICKERS, i => NEW_TICKER)

  datatype Engine = Engine(tickers: Tickers, nextOrderId: nat, nextEvaluationId: nat, ready: bool)

  function Start(c: Config): Engine {
    Engine(seq(TICKERS, i => NEW_TICKER), 1, 1, !c.single)
  }

  /** `features().valid_` after a market update. The remaining finiteness tests hold for all integers. */
  predicate FeaturesValid(bbo: BBO) {
    && bbo.bidPrice != PRICE_INVALID && bbo.askPrice != PRICE_INVALID
    && bbo.bidQty != QTY_INVALID && bbo.askQty != QTY_INVALID
    && 0 < bbo.bidPrice < bbo.askPrice && bbo.bidQty != 0 && bbo.askQty != 0
  }

  /** `Disagreement` is the exception of `handleClientResponse`; `Terminated` is `std::terminate`. */
  datatype Ending = Normal | Disagreement | Terminated

  // ----- responses -----------------------------------------------------------------------------------------

  /** The test after a fill under the simex constraints. */
  predicate Agrees(before: Position, f: Fill, after: Position) {
    var expected := before.position + SideToValue(f.side) * f.qty;
    after.position == expected && after.today.qty + after.yesterday.qty == Abs(expected)
  }

  /** `handleClientResponse` on the ticker: the position first, then, unless the test throws, the order. */
  function Answered(c: Config, k: Ticker, r: Response): (Ticker, Ending) {
    var p := if r.kind == FILLED then Filled(k.position, r.fill) else k.position;
    if r.kind == FILLED && c.simex && !Agrees(k.position, r.fill, p) then (k.(position := p), Disagreement)
    else (k.(position := p, slots := k.slots.Put(r.fill.side, Updated(k.slots.Get(r.fill.side), r))), Normal)
  }

  // ----- market data ---------------------------------------------------------------------------------------

  /** `handleMarketUpdate` with the BBO the book shows after the update. */
  function MarketUpdated(k: Ticker, bbo: BBO): Ticker {
    k.(position := Requoted(k.position, bbo), bbo := bbo, valid := FeaturesValid(bbo),
       latest := if FeaturesValid(bbo) then k.latest else 0)
  }

  // ----- decisions -----------------------------------------------------------------------------------------

  /** A ticker after a decision, the request sent if any, and the next order identifier. */
  datatype Acted = Acted(ticker: Ticker, request: Option<Request>, nextId: nat)

  function Apply(k: Ticker, side: Side, m: Moved): Acted {
    Acted(k.(slots := k.slots.Put(side, m.order)), m.request, m.nextId)
  }

  /** The simex guard: an open against the position, or against a working open on the other side. */
  predicate OppositeOpen(k: Ticker, side: Side) {
    var opposite := k.slots.Get(Opposite(side));
    || (k.position.position > 0 && side == SELL)
    || (k.position.position < 0 && side == BUY)
    || (Active(opposite) && opposite.offset == OPEN)
  }

  /** The best quote an order of this side would cross. */
  function CrossingPrice(bbo: BBO, side: Side): int { if side == BUY then bbo.askPrice else bbo.bidPrice }

  function ActOpen(c: Config, k: Ticker, t: nat, nextId: nat, side: Side): Acted {
    var price := CrossingPrice(k.bbo, side);
    if (c.simex && OppositeOpen(k, side)) || price == PRICE_INVALID then Acted(k, None, nextId)
    else Apply(k, side, MoveOrder(k.slots.Get(side), k.position, c.limits, nextId, t, price, side, c.quantity, OPEN))
  }

  function ActClose(c: Config, k: Ticker, t: nat, nextId: nat): Acted {
    var side := if k.position.position > 0 then SELL else BUY;
    var price := CrossingPrice(k.bbo, side);
    if k.position.position == 0 || price == PRICE_INVALID then Acted(k, None, nextId)
    else Apply(k, side, MoveCloseOrder(k.slots.Get(side), k.position, c.limits, nextId, t, price, side, c.quantity))
  }

  /** The decision is for the current evaluation of a ticker the engine may trade now. */
  predicate Admitted(c: Config, k: Ticker, ready: bool, d: Decision) {
    && (c.single ==> ready)
    && d.id != 0 && d.id == k.latest
    && k.valid
    && (c.single ==>
          !Active(k.slots.buy) && !Active(k.slots.sell) && (d.intent == OPENING ==> k.position.position == 0))
  }

  /** `handleJevDecision` on the ticker. Any bias but LONG opens on the sell side. */
  function Decided(c: Config, k: Ticker, ready: bool, t: nat, nextId: nat, d: Decision): Acted {
    if !Admitted(c, k, ready, d) then Acted(k, None, nextId)
    else
      match d.intent
      case OPENING => ActOpen(c, k, t, nextId, if d.bias == LONG then BUY else SELL)
      case CLOSING => ActClose(c, k, t, nextId)
      case _ => Acted(k, None, nextId)
  }

  // ----- steps and runs ------------------------------------------------------------------------------------

  /** `Schedule` carries whether the evaluation interval has passed. */
  datatype Event =
    | Answer(r: Response)
    | Market(t: nat, bbo: BBO)
    | Decide(d: Decision)
    | Schedule(due: bool)
    | VenueState(ready: bool)
    | VenueDisabled

  /** An engine after one step, the request it sent if any, and how the step ended. */
  datatype Result = Result(engine: Engine, request: Option<Request>, ending: Ending)

  function PutTicker(e: Engine, t: nat, k: Ticker): Engine
    requires t < TICKERS
  {
    e.(tickers := e.tickers[t := k])
  }

  /** `scheduleJevEvaluation` goes ahead. */
  predicate Schedules(c: Config, e: Engine, due: bool) {
    && (c.single ==> e.ready) && c.scheduled.Some? && due
    && c.scheduled.value < TICKERS && e.tickers[c.scheduled.value].valid
  }

  /** All evaluations forgotten. */
  function Forgotten(e: Engine): Engine {
    e.(tickers := seq(TICKERS, i requires 0 <= i < TICKERS => e.tickers[i].(latest := 0)))
  }

  function Step(c: Config, e: Engine, ev: Event): Result {
    match ev
    case Answer(r) =>
      if r.ticker >= TICKERS then Result(e, None, Normal)
      else
        var (k, ending) := Answered(c, e.tickers[r.ticker], r);
        Result(PutTicker(e, r.ticker, k), None, ending)
    case Market(t, bbo) =>
      if t >= TICKERS then Result(e, None, Terminated)
      else Result(PutTicker(e, t, MarketUpdated(e.tickers[t], bbo)), None, Normal)
    case Decide(d) =>
      if d.ticker >= TICKERS then Result(e, None, Normal)
      else
        var a := Decided(c, e.tickers[d.ticker], e.ready, d.ticker, e.nextOrderId, d);
        Result(PutTicker(e, d.ticker, a.ticker).(nextOrderId := a.nextId), a.request, Normal)
    case Schedule(due) =>
      if !Schedules(c, e, due) then Result(e, None, Normal)
      else
        var t := c.scheduled.value;
        var k := e.tickers[t].(latest := e.nextEvaluationId);
        Result(PutTicker(e, t, k).(nextEvaluationId := e.nextEvaluationId + 1), None, Normal)
    case VenueState(ready) => Result((if ready then e else Forgotten(e)).(ready := ready), None, Normal)
    case VenueDisabled => Result(Forgotten(e).(ready := false), None, Normal)
  }

  /** The engine after a run of events from its start. */
  function Run(c: Config, es: seq<Event>): Engine {
    if es == [] then Start(c) else Step(c, Run(c, es[..|es| - 1]), es[|es| - 1]).engine
  }

  /** An engine, how its last event ended, and the requests it has sent. */
  datatype Fed = Fed(engine: Engine, ending: Ending, sent: seq<Request>)

  /** Events handled in turn from any state until one does not end normally. */
  function Feed(c: Config, e: Engine, es: seq<Event>): Fed {
    if es == [] then Fed(e, Normal, []) else FedOne(c, Feed(c, e, es[..|es| - 1]), es[|es| - 1])
  }

  function FedOne(c: Config, before: Fed, ev: Event): Fed {
    if before.ending != Normal then before
    else
      var r := Step(c, before.engine, ev);
      Fed(r.engine, r.ending, before.sent + if r.request.Some? then [r.request.value] else [])
  }

  /** Draining one queue after another is handling all their events in that order. */
  lemma {:induction false} FeedAppend(c: Config, e: Engine, first: seq<Event>, second: seq<Event>)
    ensures Feed(c, e, first + second) ==
      var mid := Feed(c, e, first);
      if mid.ending != Normal then mid
      else var end := Feed(c, mid.engine, second); Fed(end.engine, end.ending, mid.sent + end.sent)
  {
    hide Step;
    if second == [] {
      assert first + second == first;
    } else {
      var rest := second[..|second| - 1];
      assert (first + second)[..|first + second| - 1] == first + rest;
      FeedAppend(c, e, first, rest);
    }
  }

  /** As long as every event ends normally, what is handled is the run. */
  lemma {:induction false} FeedIsRun(c: Config, es: seq<Event>)
    requires Feed(c, Start(c), es).ending == Normal
    ensures Feed(c, Start(c), es).engine == Run(c, es)
  {
    hide Step;
    if es != [] {
      FeedIsRun(c, es[..|es| - 1]);
    }
  }
}
