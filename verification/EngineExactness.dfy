/** Where the conditions of engine safety end: runs that lose it for a decision quantity beyond int32, and for an
    acceptance that comes late. */
module EngineExactness {
  import opened Common
  import opened BookSpec
  import opened PositionKeeper
  import opened RiskManager
  import opened OrderManager
  import opened EngineSpec
  import opened EngineSafety

  lemma RunOneMore(c: Config, es: seq<Event>, ev: Event)
    ensures Run(c, es + [ev]) == Step(c, Run(c, es), ev).engine
  {
    hide Step;
    assert (es + [ev])[..|es|] == es;
  }

  lemma StartOfRun(c: Config)
    ensures Run(c, []) == Start(c)
  {
  }

  lemma AllowedOneMore(c: Config, es: seq<Event>, ev: Event)
    requires AllowedRun(c, es) && Allowed(c, Run(c, es), ev)
    ensures AllowedRun(c, es + [ev])
  {
    hide Run, Allowed;
    forall k: nat | k < |es| + 1 ensures Allowed(c, Run(c, (es + [ev])[..k]), (es + [ev])[k]) {
      assert (es + [ev])[..k] == es[..k];
      assert es[..|es|] == es;
    }
  }

  // ----- an open decision ------------------------------------------------------------------------------------

  const QUOTE: BBO := BBO(10, 5, 11, 5)

  /** The venue is ready, and a quote and an evaluation of the scheduled ticker come. */
  function Preparation(t: nat): seq<Event> { [VenueState(true), Market(t, QUOTE), Schedule(true)] }

  function OpenLong(t: nat): Event { Decide(Decision(1, t, LONG, OPENING)) }

  /** Quoted, evaluated, flat and without orders. */
  predicate Awaiting(k: Ticker) {
    && k.slots == Slots(NO_ORDER, NO_ORDER) && k.valid && k.bbo == QUOTE && k.latest == 1
    && LotsMatch(k.position) && k.position.position == 0 && k.position.total == 0.0
  }

  lemma QuotedTicker()
    ensures var k := MarketUpdated(NEW_TICKER, QUOTE);
      && k.slots == Slots(NO_ORDER, NO_ORDER) && k.valid && k.bbo == QUOTE
      && LotsMatch(k.position) && k.position.position == 0 && k.position.total == 0.0
  {
  }

  /** The ticker is untouched, quoted, and then awaits a decision. */
  lemma PreparedSteps(c: Config, e: Engine, t: nat)
    requires Configured(c) && c.scheduled == Some(t) && e == Start(c)
    ensures t < TICKERS
    ensures var e1 := Step(c, e, VenueState(true)).engine;
      var e3 := Step(c, Step(c, e1, Market(t, QUOTE)).engine, Schedule(true)).engine;
      e3.ready && e3.nextOrderId == 1 && Awaiting(e3.tickers[t])
  {
    QuotedTicker();
    hide MarketUpdated, QUOTE;
    assert e.tickers[t] == NEW_TICKER;
    hide NEW_TICKER, Start;
    var e2 := Step(c, Step(c, e, VenueState(true)).engine, Market(t, QUOTE)).engine;
    assert e2.tickers[t] == MarketUpdated(NEW_TICKER, QUOTE);
  }

  lemma RunThree(c: Config, a: Event, b: Event, d: Event)
    ensures Run(c, [a, b, d]) == Step(c, Step(c, Step(c, Start(c), a).engine, b).engine, d).engine
  {
    hide Step, Start;
    StartOfRun(c);
    hide Run;
    RunOneMore(c, [], a);
    RunOneMore(c, [a], b);
    RunOneMore(c, [a, b], d);
    assert [] + [a] == [a] && [a] + [b] == [a, b] && [a, b] + [d] == [a, b, d];
  }

  lemma PreparationAllowed(c: Config, t: nat)
    requires t < TICKERS
    ensures AllowedRun(c, Preparation(t))
  {
    hide Run;
  }

  lemma Prepared(c: Config, t: nat)
    requires Configured(c) && c.scheduled == Some(t)
    ensures t < TICKERS && AllowedRun(c, Preparation(t))
    ensures var e := Run(c, Preparation(t)); e.ready && e.nextOrderId == 1 && Awaiting(e.tickers[t])
  {
    hide Run, Step, Start, Awaiting, QUOTE, AllowedRun;
    PreparedSteps(c, Start(c), t);
    PreparationAllowed(c, t);
    RunThree(c, VenueState(true), Market(t, QUOTE), Schedule(true));
  }

  /** From a flat position the open is sent as long as its quantity is not refused. */
  lemma Opens(c: Config, e: Engine, t: nat)
    requires Configured(c) && t < TICKERS && e.ready && e.nextOrderId == 1 && Awaiting(e.tickers[t])
    requires c.limits.maxOrderSize == QTY_INVALID || c.quantity <= c.limits.maxOrderSize
    requires c.limits.maxPosition == QTY_INVALID || Abs(Int32(c.quantity)) <= Int32(c.limits.maxPosition)
    ensures var e' := Step(c, e, OpenLong(t)).engine;
      && e'.nextOrderId == 2 && e'.ready
      && e'.tickers[t] == e.tickers[t].(slots := Slots(OMOrder(t, 1, BUY, 11, c.quantity, OPEN, PENDING_NEW), NO_ORDER))
  {
  }

  // ----- quantities beyond int32 -----------------------------------------------------------------------------

  lemma UnfitOpens(c: Config, t: nat)
    requires Configured(c) && !QuantityFits(c) && c.scheduled == Some(t)
    ensures t < TICKERS
    ensures var es := Preparation(t) + [OpenLong(t)]; var k := Run(c, es).tickers[t];
      && AllowedRun(c, es)
      && k.slots == Slots(OMOrder(t, 1, BUY, 11, c.quantity, OPEN, PENDING_NEW), NO_ORDER)
      && LotsMatch(k.position) && k.position.position == 0
  {
    Prepared(c, t);
    hide Run, AllowedRun, Preparation;
    Opens(c, Run(c, Preparation(t)), t);
    AllowedOneMore(c, Preparation(t), OpenLong(t));
    RunOneMore(c, Preparation(t), OpenLong(t));
    hide Step;
  }

  /** Under the simex constraints every allowed run is safe exactly when the decision quantity fits an int32 or
      no order is ever placed. */
  lemma SafetyExact(c: Config)
    requires Configured(c) && c.simex
    ensures (forall es :: AllowedRun(c, es) ==> Safe(c, Run(c, es))) <==> QuantityFits(c)
  {
    hide AllowedRun, Run, Configured;
    if QuantityFits(c) {
      forall es | AllowedRun(c, es) ensures Safe(c, Run(c, es)) {
        RunIsSafe(c, es);
      }
    } else {
      var t := c.scheduled.value;
      UnfitOpens(c, t);
      var es := Preparation(t) + [OpenLong(t)];
      assert !TickerSafe(c, Run(c, es).tickers[t]);
      assert AllowedRun(c, es) && !Safe(c, Run(c, es));
    }
  }

  /** Positions keep the limit, orders aside. */
  ghost predicate LimitKept(c: Config, e: Engine) {
    forall t: nat :: t < TICKERS ==> WithinLimit(c.limits, Abs(e.tickers[t].position.position))
  }

  /** An execution of one lot more than the limit. */
  function Overshoot(c: Config, t: nat): Event
    requires c.limits.maxPosition <= INT32_MAX && c.limits.maxPosition < c.quantity
  {
    var qty: Qty := c.limits.maxPosition + 1;
    Answer(Response(FILLED, t, 1, Fill(BUY, OPEN, 11, qty), c.quantity - qty))
  }

  lemma OvershootBreaks(c: Config, t: nat)
    requires Configured(c) && c.simex && !QuantityFits(c) && c.scheduled == Some(t)
    requires c.limits.maxPosition != QTY_INVALID
    ensures c.limits.maxPosition <= INT32_MAX && c.limits.maxPosition < c.quantity
    ensures var es := Preparation(t) + [OpenLong(t)] + [Overshoot(c, t)];
      AllowedRun(c, es) && !LimitKept(c, Run(c, es))
  {
    UnfitOpens(c, t);
    var es := Preparation(t) + [OpenLong(t)];
    hide Run, AllowedRun, Preparation;
    AllowedOneMore(c, es, Overshoot(c, t));
    RunOneMore(c, es, Overshoot(c, t));
    Overshot(c, Run(c, es), t);
    hide Step;
  }

  lemma Overshot(c: Config, e: Engine, t: nat)
    requires c.limits.maxPosition <= INT32_MAX && c.limits.maxPosition < c.quantity && t < TICKERS
    requires e.tickers[t].position.position == 0
    ensures Abs(Step(c, e, Overshoot(c, t)).engine.tickers[t].position.position) == c.limits.maxPosition + 1
  {
    var p, f := e.tickers[t].position, Overshoot(c, t).r.fill;
    MarkingKeeps(p.(today := Opened(p.today, f.qty, f.price),
                    position := p.position + SideToValue(f.side) * Int32(f.qty)));
    hide Marked, Opened, Updated, Agrees;
  }

  /** So is the position limit itself: executions the venue may send carry a position past it exactly otherwise. */
  lemma LimitExact(c: Config)
    requires Configured(c) && c.simex && c.limits.maxPosition != QTY_INVALID
    ensures (forall es :: AllowedRun(c, es) ==> LimitKept(c, Run(c, es))) <==> QuantityFits(c)
  {
    hide AllowedRun, Run, Configured;
    if QuantityFits(c) {
      forall es | AllowedRun(c, es) ensures LimitKept(c, Run(c, es)) {
        RunIsSafe(c, es);
        SafeKeepsLimit(c, Run(c, es));
      }
    } else {
      var t := c.scheduled.value;
      OvershootBreaks(c, t);
    }
  }

  lemma SafeKeepsLimit(c: Config, e: Engine)
    requires Safe(c, e)
    ensures LimitKept(c, e)
  {
  }

  // ----- a late acceptance -----------------------------------------------------------------------------------

  /** A simex configuration without limits, evaluating ticker 0. */
  const UNLIMITED: Config := Config(RiskLimits(QTY_INVALID, QTY_INVALID, 0.0), 1, true, false, Some(0))

  function BuyOrder(state: OrderState): OMOrder { OMOrder(0, 1, BUY, 11, 1, OPEN, state) }

  const SELL_ORDER: OMOrder := OMOrder(0, 2, SELL, 10, 1, OPEN, PENDING_NEW)

  /** An open that the venue cancels, and an open on the other side. */
  const CROSSED: seq<Event> := Preparation(0) + [OpenLong(0)] + [CANCELED_BY_VENUE] + [OPEN_SHORT]

  const CANCELED_BY_VENUE: Event := Answer(Response(CANCELED, 0, 1, Fill(BUY, OPEN, 11, 0), 1))

  const OPEN_SHORT: Event := Decide(Decision(1, 0, SHORT, OPENING))

  /** The cancelled order, accepted after all. */
  const LATE: Event := Answer(Response(ACCEPTED, 0, 1, Fill(BUY, OPEN, 11, 0), 1))

  /** What the run makes of ticker 0. */
  lemma CrossedRun()
    ensures AllowedRun(UNLIMITED, CROSSED)
    ensures var k := Run(UNLIMITED, CROSSED).tickers[0];
      k.slots == Slots(BuyOrder(DEAD), SELL_ORDER) && k.position.position == 0
  {
    var c, es3 := UNLIMITED, Preparation(0);
    Prepared(c, 0);
    hide Run, AllowedRun, Preparation, Filled;
    var es4 := es3 + [OpenLong(0)];
    Opens(c, Run(c, es3), 0);
    AllowedOneMore(c, es3, OpenLong(0));
    RunOneMore(c, es3, OpenLong(0));
    var es5 := es4 + [CANCELED_BY_VENUE];
    AllowedOneMore(c, es4, CANCELED_BY_VENUE);
    RunOneMore(c, es4, CANCELED_BY_VENUE);
    assert Run(c, es5).tickers[0] == Run(c, es3).tickers[0].(slots := Slots(BuyOrder(DEAD), NO_ORDER));
    AllowedOneMore(c, es5, OPEN_SHORT);
    RunOneMore(c, es5, OPEN_SHORT);
    assert Run(c, es5 + [OPEN_SHORT]).tickers[0] == Run(c, es3).tickers[0].(slots := Slots(BuyOrder(DEAD), SELL_ORDER));
  }

  /** An allowed run from the start, after which accepting the cancelled order breaks position safety: the
      condition on acceptances is needed. */
  lemma LateAcceptanceBreaksSafety()
    ensures AllowedRun(UNLIMITED, CROSSED) && Safe(UNLIMITED, Run(UNLIMITED, CROSSED))
    ensures !Safe(UNLIMITED, Run(UNLIMITED, CROSSED + [LATE]))
  {
    CrossedRun();
    hide Run, AllowedRun, CROSSED, Filled, Marked;
    RunIsSafe(UNLIMITED, CROSSED);
    RunOneMore(UNLIMITED, CROSSED, LATE);
    var k := Run(UNLIMITED, CROSSED).tickers[0];
    assert TickerSafe(UNLIMITED, k);
    AcceptanceExact(UNLIMITED, k, LATE.r);
    assert !TickerSafe(UNLIMITED, Run(UNLIMITED, CROSSED + [LATE]).tickers[0]);
  }
}
