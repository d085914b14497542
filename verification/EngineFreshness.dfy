/** Decision freshness: which evaluation an order may act on, over every run of engine and venue-thread steps. */
module EngineFreshness {
  import opened Common
  import opened PositionKeeper
  import opened RiskManager
  import opened OrderManager
  import opened EngineSpec

  // ----- one step --------------------------------------------------------------------------------------------

  /** This step schedules an evaluation of the ticker. */
  predicate SchedulesFor(c: Config, e: Engine, ev: Event, t: nat) {
    ev.Schedule? && Schedules(c, e, ev.due) && c.scheduled == Some(t)
  }

  /** This step makes the ticker's features invalid, or takes the venue away. */
  predicate Loses(ev: Event, t: nat) {
    match ev
    case Market(u, bbo) => u == t && !FeaturesValid(bbo)
    case VenueState(ready) => !ready
    case VenueDisabled => true
    case _ => false
  }

  /** Orders may go out for the ticker as far as features and the venue are concerned. */
  predicate Tradable(c: Config, e: Engine, t: nat)
    requires t < TICKERS
  {
    e.tickers[t].valid && (c.single ==> e.ready)
  }

  /** The evaluation a decision must match: the scheduled one, none after a loss, otherwise as before. */
  lemma LatestAfter(c: Config, e: Engine, ev: Event, t: nat)
    requires t < TICKERS
    ensures Step(c, e, ev).engine.tickers[t].latest ==
      if SchedulesFor(c, e, ev, t) then e.nextEvaluationId else if Loses(ev, t) then 0 else e.tickers[t].latest
  {
    hide MoveOrder, MoveCloseOrder, Updated, Agrees, Filled, Requoted;
  }

  lemma TradableAfter(c: Config, e: Engine, ev: Event, t: nat)
    requires t < TICKERS
    ensures SchedulesFor(c, e, ev, t) ==> Tradable(c, Step(c, e, ev).engine, t)
    ensures Tradable(c, e, t) && !Loses(ev, t) ==> Tradable(c, Step(c, e, ev).engine, t)
  {
    hide MoveOrder, MoveCloseOrder, Updated, Agrees, Filled, Requoted;
  }

  lemma DecisionNumbers(c: Config, k: Ticker, ready: bool, t: nat, nextId: nat, d: Decision)
    ensures var a := Decided(c, k, ready, t, nextId, d); var asked := a.request.Some? && a.request.value.kind == NEW;
      a.nextId == nextId + (if asked then 1 else 0) && (asked ==> a.request.value.id == nextId)
  {
    hide CheckPreTradeRisk;
  }

  lemma NumbersAfter(c: Config, e: Engine, ev: Event)
    ensures Step(c, e, ev).engine.nextEvaluationId
              == e.nextEvaluationId + if ev.Schedule? && Schedules(c, e, ev.due) then 1 else 0
    ensures var r := Step(c, e, ev);
      r.engine.nextOrderId == e.nextOrderId + if r.request.Some? && r.request.value.kind == NEW then 1 else 0
    ensures var r := Step(c, e, ev);
      r.request.Some? && r.request.value.kind == NEW ==> r.request.value.id == e.nextOrderId
  {
    hide Decided, Answered, MarketUpdated;
    if ev.Decide? && ev.d.ticker < TICKERS {
      DecisionNumbers(c, e.tickers[ev.d.ticker], e.ready, ev.d.ticker, e.nextOrderId, ev.d);
    }
  }

  // ----- runs ------------------------------------------------------------------------------------------------

  /** Evaluation `id` of the ticker was scheduled by the j-th event. */
  predicate ScheduledAt(c: Config, es: seq<Event>, j: nat, t: nat, id: nat) {
    j < |es| && var e := Run(c, es[..j]); SchedulesFor(c, e, es[j], t) && e.nextEvaluationId == id
  }

  /** The i-th event schedules a newer evaluation of the ticker or loses features or venue. */
  predicate Interrupts(c: Config, es: seq<Event>, i: nat, t: nat)
    requires i < |es|
  {
    SchedulesFor(c, Run(c, es[..i]), es[i], t) || Loses(es[i], t)
  }

  /** Scheduled by the j-th event and not interrupted since. */
  ghost predicate FreshSince(c: Config, es: seq<Event>, j: nat, t: nat, id: nat) {
    ScheduledAt(c, es, j, t, id) && forall i: nat :: j < i < |es| ==> !Interrupts(c, es, i, t)
  }

  /** The first events of a run say the same about themselves in the shorter run. */
  lemma InPrefix(c: Config, es: seq<Event>, n: nat, j: nat, t: nat, id: nat)
    requires j < n <= |es|
    ensures ScheduledAt(c, es[..n], j, t, id) <==> ScheduledAt(c, es, j, t, id)
    ensures Interrupts(c, es[..n], j, t) <==> Interrupts(c, es, j, t)
  {
    assert es[..n][..j] == es[..j];
  }

  /** Freshness grows with a run one event at a time. */
  lemma FreshStep(c: Config, es: seq<Event>, j: nat, t: nat, id: nat)
    requires es != []
    ensures var n := |es| - 1;
      FreshSince(c, es, j, t, id) <==>
        if j == n then ScheduledAt(c, es, n, t, id) else FreshSince(c, es[..n], j, t, id) && !Interrupts(c, es, n, t)
  {
    hide Run, SchedulesFor, Loses;
    var n := |es| - 1;
    if j < n { InPrefix(c, es, n, j, t, id); }
    forall i: nat | i < n ensures Interrupts(c, es[..n], i, t) <==> Interrupts(c, es, i, t) {
      InPrefix(c, es, n, i, t, id);
    }
    hide Interrupts, ScheduledAt;
  }

  ghost predicate Fresh(c: Config, es: seq<Event>, t: nat, id: nat) {
    exists j: nat :: FreshSince(c, es, j, t, id)
  }

  lemma FreshGrows(c: Config, es: seq<Event>, t: nat, id: nat)
    requires es != []
    ensures var n := |es| - 1;
      Fresh(c, es, t, id) <==> ScheduledAt(c, es, n, t, id) || (!Interrupts(c, es, n, t) && Fresh(c, es[..n], t, id))
  {
    hide Run, SchedulesFor, Loses, Interrupts;
    var n := |es| - 1;
    if j: nat :| FreshSince(c, es, j, t, id) {
      FreshStep(c, es, j, t, id);
    }
    if ScheduledAt(c, es, n, t, id) {
      FreshStep(c, es, n, t, id);
    }
    if j: nat :| FreshSince(c, es[..n], j, t, id) {
      assert j < n;
      FreshStep(c, es, j, t, id);
    }
  }

  /** The identifier a decision must match is exactly the one scheduled last, unless something was lost since. */
  lemma {:induction false} LatestExactlyFresh(c: Config, es: seq<Event>, t: nat, id: nat)
    requires t < TICKERS && id > 0
    ensures Run(c, es).tickers[t].latest == id <==> Fresh(c, es, t, id)
  {
    if es == [] {
      assert Run(c, es).tickers[t] == NEW_TICKER;
    } else {
      hide Step, Loses, SchedulesFor, Fresh;
      var n := |es| - 1;
      LatestExactlyFresh(c, es[..n], t, id);
      LatestAfter(c, Run(c, es[..n]), es[n], t);
      FreshGrows(c, es, t, id);
    }
  }

  /** From a scheduling to the first interruption the ticker stays tradable. */
  lemma {:induction false} FreshStaysTradable(c: Config, es: seq<Event>, j: nat, i: nat, t: nat, id: nat)
    requires t < TICKERS && FreshSince(c, es, j, t, id) && j < i <= |es|
    ensures Tradable(c, Run(c, es[..i]), t)
  {
    hide Step, Loses, SchedulesFor, Tradable;
    assert es[..i][..i - 1] == es[..i - 1];
    TradableAfter(c, Run(c, es[..i - 1]), es[i - 1], t);
    if i > j + 1 {
      FreshStaysTradable(c, es, j, i - 1, t, id);
      assert !Interrupts(c, es, i - 1, t);
    }
  }

  /** A request goes out only for a decision whose evaluation was scheduled, has not been superseded for its
      ticker, and during which features (and the venue, when only one order may work) stayed good, even if
      quotes went bad and recovered. */
  lemma OrderOnlyForFreshDecision(c: Config, es: seq<Event>, d: Decision)
    requires Step(c, Run(c, es), Decide(d)).request.Some?
    ensures d.ticker < TICKERS && exists j: nat ::
      FreshSince(c, es, j, d.ticker, d.id) && forall i: nat :: j < i <= |es| ==> Tradable(c, Run(c, es[..i]), d.ticker)
  {
    LatestExactlyFresh(c, es, d.ticker, d.id);
    hide Run;
    assert Fresh(c, es, d.ticker, d.id);
    var j: nat :| FreshSince(c, es, j, d.ticker, d.id);
    forall i: nat | j < i <= |es| ensures Tradable(c, Run(c, es[..i]), d.ticker) {
      FreshStaysTradable(c, es, j, i, d.ticker, d.id);
    }
  }

  // ----- identifiers -----------------------------------------------------------------------------------------

  lemma {:induction false} NumbersGrow(c: Config, es: seq<Event>, i: nat, j: nat)
    requires i <= j <= |es|
    ensures Run(c, es[..i]).nextEvaluationId <= Run(c, es[..j]).nextEvaluationId
    ensures Run(c, es[..i]).nextOrderId <= Run(c, es[..j]).nextOrderId
  {
    hide Step, Schedules;
    if i < j {
      NumbersGrow(c, es, i, j - 1);
      assert es[..j][..j - 1] == es[..j - 1];
      NumbersAfter(c, Run(c, es[..j - 1]), es[j - 1]);
    }
  }

  /** The new-order request the j-th event sent, if any. */
  function NewOrderAt(c: Config, es: seq<Event>, j: nat): Option<Request>
    requires j < |es|
  {
    var r := Step(c, Run(c, es[..j]), es[j]).request;
    if r.Some? && r.value.kind == NEW then r else None
  }

  /** Evaluation and order identifiers are never used twice. */
  lemma IdentifiersIncrease(c: Config, es: seq<Event>, i: nat, j: nat, t: nat, a: nat, u: nat, b: nat)
    requires i < j < |es|
    ensures ScheduledAt(c, es, i, t, a) && ScheduledAt(c, es, j, u, b) ==> a < b
    ensures var first, second := NewOrderAt(c, es, i), NewOrderAt(c, es, j);
      first.Some? && second.Some? ==> first.value.id < second.value.id
  {
    assert es[..i + 1][..i] == es[..i];
    NumbersAfter(c, Run(c, es[..i]), es[i]);
    NumbersAfter(c, Run(c, es[..j]), es[j]);
    NumbersGrow(c, es, i + 1, j);
    hide Step, Schedules;
  }
}
