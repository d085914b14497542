/** The engine's profit accounts: whatever decisions, quotes and allowed executions a run brings, no money
    appears or vanishes. */
module EngineConservation {
  import opened Common
  import opened PositionKeeper
  import opened OrderManager
  import opened EngineSpec
  import opened EngineSafety
  import PositionConservation

  /** What an event pays or receives for a ticker. */
  function EventCash(t: nat, ev: Event): real {
    if ev.Answer? && ev.r.ticker == t && ev.r.kind == FILLED then CashFlow(ev.r.fill) else 0.0
  }

  function Cash(t: nat, es: seq<Event>): real {
    if es == [] then 0.0 else Cash(t, es[..|es| - 1]) + EventCash(t, es[|es| - 1])
  }

  /** One step does to a position nothing, a requote, or an execution. */
  lemma StepMoves(c: Config, e: Engine, ev: Event, t: nat)
    requires t < TICKERS
    ensures Step(c, e, ev).engine.tickers[t].position ==
      var p := e.tickers[t].position;
      if ev.Answer? && ev.r.ticker == t && ev.r.kind == FILLED then Filled(p, ev.r.fill)
      else if ev.Market? && ev.t == t then Requoted(p, ev.bbo)
      else p
  {
    hide Filled, Requoted, MoveOrder, MoveCloseOrder, Updated, Agrees;
  }

  lemma StepBalances(c: Config, e: Engine, ev: Event, t: nat, cash: real)
    requires Configured(c) && c.simex && Safe(c, e) && Allowed(c, e, ev) && t < TICKERS
    requires PositionConservation.Balanced(e.tickers[t].position, cash)
    ensures PositionConservation.Balanced(Step(c, e, ev).engine.tickers[t].position, cash + EventCash(t, ev))
  {
    var k := e.tickers[t];
    assert TickerSafe(c, k);
    StepMoves(c, e, ev, t);
    hide Step, TickerSafe, CashFlow, VenueAllows, Filled, Requoted, Proper;
    if ev.Answer? && ev.r.ticker == t && ev.r.kind == FILLED {
      AllowedFillIsProper(c, k, ev.r);
      PositionConservation.EventBalances(k.position, PositionConservation.Execution(ev.r.fill), cash);
    } else if ev.Market? && ev.t == t {
      PositionConservation.EventBalances(k.position, PositionConservation.Quote(ev.bbo), cash);
    }
  }

  /** In every run: realised profit is cash flow plus the signed cost of what is held, and with both quotes total
      profit is cash flow plus the position at the mid price. */
  lemma {:induction false} RunBalances(c: Config, es: seq<Event>, t: nat)
    requires Configured(c) && c.simex && QuantityFits(c) && AllowedRun(c, es) && t < TICKERS
    ensures PositionConservation.Balanced(Run(c, es).tickers[t].position, Cash(t, es))
  {
    if es == [] {
      PositionConservation.FlatIsBalanced();
      hide Conserved, LotsMatch;
    } else {
      hide Step, Allowed, Safe, AllowedRun, EventCash, PositionConservation.Balanced, QuantityFits;
      var before := es[..|es| - 1];
      AllowedPrefix(c, es);
      RunIsSafe(c, before);
      RunBalances(c, before, t);
      StepBalances(c, Run(c, before), es[|es| - 1], t, Cash(t, before));
    }
  }
}
