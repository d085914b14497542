/** Mark-to-market conservation over whole runs of executions and quotes. */
module PositionConservation {
  import opened Common
  import opened BookSpec
  import opened PositionKeeper

  datatype Event = Execution(fill: Fill) | Quote(bbo: BBO)

  function Next(p: Position, e: Event): Position {
    match e
    case Execution(f) => Filled(p, f)
    case Quote(bbo) => Requoted(p, bbo)
  }

  function Run(es: seq<Event>): Position {
    if es == [] then FLAT else Next(Run(es[..|es| - 1]), es[|es| - 1])
  }

  function EventCash(e: Event): real {
    match e
    case Execution(f) => CashFlow(f)
    case Quote(_) => 0.0
  }

  /** The cash flow of a run. */
  function Cash(es: seq<Event>): real {
    if es == [] then 0.0 else Cash(es[..|es| - 1]) + EventCash(es[|es| - 1])
  }

  ghost predicate ProperRun(es: seq<Event>) {
    forall k: nat :: k < |es| && es[k].Execution? ==> Proper(Run(es[..k]), es[k].fill)
  }

  /** Every event ends by marking the position. */
  lemma NextIsMarked(p: Position, e: Event)
    requires e.Execution? ==> 0 < e.fill.qty < QTY_INVALID
    ensures Marked(Next(p, e)) == Next(p, e)
  {
    hide Unrealized, LotCost, Opened, Closed;
  }

  /** The books are right: lots, money, and the total when both quotes are there. */
  ghost predicate Balanced(p: Position, cash: real) {
    && LotsMatch(p) && Conserved(p, cash)
    && (Quoted(p) ==> p.total == cash + MarketValue(p.position, p.bbo.value))
  }

  lemma EventBalances(p: Position, e: Event, cash: real)
    requires LotsMatch(p) && Conserved(p, cash) && (e.Execution? ==> Proper(p, e.fill))
    ensures Balanced(Next(p, e), cash + EventCash(e))
  {
    hide Filled, Marked, LotCost, MarketValue, CashFlow;
    match e {
      case Execution(f) => FillConserves(p, f, cash);
      case Quote(bbo) => MarkingKeeps(p.(bbo := Some(bbo)));
    }
    NextIsMarked(p, e);
    if Quoted(Next(p, e)) { MarkedToMarket(Next(p, e), cash + EventCash(e)); }
  }

  lemma FlatIsBalanced()
    ensures LotsMatch(FLAT) && Conserved(FLAT, 0.0)
  {
    hide Cost;
  }

  lemma ProperPrefix(es: seq<Event>)
    requires es != [] && ProperRun(es)
    ensures ProperRun(es[..|es| - 1])
    ensures var e := es[|es| - 1]; e.Execution? ==> Proper(Run(es[..|es| - 1]), e.fill)
  {
    hide Run, Proper;
    var n := |es| - 1;
    forall k: nat | k < n && es[..n][k].Execution? ensures Proper(Run(es[..n][..k]), es[..n][k].fill) {
      assert es[..n][..k] == es[..k];
    }
  }

  /** Mark-to-market conservation over every run of proper executions and quotes: profit neither appears nor
      vanishes. */
  lemma {:induction false} RunConserves(es: seq<Event>)
    requires ProperRun(es)
    ensures LotsMatch(Run(es)) && Conserved(Run(es), Cash(es))
    ensures es != [] ==> Balanced(Run(es), Cash(es))
  {
    hide ProperRun, Proper, Next, EventCash, LotsMatch, Conserved, Quoted, MarketValue;
    if es == [] {
      FlatIsBalanced();
    } else {
      var prefix, e := es[..|es| - 1], es[|es| - 1];
      ProperPrefix(es);
      RunConserves(prefix);
      EventBalances(Run(prefix), e, Cash(prefix));
    }
  }
}
