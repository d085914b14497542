/** What executions do to lots, averages and realised profit, lot by lot and over whole runs. */
module PositionLaws {
  import opened Common
  import opened PositionKeeper
  import opened PositionConservation

  /** What a close takes from yesterday's lot, which comes first unless only today's may be closed. */
  function FromYesterday(p: Position, f: Fill): nat {
    if f.offset == CLOSE_TODAY then 0 else Min(p.yesterday.qty, f.qty)
  }

  /** What it takes from today's lot: what is still missing, unless only yesterday's may be closed. */
  function FromToday(p: Position, f: Fill): nat {
    if f.offset == CLOSE_YESTERDAY then 0 else Min(p.today.qty, f.qty - FromYesterday(p, f))
  }

  /** A lot without n of its units, at the same average while any are left. */
  predicate Less(lot: Lot, lot': Lot, n: nat) {
    && lot'.qty == lot.qty - n
    && (lot'.qty > 0 || n == 0 ==> lot'.vwap == lot.vwap)
    && (lot'.qty == 0 && n > 0 ==> lot'.vwap == 0.0)
  }

  /** What n units of a lot earn when closed at a price: a bought lot the rise, a sold one the fall. */
  function Earned(lot: Lot, n: nat, f: Fill): real {
    if f.side == SELL then n as real * (f.price as real - lot.vwap) else n as real * (lot.vwap - f.price as real)
  }

  lemma Consumes(lot: Lot, amount: Qty, f: Fill)
    ensures var n := Min(lot.qty, amount);
      Consumed(lot, amount) == n && Less(lot, Reduced(lot, amount), n)
      && Profit(lot, amount, f.price, f.side) == Earned(lot, n, f)
  {
  }

  lemma NothingEarned(lot: Lot, f: Fill)
    ensures Earned(lot, 0, f) == 0.0 && Less(lot, lot, 0)
  {
  }

  /** A close takes from the lots in their order, each unit earning its distance from the average of its lot. */
  lemma CloseExact(p: Position, f: Fill)
    requires 0 < f.qty < QTY_INVALID && f.offset != OPEN
    ensures var q, y, t := Filled(p, f), FromYesterday(p, f), FromToday(p, f);
      && Less(p.yesterday, q.yesterday, y) && Less(p.today, q.today, t)
      && q.realized == p.realized + Earned(p.yesterday, y, f) + Earned(p.today, t, f)
      && y + t <= f.qty && q.bbo == p.bbo
      && q.position == p.position + (if f.side == BUY then Int32(y + t) else -Int32(y + t))
  {
    hide Marked, Cost, LotCost, Consumed, Reduced, Profit, Earned, Less;
    var (q, closed) := Closed(p, f);
    Consumes(p.yesterday, f.qty, f);
    Consumes(p.today, f.qty - FromYesterday(p, f), f);
    NothingEarned(p.yesterday, f);
    NothingEarned(p.today, f);
    MarkingKeeps(q.(position := p.position + SideToValue(f.side) * Int32(closed)));
  }

  /** An open buys into today's lot, at the average of what all its units cost. */
  lemma OpenExact(p: Position, f: Fill)
    requires 0 < f.qty < QTY_INVALID && f.offset == OPEN && p.today.qty + f.qty < U32_RANGE
    ensures var q := Filled(p, f);
      && q.today.qty == p.today.qty + f.qty && q.yesterday == p.yesterday
      && q.today.vwap * q.today.qty as real == p.today.vwap * p.today.qty as real + f.price as real * f.qty as real
      && q.realized == p.realized && q.bbo == p.bbo
      && q.position == p.position + (if f.side == BUY then Int32(f.qty) else -Int32(f.qty))
  {
    hide Marked, Cost;
    MarkingKeeps(p.(today := Opened(p.today, f.qty, f.price),
                    position := p.position + SideToValue(f.side) * Int32(f.qty)));
    OpenedLot(p.today, f.qty, f.price);
    hide Opened;
  }

  // ----- whole runs ------------------------------------------------------------------------------------------

  /** Every open of the run is at a price from lo to hi. */
  ghost predicate OpensWithin(es: seq<Event>, lo: int, hi: int) {
    forall k: nat :: k < |es| ==> Within(es[k], lo, hi)
  }

  predicate Within(e: Event, lo: int, hi: int) {
    e.Execution? && e.fill.offset == OPEN ==> lo <= e.fill.price <= hi
  }

  /** The average of a lot that holds anything. */
  predicate AverageWithin(lot: Lot, lo: int, hi: int) { lot.qty > 0 ==> lo as real <= lot.vwap <= hi as real }

  lemma Scaled(a: real, b: real, k: real)
    requires k > 0.0
    ensures a < b ==> a * k < b * k
  {
  }

  /** An average of two numbers lies where both lie. */
  lemma BetweenBoth(a: real, b: real, c: real, m: real, n: real, lo: real, hi: real)
    requires m >= 0.0 && n > 0.0 && c * (m + n) == a * m + b * n
    requires lo <= b <= hi && (m > 0.0 ==> lo <= a <= hi)
    ensures lo <= c <= hi
  {
    assert m > 0.0 ==> lo * m <= a * m <= hi * m;
    assert lo * n <= b * n <= hi * n;
    assert lo * (m + n) <= c * (m + n) <= hi * (m + n);
    Scaled(c, lo, m + n);
    Scaled(hi, c, m + n);
  }

  lemma EventKeepsAverage(p: Position, e: Event, lo: int, hi: int)
    requires LotsMatch(p) && (e.Execution? ==> Proper(p, e.fill)) && Within(e, lo, hi)
    requires AverageWithin(p.today, lo, hi) && p.yesterday == Lot(0, 0.0)
    ensures AverageWithin(Next(p, e).today, lo, hi) && Next(p, e).yesterday == Lot(0, 0.0)
  {
    hide Filled, Marked, LotCost;
    match e {
      case Execution(f) =>
        if f.offset == OPEN {
          OpenExact(p, f);
          var q := Filled(p, f);
          BetweenBoth(p.today.vwap, f.price as real, q.today.vwap, p.today.qty as real, f.qty as real,
                      lo as real, hi as real);
        } else {
          CloseExact(p, f);
        }
      case Quote(bbo) => MarkingKeeps(p.(bbo := Some(bbo)));
    }
  }

  /** Over every run of proper executions the open position stands at an average of prices it was opened at: closing
      never moves it past them. */
  lemma {:induction false} RunAverage(es: seq<Event>, lo: int, hi: int)
    requires ProperRun(es) && OpensWithin(es, lo, hi)
    ensures AverageWithin(Run(es).today, lo, hi) && Run(es).yesterday == Lot(0, 0.0)
  {
    hide ProperRun, Proper, Next, LotsMatch, AverageWithin, Within;
    if es == [] {
      FlatAverage(lo, hi);
    } else {
      var prefix, e := es[..|es| - 1], es[|es| - 1];
      ProperPrefix(es);
      RunConserves(prefix);
      RunAverage(prefix, lo, hi);
      EventKeepsAverage(Run(prefix), e, lo, hi);
    }
  }

  lemma FlatAverage(lo: int, hi: int)
    ensures AverageWithin(FLAT.today, lo, hi)
  {
  }
}
