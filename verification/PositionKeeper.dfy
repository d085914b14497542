/** Per-ticker positions by day lot (src/trading/strategy/position_keeper.h). Doubles are real numbers. */
module PositionKeeper {
  import opened Common
  import opened BookSpec

  datatype Offset = INVALID | OPEN | CLOSE | CLOSE_TODAY | CLOSE_YESTERDAY

  /** `PositionDayInfo`. */
  datatype Lot = Lot(qty: Qty, vwap: real)

  /** The execution part of a client response. */
  datatype Fill = Fill(side: Side, offset: Offset, price: int, qty: Qty)

  /** The values of a `PositionInfo`. */
  datatype Position = Position(position: int, today: Lot, yesterday: Lot,
                               realized: real, unrealized: real, total: real, bbo: Option<BBO>)

  const FLAT: Position := Position(0, Lot(0, 0.0), Lot(0, 0.0), 0.0, 0.0, 0.0, None)

  /** Conversion of a std::uint32_t to std::int32_t. */
  function Int32(q: Qty): int { if q <= INT32_MAX then q else q - U32_RANGE }

  function CloseableQty(p: Position, offset: Offset): Qty {
    match offset
    case CLOSE_TODAY => p.today.qty
    case CLOSE_YESTERDAY => p.yesterday.qty
    case CLOSE => AddU32(p.today.qty, p.yesterday.qty)
    case _ => 0
  }

  function CloseOffsetFor(p: Position, requested: Qty): Offset {
    if requested == 0 then INVALID
    else if p.yesterday.qty > 0 then CLOSE_YESTERDAY
    else if p.today.qty > 0 then CLOSE_TODAY
    else INVALID
  }

  /** `addOpen`: the volume-weighted average of the old and the new quantity. */
  function Opened(lot: Lot, qty: Qty, price: int): Lot {
    var n := AddU32(lot.qty, qty);
    Lot(n, if n == 0 then 0.0 else (lot.vwap * lot.qty as real + price as real * qty as real) / n as real)
  }

  /** What closing `amount` takes from a lot. */
  function Consumed(lot: Lot, amount: Qty): Qty { if lot.qty <= amount then lot.qty else amount }

  function Reduced(lot: Lot, amount: Qty): Lot {
    var left := lot.qty - Consumed(lot, amount);
    Lot(left, if left == 0 && Consumed(lot, amount) > 0 then 0.0 else lot.vwap)
  }

  /** The profit realised by the consumed quantity. */
  function Profit(lot: Lot, amount: Qty, price: int, side: Side): real {
    (if side == BUY then lot.vwap - price as real else price as real - lot.vwap) * Consumed(lot, amount) as real
  }

  /** `closePosition`: CLOSE consumes yesterday's lot first; returns the position and the closed quantity. */
  function Closed(p: Position, f: Fill): (Position, Qty) {
    var fromYesterday: Qty := if f.offset == CLOSE_TODAY then 0 else Consumed(p.yesterday, f.qty);
    var p1 := if f.offset == CLOSE_TODAY then p
              else p.(yesterday := Reduced(p.yesterday, f.qty),
                      realized := p.realized + Profit(p.yesterday, f.qty, f.price, f.side));
    var left: Qty := f.qty - fromYesterday;
    if f.offset == CLOSE_YESTERDAY then (p1, fromYesterday)
    else (p1.(today := Reduced(p1.today, left), realized := p1.realized + Profit(p1.today, left, f.price, f.side)),
          fromYesterday + Consumed(p1.today, left))
  }

  /** Both prices of the BBO are there. */
  predicate Quoted(p: Position) {
    p.bbo.Some? && p.bbo.value.bidPrice != PRICE_INVALID && p.bbo.value.askPrice != PRICE_INVALID
  }

  function Mid(bbo: BBO): real {
    (bbo.bidPrice as real + bbo.askPrice as real) / 2.0
  }

  function LotCost(lot: Lot): real { lot.vwap * lot.qty as real }

  function Cost(p: Position): real { LotCost(p.today) + LotCost(p.yesterday) }

  /** `recalculateUnrealizedPnl`: the distance of the average price from the mid price, times the size. */
  function Unrealized(position: int, cost: real, bbo: Option<BBO>): real {
    if position == 0 || bbo == None
       || bbo.value.bidPrice == PRICE_INVALID || bbo.value.askPrice == PRICE_INVALID then 0.0
    else
      var size := Abs(position) as real;
      if position > 0 then (Mid(bbo.value) - cost / size) * size else (cost / size - Mid(bbo.value)) * size
  }

  function Marked(p: Position): Position {
    var unrealized := Unrealized(p.position, Cost(p), p.bbo);
    p.(unrealized := unrealized, total := p.realized + unrealized)
  }

  /** `onFill`. */
  function Filled(p: Position, f: Fill): Position {
    if f.qty == 0 || f.qty == QTY_INVALID then p
    else if f.offset == OPEN then
      Marked(p.(today := Opened(p.today, f.qty, f.price), position := p.position + SideToValue(f.side) * Int32(f.qty)))
    else
      var (closed, qty) := Closed(p, f);
      Marked(closed.(position := p.position + SideToValue(f.side) * Int32(qty)))
  }

  /** `updateBBO`. */
  function Requoted(p: Position, bbo: BBO): Position { Marked(p.(bbo := Some(bbo))) }

  // ----- the class ---------------------------------------------------------------------------------------

  class PositionInfo {
    var position: int
    var today: Lot
    var yesterday: Lot
    var realized: real
    var unrealized: real
    var total: real
    var bbo: Option<BBO>

    function View(): Position
      reads this
    {
      Position(position, today, yesterday, realized, unrealized, total, bbo)
    }

    constructor ()
      ensures View() == FLAT
    {
      position, today, yesterday, bbo := 0, Lot(0, 0.0), Lot(0, 0.0), None;
      realized, unrealized, total := 0.0, 0.0, 0.0;
    }

    method OnFill(f: Fill)
      modifies this
      ensures View() == Filled(old(View()), f)
    {
      if f.qty == 0 || f.qty == QTY_INVALID {
        return;
      }
      if f.offset == OPEN {
        today := Opened(today, f.qty, f.price);
        position := position + SideToValue(f.side) * Int32(f.qty);
      } else {
        var closed := ClosePosition(f);
        position := position + SideToValue(f.side) * Int32(closed);
      }
      RecalculateUnrealizedPnl();
    }

    method ClosePosition(f: Fill) returns (closed: Qty)
      modifies this
      ensures (View(), closed) == Closed(old(View()), f)
    {
      hide Reduced, Profit;
      var remaining := f.qty;
      closed := 0;
      if f.offset != CLOSE_TODAY {
        var consumed := Consumed(yesterday, remaining);
        realized := realized + Profit(yesterday, remaining, f.price, f.side);
        yesterday := Reduced(yesterday, remaining);
        remaining, closed := remaining - consumed, consumed;
      }
      if f.offset != CLOSE_YESTERDAY {
        var consumed := Consumed(today, remaining);
        realized := realized + Profit(today, remaining, f.price, f.side);
        today := Reduced(today, remaining);
        closed := closed + consumed;
      }
    }

    method UpdateBBO(quote: BBO)
      modifies this
      ensures View() == Requoted(old(View()), quote)
    {
      bbo := Some(quote);
      RecalculateUnrealizedPnl();
    }

    method RecalculateUnrealizedPnl()
      modifies this`unrealized, this`total
      ensures View() == Marked(old(View()))
    {
      if position == 0 || bbo == None || bbo.value.bidPrice == PRICE_INVALID || bbo.value.askPrice == PRICE_INVALID {
        unrealized := 0.0;
      } else {
        var mid := (bbo.value.bidPrice as real + bbo.value.askPrice as real) / 2.0;
        var cost := today.vwap * today.qty as real + yesterday.vwap * yesterday.qty as real;
        var size := Abs(position) as real;
        var average := cost / size;
        unrealized := if position > 0 then (mid - average) * size else (average - mid) * size;
      }
      total := realized + unrealized;
    }
  }

  // ----- lot and money invariants ----------------------------------------------------------------------------

  /** The lots add up to the size of the position. */
  predicate LotsMatch(p: Position) {
    p.today.qty + p.yesterday.qty == Abs(p.position)
  }

  /** An amount counted in the direction of a position: positive when long, negative when short. */
  function Leaning(position: int, amount: real): real {
    if position > 0 then amount else if position < 0 then -amount else 0.0
  }

  function Notional(price: int, qty: Qty): real { price as real * qty as real }

  /** Realised profit is cash flow plus the signed cost of what is still held. */
  predicate Conserved(p: Position, cash: real) {
    p.realized == cash + Leaning(p.position, Cost(p))
  }

  /** The cash flow of an execution: buying pays, selling receives. */
  function CashFlow(f: Fill): real {
    if f.side == BUY then -Notional(f.price, f.qty) else Notional(f.price, f.qty)
  }

  /** A side against the direction of a position. */
  predicate Opposes(position: int, side: Side) {
    if side == BUY then position < 0 else position > 0
  }

  /** What a closing execution may consume. */
  function Available(p: Position, offset: Offset): nat {
    match offset
    case CLOSE_TODAY => p.today.qty
    case CLOSE_YESTERDAY => p.yesterday.qty
    case _ => p.today.qty + p.yesterday.qty
  }

  /** An execution with a quantity, and positions within 32-bit range. */
  predicate Sized(p: Position, f: Fill) {
    0 < f.qty < QTY_INVALID && Abs(p.position) + (if f.offset == OPEN then f.qty else 0) <= INT32_MAX
  }

  /** Opens never oppose the position; closes take its opposite side and are covered by their lots. */
  predicate Proper(p: Position, f: Fill) {
    && Sized(p, f)
    && (if f.offset == OPEN then !Opposes(p.position, f.side)
        else Opposes(p.position, f.side) && f.qty <= Available(p, f.offset))
  }

  /** Opening adds to the lots whatever the side, so the lots keep matching exactly when it does not oppose
      the position. */
  lemma OpenKeepsLotsExactly(p: Position, f: Fill)
    requires LotsMatch(p) && Sized(p, f) && f.offset == OPEN
    ensures LotsMatch(Filled(p, f)) <==> !Opposes(p.position, f.side)
  {
    hide Marked, Cost;
    MarkingKeeps(p.(today := Opened(p.today, f.qty, f.price),
                    position := p.position + SideToValue(f.side) * Int32(f.qty)));
    OpenedLot(p.today, f.qty, f.price);
  }

  /** Marking changes only the unrealised and the total profit. */
  lemma MarkingKeeps(p: Position)
    ensures var m := Marked(p);
      && m.position == p.position && m.today == p.today && m.yesterday == p.yesterday
      && m.realized == p.realized && m.bbo == p.bbo
  {
  }

  /** Dividing and multiplying back. */
  lemma Quotient(a: real, b: real)
    requires b != 0.0
    ensures a / b * b == a
  {
  }

  /** Opening adds the price paid to the cost of the lot. */
  lemma OpenedLot(lot: Lot, qty: Qty, price: int)
    requires lot.qty + qty < U32_RANGE && qty > 0
    ensures Opened(lot, qty, price).qty == lot.qty + qty
    ensures LotCost(Opened(lot, qty, price)) == LotCost(lot) + Notional(price, qty)
  {
    Quotient(lot.vwap * lot.qty as real + price as real * qty as real, (lot.qty + qty) as real);
  }

  /** Closing turns the cost of the consumed quantity into cash and profit. */
  lemma ReducedLot(lot: Lot, amount: Qty, price: int, side: Side)
    ensures var c := Consumed(lot, amount); var r := Reduced(lot, amount);
      && c == Min(lot.qty, amount)
      && r.qty == lot.qty - c
      && Profit(lot, amount, price, side)
           == if side == BUY then LotCost(lot) - LotCost(r) - Notional(price, c)
              else Notional(price, c) - (LotCost(lot) - LotCost(r))
  {
    var c, r := Consumed(lot, amount), Reduced(lot, amount);
    assert LotCost(r) == lot.vwap * (lot.qty - c) as real;
    assert (lot.qty - c) as real == lot.qty as real - c as real;
    assert lot.vwap * (lot.qty - c) as real == LotCost(lot) - lot.vwap * c as real;
    assert (lot.vwap - price as real) * c as real == lot.vwap * c as real - Notional(price, c);
    assert (price as real - lot.vwap) * c as real == Notional(price, c) - lot.vwap * c as real;
  }

  lemma NotionalSplits(price: int, a: Qty, b: Qty, both: Qty)
    requires both == a + b
    ensures Notional(price, both) == Notional(price, a) + Notional(price, b)
  {
    assert both as real == a as real + b as real;
  }

  lemma NothingPaid(price: int, qty: Qty)
    ensures Notional(price, qty) == 0.0 <==> qty == 0 || price == 0
  {
    assert qty as real != 0.0 && price as real != 0.0 ==> price as real * qty as real != 0.0;
  }

  /** What a close does to the lots, the cost and the realised profit, for its whole quantity or less. */
  lemma ClosedAccounts(p: Position, f: Fill)
    requires f.offset != OPEN && p.today.qty + p.yesterday.qty < U32_RANGE
    ensures var (q, closed) := Closed(p, f);
      && closed == Min(f.qty, Available(p, f.offset))
      && q.today.qty + q.yesterday.qty == p.today.qty + p.yesterday.qty - closed
      && q.position == p.position && q.bbo == p.bbo
      && q.realized - p.realized == (if f.side == BUY then Cost(p) - Cost(q) - Notional(f.price, closed)
                                     else Notional(f.price, closed) - (Cost(p) - Cost(q)))
  {
    var y: Qty := if f.offset == CLOSE_TODAY then 0 else Consumed(p.yesterday, f.qty);
    var left: Qty := f.qty - y;
    ReducedLot(p.yesterday, f.qty, f.price, f.side);
    ReducedLot(p.today, left, f.price, f.side);
    var t: Qty := if f.offset == CLOSE_YESTERDAY then 0 else Consumed(p.today, left);
    NotionalSplits(f.price, y, t, y + t);
    assert Notional(f.price, 0) == 0.0;
    hide Reduced, Profit, LotCost, Notional, Consumed;
    assert Closed(p, f).1 == y + t;
  }

  /** Empty lots cost nothing. */
  lemma NothingHeld(p: Position)
    requires p.today.qty == 0 && p.yesterday.qty == 0
    ensures Cost(p) == 0.0
  {
  }

  /** Closing on the opposite side keeps the money identity exactly when the lots cover the whole quantity,
      or nothing is paid. */
  lemma CloseConservesExactly(p: Position, f: Fill, cash: real)
    requires LotsMatch(p) && Conserved(p, cash) && Sized(p, f)
    requires f.offset != OPEN && Opposes(p.position, f.side)
    ensures LotsMatch(Filled(p, f))
    ensures Conserved(Filled(p, f), cash + CashFlow(f)) <==> f.qty <= Available(p, f.offset) || f.price == 0
  {
    hide Closed, Marked, Notional, LotCost;
    var (q, closed) := Closed(p, f);
    ClosedAccounts(p, f);
    var moved := q.(position := p.position + SideToValue(f.side) * Int32(closed));
    MarkingKeeps(moved);
    var short: Qty := f.qty - closed;
    NotionalSplits(f.price, closed, short, f.qty);
    NothingPaid(f.price, short);
    if q.today.qty == 0 && q.yesterday.qty == 0 { NothingHeld(q); }
    assert Cost(Filled(p, f)) == Cost(q);
  }

  /** Realised profit stays cash flow plus signed cost, and the lots stay matched, under proper executions. */
  lemma FillConserves(p: Position, f: Fill, cash: real)
    requires LotsMatch(p) && Conserved(p, cash) && Proper(p, f)
    ensures LotsMatch(Filled(p, f)) && Conserved(Filled(p, f), cash + CashFlow(f))
  {
    if f.offset == OPEN {
      OpenKeepsLotsExactly(p, f);
      OpenedLot(p.today, f.qty, f.price);
      MarkingKeeps(p.(today := Opened(p.today, f.qty, f.price),
                      position := p.position + SideToValue(f.side) * Int32(f.qty)));
      if p.position == 0 { NothingHeld(p); }
      hide Opened, Marked, Notional, LotCost;
    } else {
      CloseConservesExactly(p, f, cash);
    }
  }

  /** What the position is worth at the mid price. */
  function MarketValue(position: int, bbo: BBO): real { position as real * Mid(bbo) }

  /** With both quotes, total profit is cash flow plus the position at the mid price. */
  lemma MarkedToMarket(p: Position, cash: real)
    requires LotsMatch(p) && Conserved(p, cash) && Quoted(p)
    ensures Marked(p).total == cash + MarketValue(p.position, p.bbo.value)
  {
    var size, mid := Abs(p.position) as real, Mid(p.bbo.value);
    if p.position != 0 {
      Quotient(Cost(p), size);
      assert (mid - Cost(p) / size) * size == mid * size - Cost(p) / size * size;
      assert (Cost(p) / size - mid) * size == Cost(p) / size * size - mid * size;
    }
  }

  /** Without a position, or with a quote missing, nothing is unrealised and total profit is the realised one. */
  lemma UnquotedIsRealized(p: Position)
    requires p.position == 0 || !Quoted(p)
    ensures Marked(p).unrealized == 0.0 && Marked(p).total == p.realized
  {
  }

  /** What a proper execution does to the position and the lots. */
  lemma ProperMoves(p: Position, f: Fill)
    requires LotsMatch(p) && Proper(p, f)
    ensures var q := Filled(p, f);
      && q.position == p.position + SideToValue(f.side) * f.qty
      && LotsMatch(q)
      && (f.offset == OPEN ==> q.yesterday == p.yesterday && q.today.qty == p.today.qty + f.qty)
      && (f.offset != OPEN ==> Available(q, f.offset) == Available(p, f.offset) - f.qty)
  {
    hide Marked, Cost, LotCost;
    if f.offset == OPEN {
      OpenKeepsLotsExactly(p, f);
      MarkingKeeps(p.(today := Opened(p.today, f.qty, f.price),
                      position := p.position + SideToValue(f.side) * Int32(f.qty)));
      OpenedLot(p.today, f.qty, f.price);
    } else {
      var (q, closed) := Closed(p, f);
      ClosedAccounts(p, f);
      MarkingKeeps(q.(position := p.position + SideToValue(f.side) * Int32(closed)));
    }
  }
}
