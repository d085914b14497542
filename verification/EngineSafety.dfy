/** Position safety of the engine under the simex constraints: over every run driven by decisions and by a venue
    that fills only what an active order still asks for. */
module EngineSafety {
  import opened Common
  import opened BookSpec
  import opened PositionKeeper
  import opened RiskManager
  import opened OrderManager
  import opened EngineSpec

  // ----- the invariant of one ticker -------------------------------------------------------------------------

  /** An active order asks for something; an open does not oppose the position, a close does and is covered by
      the lots it names. */
  predicate SlotSafe(p: Position, side: Side, o: OMOrder) {
    Active(o) ==>
      && 0 < o.qty <= INT32_MAX
      && (if o.offset == OPEN then !Opposes(p.position, side)
          else Opposes(p.position, side) && o.qty <= Available(p, o.offset))
  }

  /** What an order may still open. */
  function OpenQty(o: OMOrder): nat { if Active(o) && o.offset == OPEN then o.qty else 0 }

  /** The position if every working open were filled, by size. */
  function Reserved(p: Position, s: Slots): nat { Abs(p.position) + OpenQty(s.buy) + OpenQty(s.sell) }

  /** A limit beyond int32 turns negative and refuses every open. */
  predicate WithinLimit(limits: RiskLimits, size: nat) {
    limits.maxPosition != QTY_INVALID ==> size <= Max(0, Int32(limits.maxPosition))
  }

  predicate PositionSafe(c: Config, p: Position, s: Slots) {
    && LotsMatch(p) && Abs(p.position) <= INT32_MAX
    && SlotSafe(p, BUY, s.buy) && SlotSafe(p, SELL, s.sell)
    && (OpenQty(s.buy) == 0 || OpenQty(s.sell) == 0)
    && WithinLimit(c.limits, Reserved(p, s))
  }

  predicate TickerSafe(c: Config, k: Ticker) { PositionSafe(c, k.position, k.slots) }

  /** A finished order that may safely come back to life: it asks for something; an open does not oppose the
      position, meets no open on the other side and keeps the limit; a close is covered. */
  predicate Revivable(c: Config, k: Ticker, side: Side) {
    var o := k.slots.Get(side);
    && 0 < o.qty <= INT32_MAX
    && (if o.offset == OPEN then
          && !Opposes(k.position.position, side) && OpenQty(k.slots.Get(Opposite(side))) == 0
          && WithinLimit(c.limits, Abs(k.position.position) + o.qty)
        else Opposes(k.position.position, side) && o.qty <= Available(k.position, o.offset))
  }

  /** The venue's side: it fills an active order, by no more than it asks for, and accepts no finished one that
      may not come back to life. Without a position limit, positions are assumed to stay within int32. */
  predicate VenueAllows(c: Config, k: Ticker, r: Response) {
    var o := k.slots.Get(r.fill.side);
    match r.kind
    case FILLED =>
      && o.id == r.id && Active(o) && o.offset == r.fill.offset
      && 0 < r.fill.qty <= o.qty && r.leaves == o.qty - r.fill.qty
      && (c.limits.maxPosition == QTY_INVALID && o.offset == OPEN ==>
            Abs(k.position.position) + r.fill.qty <= INT32_MAX)
    case ACCEPTED => o.id == r.id ==> Active(o) || Revivable(c, k, r.fill.side)
    case _ => true
  }

  // ----- the test after a fill -------------------------------------------------------------------------------

  /** The exception after a fill is thrown exactly for improper executions: opens against the position, and
      closes that do not oppose it or exceed their lots. */
  lemma DisagreesExactlyWhenImproper(p: Position, f: Fill)
    requires LotsMatch(p) && Sized(p, f)
    ensures Agrees(p, f, Filled(p, f)) <==> Proper(p, f)
  {
    hide Marked, Cost, LotCost;
    if Proper(p, f) {
      ProperMoves(p, f);
    } else if f.offset == OPEN {
      OpenedLot(p.today, f.qty, f.price);
      MarkingKeeps(p.(today := Opened(p.today, f.qty, f.price),
                      position := p.position + SideToValue(f.side) * Int32(f.qty)));
    } else {
      var (q, closed) := Closed(p, f);
      ClosedAccounts(p, f);
      hide Closed;
      MarkingKeeps(q.(position := p.position + SideToValue(f.side) * Int32(closed)));
    }
  }

  // ----- one step --------------------------------------------------------------------------------------------

  lemma AllowedFillIsProper(c: Config, k: Ticker, r: Response)
    requires TickerSafe(c, k) && r.kind == FILLED && VenueAllows(c, k, r)
    ensures Proper(k.position, r.fill)
  {
  }

  /** An order after an execution that leaves `leaves`. */
  function Executed(o: OMOrder, leaves: Qty): OMOrder {
    o.(qty := leaves, state := if leaves == 0 then DEAD else o.state)
  }

  /** An execution of an open trades what is reserved for position. */
  lemma OpenFillIsSafe(c: Config, p: Position, s: Slots, side: Side, leaves: Qty, q: Position)
    requires PositionSafe(c, p, s)
    requires var o := s.Get(side);
      && Active(o) && o.offset == OPEN && leaves < o.qty && Abs(p.position) + o.qty - leaves <= INT32_MAX
      && q.position == p.position + SideToValue(side) * (o.qty - leaves)
    requires LotsMatch(q) && q.yesterday == p.yesterday && q.today.qty == p.today.qty + s.Get(side).qty - leaves
    ensures PositionSafe(c, q, s.Put(side, Executed(s.Get(side), leaves)))
  {
  }

  /** An execution of a close takes off what covers it, and nothing else is covered by that. */
  lemma CloseFillIsSafe(c: Config, p: Position, s: Slots, side: Side, leaves: Qty, q: Position)
    requires PositionSafe(c, p, s)
    requires var o := s.Get(side);
      && Active(o) && o.offset != OPEN && leaves < o.qty
      && q.position == p.position + SideToValue(side) * (o.qty - leaves)
    requires var o := s.Get(side);
      LotsMatch(q) && Available(q, o.offset) == Available(p, o.offset) - (o.qty - leaves)
    ensures PositionSafe(c, q, s.Put(side, Executed(s.Get(side), leaves)))
  {
  }

  /** An allowed execution keeps the ticker safe. */
  lemma FillIsSafe(c: Config, p: Position, s: Slots, r: Response, q: Position)
    requires PositionSafe(c, p, s) && r.kind == FILLED
    requires var o := s.Get(r.fill.side);
      o.id == r.id && Active(o) && o.offset == r.fill.offset && r.leaves == o.qty - r.fill.qty
    requires Proper(p, r.fill) && Sized(p, r.fill) && q == Filled(p, r.fill)
    ensures PositionSafe(c, q, s.Put(r.fill.side, Updated(s.Get(r.fill.side), r)))
  {
    assert LotsMatch(p) && Updated(s.Get(r.fill.side), r) == Executed(s.Get(r.fill.side), r.leaves);
    hide Filled, PositionSafe, Updated;
    ProperMoves(p, r.fill);
    if r.fill.offset == OPEN {
      OpenFillIsSafe(c, p, s, r.fill.side, r.leaves, q);
    } else {
      CloseFillIsSafe(c, p, s, r.fill.side, r.leaves, q);
    }
  }

  /** A response the venue may give keeps the ticker safe, and the test after a fill never throws. */
  lemma AnswerIsSafe(c: Config, k: Ticker, r: Response)
    requires c.simex && TickerSafe(c, k) && VenueAllows(c, k, r)
    ensures var (k', ending) := Answered(c, k, r); TickerSafe(c, k') && ending == Normal
  {
    if r.kind == FILLED {
      AllowedFillIsProper(c, k, r);
      DisagreesExactlyWhenImproper(k.position, r.fill);
      FillIsSafe(c, k.position, k.slots, r, Filled(k.position, r.fill));
      hide Filled, PositionSafe, Proper, Updated, LotsMatch, Agrees;
    }
  }

  /** An acceptance keeps a ticker safe exactly when it is about another order, about an active one, or revives
      one that may come back to life. */
  lemma AcceptanceExact(c: Config, k: Ticker, r: Response)
    requires TickerSafe(c, k) && r.kind == ACCEPTED
    ensures TickerSafe(c, Answered(c, k, r).0) <==>
      var o := k.slots.Get(r.fill.side); o.id != r.id || Active(o) || Revivable(c, k, r.fill.side)
  {
    hide Filled, Marked;
  }

  /** Market data changes no position and no order. */
  lemma QuoteIsSafe(c: Config, k: Ticker, bbo: BBO)
    requires TickerSafe(c, k)
    ensures TickerSafe(c, MarketUpdated(k, bbo))
  {
    MarkingKeeps(k.position.(bbo := Some(bbo)));
    hide Marked;
  }

  lemma OpenIsSafe(c: Config, k: Ticker, t: nat, nextId: nat, side: Side)
    requires Configured(c) && c.simex && c.quantity <= INT32_MAX && TickerSafe(c, k)
    ensures TickerSafe(c, ActOpen(c, k, t, nextId, side).ticker)
  {
  }

  lemma PendingIsSafe(c: Config, p: Position, s: Slots, side: Side)
    requires PositionSafe(c, p, s) && Active(s.Get(side))
    ensures PositionSafe(c, p, s.Put(side, s.Get(side).(state := PENDING_CANCEL)))
  {
  }

  /** A close that its lot covers may be placed. */
  lemma CoveredIsSafe(c: Config, p: Position, s: Slots, side: Side, o: OMOrder)
    requires PositionSafe(c, p, s) && !Active(s.Get(side)) && Opposes(p.position, side)
    requires o.offset != OPEN && 0 < o.qty <= INT32_MAX && o.qty <= Available(p, o.offset)
    ensures PositionSafe(c, p, s.Put(side, o))
  {
  }

  /** What a close decision may do to the slot. */
  lemma ClosePlaces(o: OMOrder, p: Position, limits: RiskLimits, nextId: nat, t: int, price: int, side: Side, qty: Qty)
    ensures var o' := MoveCloseOrder(o, p, limits, nextId, t, price, side, qty).order;
      || o' == o
      || (Active(o) && o' == o.(state := PENDING_CANCEL))
      || (!Active(o) && o'.offset != OPEN && 0 < o'.qty <= qty && o'.qty <= Available(p, o'.offset))
  {
    var offset := CloseOffsetFor(p, qty);
    var amount: Qty := Min(qty, CloseableQty(p, offset));
    if offset != OPEN && CheckPreTradeRisk(p, limits, side, offset, amount) == ALLOWED {
      AllowedCloseIsCovered(p, limits, side, offset, amount);
    }
    hide CheckPreTradeRisk;
  }

  lemma CloseIsSafe(c: Config, k: Ticker, t: nat, nextId: nat)
    requires Configured(c) && c.simex && c.quantity <= INT32_MAX && TickerSafe(c, k)
    ensures TickerSafe(c, ActClose(c, k, t, nextId).ticker)
  {
    var side := if k.position.position > 0 then SELL else BUY;
    var o, price := k.slots.Get(side), CrossingPrice(k.bbo, side);
    hide PositionSafe, MoveCloseOrder, CrossingPrice;
    ClosePlaces(o, k.position, c.limits, nextId, t, price, side, c.quantity);
    var o' := MoveCloseOrder(o, k.position, c.limits, nextId, t, price, side, c.quantity).order;
    if k.position.position != 0 && o' != o {
      if Active(o) {
        PendingIsSafe(c, k.position, k.slots, side);
      } else {
        CoveredIsSafe(c, k.position, k.slots, side, o');
      }
    }
  }

  /** Any decision, current or not, leaves the ticker safe. */
  lemma DecisionIsSafe(c: Config, k: Ticker, ready: bool, t: nat, nextId: nat, d: Decision)
    requires Configured(c) && c.simex && c.quantity <= INT32_MAX && TickerSafe(c, k)
    ensures TickerSafe(c, Decided(c, k, ready, t, nextId, d).ticker)
  {
    OpenIsSafe(c, k, t, nextId, if d.bias == LONG then BUY else SELL);
    CloseIsSafe(c, k, t, nextId);
    hide TickerSafe, ActOpen, ActClose;
  }

  // ----- the whole engine ------------------------------------------------------------------------------------

  ghost predicate Safe(c: Config, e: Engine) {
    forall t: nat :: t < TICKERS ==> TickerSafe(c, e.tickers[t])
  }

  /** The environment's side of one step. */
  predicate Allowed(c: Config, e: Engine, ev: Event) {
    match ev
    case Answer(r) => r.ticker < TICKERS ==> VenueAllows(c, e.tickers[r.ticker], r)
    case Market(t, _) => t < TICKERS
    case _ => true
  }

  lemma StepIsSafe(c: Config, e: Engine, ev: Event)
    requires Configured(c) && c.simex && c.quantity <= INT32_MAX && Safe(c, e) && Allowed(c, e, ev)
    ensures Safe(c, Step(c, e, ev).engine) && Step(c, e, ev).ending == Normal
  {
    match ev {
      case Answer(r) => if r.ticker < TICKERS { AnswerIsSafe(c, e.tickers[r.ticker], r); }
      case Market(t, bbo) => QuoteIsSafe(c, e.tickers[t], bbo);
      case Decide(d) =>
        if d.ticker < TICKERS { DecisionIsSafe(c, e.tickers[d.ticker], e.ready, d.ticker, e.nextOrderId, d); }
      case _ =>
    }
    hide PositionSafe, Answered, MarketUpdated, Decided, VenueAllows;
  }

  // ----- quantities beyond int32 -----------------------------------------------------------------------------

  /** No order is ever placed: nothing is evaluated, or a quantity beyond int32 is refused from a flat position. */
  predicate NeverPlaces(c: Config) {
    || c.scheduled == None
    || (c.limits.maxOrderSize != QTY_INVALID && c.quantity > c.limits.maxOrderSize)
    || (c.limits.maxPosition != QTY_INVALID && U32_RANGE - c.quantity > Int32(c.limits.maxPosition))
  }

  /** The decision quantity cannot get past the signed conversion in the position limit. */
  predicate QuantityFits(c: Config) { c.quantity <= INT32_MAX || NeverPlaces(c) }

  /** A slot no order was ever placed in; a response may still have marked it dead. */
  predicate Unused(o: OMOrder) { !Active(o) && o.qty > INT32_MAX }

  predicate TickerIdle(c: Config, k: Ticker) {
    && k.position.position == 0 && k.position.today.qty == 0 && k.position.yesterday.qty == 0
    && Unused(k.slots.buy) && Unused(k.slots.sell)
    && (c.scheduled == None ==> k.latest == 0)
  }

  ghost predicate Idle(c: Config, e: Engine) {
    forall t: nat :: t < TICKERS ==> TickerIdle(c, e.tickers[t])
  }

  lemma AnswerIsIdle(c: Config, k: Ticker, r: Response)
    requires TickerIdle(c, k) && VenueAllows(c, k, r)
    ensures var (k', ending) := Answered(c, k, r); TickerIdle(c, k') && ending == Normal
  {
    hide Filled;
  }

  lemma QuoteIsIdle(c: Config, k: Ticker, bbo: BBO)
    requires TickerIdle(c, k)
    ensures TickerIdle(c, MarketUpdated(k, bbo))
  {
    MarkingKeeps(k.position.(bbo := Some(bbo)));
    hide Marked;
  }

  /** From a flat position every decision is refused. */
  lemma DecisionIsIdle(c: Config, k: Ticker, ready: bool, t: nat, nextId: nat, d: Decision)
    requires Configured(c) && c.quantity > INT32_MAX && NeverPlaces(c) && TickerIdle(c, k)
    ensures Decided(c, k, ready, t, nextId, d).ticker == k
  {
  }

  lemma StepIsIdle(c: Config, e: Engine, ev: Event)
    requires Configured(c) && c.quantity > INT32_MAX && NeverPlaces(c) && Idle(c, e) && Allowed(c, e, ev)
    ensures Idle(c, Step(c, e, ev).engine) && Step(c, e, ev).ending == Normal
  {
    match ev {
      case Answer(r) => if r.ticker < TICKERS { AnswerIsIdle(c, e.tickers[r.ticker], r); }
      case Market(t, bbo) => QuoteIsIdle(c, e.tickers[t], bbo);
      case Decide(d) =>
        if d.ticker < TICKERS { DecisionIsIdle(c, e.tickers[d.ticker], e.ready, d.ticker, e.nextOrderId, d); }
      case _ =>
    }
    hide Unused, Answered, MarketUpdated, Decided, VenueAllows;
  }

  // ----- runs ------------------------------------------------------------------------------------------------

  /** What every step keeps. */
  ghost predicate Kept(c: Config, e: Engine) {
    if c.quantity <= INT32_MAX then Safe(c, e) else Idle(c, e)
  }

  lemma KeptIsSafe(c: Config, e: Engine)
    requires Kept(c, e)
    ensures Safe(c, e)
  {
  }

  lemma StepKeeps(c: Config, e: Engine, ev: Event)
    requires Configured(c) && c.simex && QuantityFits(c) && Kept(c, e) && Allowed(c, e, ev)
    ensures Kept(c, Step(c, e, ev).engine) && Step(c, e, ev).ending == Normal
  {
    hide Safe, Idle, Step, Allowed, NeverPlaces, Configured;
    if c.quantity <= INT32_MAX { StepIsSafe(c, e, ev); } else { StepIsIdle(c, e, ev); }
  }

  lemma StartIsKept(c: Config)
    ensures Kept(c, Start(c))
  {
    hide Marked, Cost;
  }

  ghost predicate AllowedRun(c: Config, es: seq<Event>) {
    forall k: nat :: k < |es| ==> Allowed(c, Run(c, es[..k]), es[k])
  }

  lemma AllowedPrefix(c: Config, es: seq<Event>)
    requires es != [] && AllowedRun(c, es)
    ensures AllowedRun(c, es[..|es| - 1]) && Allowed(c, Run(c, es[..|es| - 1]), es[|es| - 1])
  {
    hide Run, Allowed;
    var n := |es| - 1;
    forall k: nat | k < n ensures Allowed(c, Run(c, es[..n][..k]), es[..n][k]) {
      assert es[..n][..k] == es[..k];
    }
  }

  lemma {:induction false} RunKeeps(c: Config, es: seq<Event>)
    requires Configured(c) && c.simex && QuantityFits(c) && AllowedRun(c, es)
    ensures Kept(c, Run(c, es))
    ensures es != [] ==> Step(c, Run(c, es[..|es| - 1]), es[|es| - 1]).ending == Normal
  {
    hide Step, Allowed, Kept, AllowedRun, QuantityFits, Configured;
    if es == [] {
      StartIsKept(c);
    } else {
      AllowedPrefix(c, es);
      RunKeeps(c, es[..|es| - 1]);
      StepKeeps(c, Run(c, es[..|es| - 1]), es[|es| - 1]);
    }
  }

  /** Every reachable state is safe: lots match positions, closes are covered by their lots, opens are on one
      side and do not oppose the position, the limit holds even if every open is filled, and no step throws. */
  lemma RunIsSafe(c: Config, es: seq<Event>)
    requires Configured(c) && c.simex && QuantityFits(c) && AllowedRun(c, es)
    ensures Safe(c, Run(c, es))
    ensures es != [] ==> Step(c, Run(c, es[..|es| - 1]), es[|es| - 1]).ending == Normal
  {
    RunKeeps(c, es);
    hide Run;
    KeptIsSafe(c, Run(c, es));
  }

  /** Under the simex constraints and an allowed venue no handler ever throws, so everything is handled. */
  lemma {:induction false} AllowedIsHandled(c: Config, es: seq<Event>)
    requires Configured(c) && c.simex && QuantityFits(c) && AllowedRun(c, es)
    ensures Feed(c, Start(c), es).ending == Normal && Feed(c, Start(c), es).engine == Run(c, es)
  {
    hide Step, AllowedRun, Safe, Configured, QuantityFits;
    if es != [] {
      AllowedPrefix(c, es);
      AllowedIsHandled(c, es[..|es| - 1]);
      RunIsSafe(c, es);
    }
    FeedIsRun(c, es);
  }
}
