/** Exactly which request a decision makes the engine send: side, price, quantity and offset, and when none. */
module EngineDecisions {
  import opened Common
  import opened BookSpec
  import opened PositionKeeper
  import opened RiskManager
  import opened OrderManager
  import opened EngineSpec

  /** The engine may act on the decision: it answers the current evaluation of a ticker with good features, and on a
      single-order venue that venue is ready, nothing is working, and only a flat position is opened. */
  predicate MayAct(c: Config, e: Engine, d: Decision)
    requires d.ticker < TICKERS
  {
    var k := e.tickers[d.ticker];
    && d.id > 0 && k.latest == d.id && k.valid
    && (c.single ==>
          && e.ready
          && k.slots.buy.state in {NONE, DEAD} && k.slots.sell.state in {NONE, DEAD}
          && (d.intent == OPENING ==> k.position.position == 0))
  }

  /** A sell takes the bid, a buy the ask. */
  predicate Crosses(bbo: BBO, side: Side, price: int) {
    && price != PRICE_INVALID
    && (side == SELL ==> price == bbo.bidPrice) && (side == BUY ==> price == bbo.askPrice)
  }

  /** Opening follows the bias with the configured quantity; the simex constraints forbid it against the position
      and against a working open on the other side. */
  predicate WantsOpen(c: Config, k: Ticker, d: Decision, side: Side, qty: Qty, offset: Offset) {
    && d.intent == OPENING && (d.bias == LONG <==> side == BUY) && qty == c.quantity && offset == OPEN
    && (c.simex ==>
          var other := k.slots.Get(Opposite(side));
          && k.position.position * SideToValue(side) >= 0
          && (other.offset == OPEN ==> other.state in {NONE, DEAD}))
  }

  /** Closing takes the side against the position, from yesterday's lot as long as that holds something, and never
      more than the lot. */
  predicate WantsClose(c: Config, k: Ticker, d: Decision, side: Side, qty: Qty, offset: Offset) {
    var p := k.position;
    && d.intent == CLOSING && p.position * SideToValue(side) < 0
    && (offset == CLOSE_YESTERDAY || offset == CLOSE_TODAY) && (offset == CLOSE_TODAY <==> p.yesterday.qty == 0)
    && 0 < qty <= c.quantity && qty <= Available(p, offset) && (qty == c.quantity || qty == Available(p, offset))
  }

  predicate Wants(c: Config, k: Ticker, d: Decision, side: Side, price: int, qty: Qty, offset: Offset) {
    Crosses(k.bbo, side, price) && (WantsOpen(c, k, d, side, qty, offset) || WantsClose(c, k, d, side, qty, offset))
  }

  /** Risk has no objection, given by the limits one by one. */
  predicate WithinRisk(p: Position, limits: RiskLimits, side: Side, offset: Offset, qty: Qty) {
    && 0 < qty < QTY_INVALID
    && (limits.maxOrderSize == QTY_INVALID || qty <= limits.maxOrderSize)
    && (offset == OPEN && limits.maxPosition != QTY_INVALID ==>
          Abs(p.position + SideToValue(side) * Int32(qty)) <= Int32(limits.maxPosition))
    && (offset != OPEN ==> qty <= CloseableQty(p, offset))
    && (limits.maxLoss > 0.0 ==> p.total + limits.maxLoss >= 0.0)
  }

  lemma RiskExact(p: Position, limits: RiskLimits, side: Side, offset: Offset, qty: Qty)
    ensures CheckPreTradeRisk(p, limits, side, offset, qty) == ALLOWED <==> WithinRisk(p, limits, side, offset, qty)
  {
  }

  /** A new order goes out for a decision exactly if the engine may act on it, wants that order, its side has no
      order working, and risk has no objection. */
  predicate Asks(c: Config, e: Engine, d: Decision, q: Request)
    requires d.ticker < TICKERS
  {
    var k := e.tickers[d.ticker];
    && MayAct(c, e, d) && Wants(c, k, d, q.side, q.price, q.qty, q.offset)
    && WithinRisk(k.position, c.limits, q.side, q.offset, q.qty)
    && k.slots.Get(q.side).state in {NONE, DEAD}
    && q.kind == NEW && q.ticker == d.ticker && q.id == e.nextOrderId
  }

  lemma OpenAsks(c: Config, e: Engine, d: Decision, q: Request)
    requires Configured(c) && d.ticker < TICKERS && q.kind == NEW && d.intent == OPENING
    ensures Step(c, e, Decide(d)).request == Some(q) <==> Asks(c, e, d, q)
  {
    var side := if d.bias == LONG then BUY else SELL;
    RiskExact(e.tickers[d.ticker].position, c.limits, side, OPEN, c.quantity);
    hide CheckPreTradeRisk, WithinRisk;
  }

  /** A close is determined by the position. */
  lemma CloseWantsOne(c: Config, k: Ticker, d: Decision, side: Side, price: int, qty: Qty, offset: Offset)
    requires Configured(c) && d.intent == CLOSING
    ensures var p := k.position; var s := if p.position > 0 then SELL else BUY;
      Wants(c, k, d, side, price, qty, offset) <==>
        && p.position != 0 && side == s && price == (if s == BUY then k.bbo.askPrice else k.bbo.bidPrice)
        && price != PRICE_INVALID
        && offset == CloseOffsetFor(p, c.quantity) && offset != INVALID
        && qty == Min(c.quantity, CloseableQty(p, offset))
  {
  }

  /** What the closing branch does with a free side. */
  lemma CloseNewStep(c: Config, e: Engine, d: Decision, q: Request)
    requires Configured(c) && d.ticker < TICKERS && q.kind == NEW && d.intent == CLOSING
    ensures var k := e.tickers[d.ticker]; var p := k.position;
      var side := if p.position > 0 then SELL else BUY;
      var price := if side == BUY then k.bbo.askPrice else k.bbo.bidPrice;
      var offset := CloseOffsetFor(p, c.quantity);
      var amount := Min(c.quantity, CloseableQty(p, offset));
      Step(c, e, Decide(d)).request == Some(q) <==>
        && MayAct(c, e, d) && p.position != 0 && price != PRICE_INVALID && offset != INVALID
        && CheckPreTradeRisk(p, c.limits, side, offset, amount) == ALLOWED
        && k.slots.Get(side).state in {NONE, DEAD}
        && q == Request(NEW, d.ticker, e.nextOrderId, side, price, amount, offset)
  {
    hide CheckPreTradeRisk;
  }

  lemma CloseAsks(c: Config, e: Engine, d: Decision, q: Request)
    requires Configured(c) && d.ticker < TICKERS && q.kind == NEW && d.intent == CLOSING
    ensures Step(c, e, Decide(d)).request == Some(q) <==> Asks(c, e, d, q)
  {
    hide CheckPreTradeRisk, WithinRisk, Wants, MayAct, Step, CloseOffsetFor, CloseableQty;
    CloseNewStep(c, e, d, q);
    CloseWantsOne(c, e.tickers[d.ticker], d, q.side, q.price, q.qty, q.offset);
    RiskExact(e.tickers[d.ticker].position, c.limits, q.side, q.offset, q.qty);
  }

  /** Of every decision it is settled which new order it sends. */
  lemma NewOrderExact(c: Config, e: Engine, d: Decision, q: Request)
    requires Configured(c) && d.ticker < TICKERS && q.kind == NEW
    ensures Step(c, e, Decide(d)).request == Some(q) <==> Asks(c, e, d, q)
  {
    hide Step, Asks, Configured;
    match d.intent {
      case OPENING => OpenAsks(c, e, d, q);
      case CLOSING => CloseAsks(c, e, d, q);
      case _ => OtherwiseAsks(c, e, d, q);
    }
  }

  lemma OtherwiseAsks(c: Config, e: Engine, d: Decision, q: Request)
    requires d.ticker < TICKERS && d.intent != OPENING && d.intent != CLOSING
    ensures Step(c, e, Decide(d)).request == None && !Asks(c, e, d, q)
  {
  }

  /** An order is withdrawn exactly if the engine may act and wants another on its side, and it is live; a close has
      to pass the risk check first. */
  ghost predicate Withdraws(c: Config, e: Engine, d: Decision, side: Side)
    requires d.ticker < TICKERS
  {
    var k := e.tickers[d.ticker]; var o := k.slots.Get(side);
    && MayAct(c, e, d) && o.state == LIVE
    && exists price: int, qty: Qty, offset: Offset ::
         && Wants(c, k, d, side, price, qty, offset)
         && (o.price != price || o.qty != qty || o.offset != offset)
         && (offset != OPEN ==> WithinRisk(k.position, c.limits, side, offset, qty))
  }

  function CancelOf(o: OMOrder): Request { Request(CANCEL_ORDER, o.ticker, o.id, o.side, o.price, o.qty, o.offset) }

  lemma OpenWithdraws(c: Config, e: Engine, d: Decision, q: Request)
    requires Configured(c) && d.ticker < TICKERS && q.kind == CANCEL_ORDER && d.intent == OPENING
    ensures Step(c, e, Decide(d)).request == Some(q) <==>
      exists side: Side :: Withdraws(c, e, d, side) && q == CancelOf(e.tickers[d.ticker].slots.Get(side))
  {
    hide CheckPreTradeRisk, WithinRisk;
    var k := e.tickers[d.ticker];
    var side := if d.bias == LONG then BUY else SELL;
    var price := if side == BUY then k.bbo.askPrice else k.bbo.bidPrice;
    assert forall other: Side, p: int, qty: Qty, offset: Offset :: Wants(c, k, d, other, p, qty, offset) ==>
      other == side && p == price && qty == c.quantity && offset == OPEN;
    assert Withdraws(c, e, d, side) <==>
      MayAct(c, e, d) && k.slots.Get(side).state == LIVE && Wants(c, k, d, side, price, c.quantity, OPEN)
      && (k.slots.Get(side).price != price || k.slots.Get(side).qty != c.quantity || k.slots.Get(side).offset != OPEN);
    assert forall other: Side :: Withdraws(c, e, d, other) ==> other == side;
    hide Withdraws;
  }

  lemma CloseWithdraws(c: Config, e: Engine, d: Decision, q: Request)
    requires Configured(c) && d.ticker < TICKERS && q.kind == CANCEL_ORDER && d.intent == CLOSING
    ensures Step(c, e, Decide(d)).request == Some(q) <==>
      exists side: Side :: Withdraws(c, e, d, side) && q == CancelOf(e.tickers[d.ticker].slots.Get(side))
  {
    var k := e.tickers[d.ticker];
    var p := k.position;
    var side := if p.position > 0 then SELL else BUY;
    var price := if side == BUY then k.bbo.askPrice else k.bbo.bidPrice;
    var offset := CloseOffsetFor(p, c.quantity);
    var amount := Min(c.quantity, CloseableQty(p, offset));
    RiskExact(p, c.limits, side, offset, amount);
    CloseStep(c, e, d, q);
    forall other: Side, pr: int, qty: Qty, off: Offset
      ensures Wants(c, k, d, other, pr, qty, off) <==>
        && p.position != 0 && other == side && pr == price && price != PRICE_INVALID
        && off == offset && offset != INVALID && qty == amount
    {
      CloseWantsOne(c, k, d, other, pr, qty, off);
    }
    assert offset != OPEN;
    hide CheckPreTradeRisk, WithinRisk, Wants, MayAct, Step, CloseOffsetFor, CloseableQty;
    var o := k.slots.Get(side);
    if Wants(c, k, d, side, price, amount, offset) && MayAct(c, e, d) && o.state == LIVE
       && (o.price != price || o.qty != amount || o.offset != offset)
       && WithinRisk(p, c.limits, side, offset, amount) {
      assert Withdraws(c, e, d, side);
    }
    assert forall other: Side :: Withdraws(c, e, d, other) ==> other == side;
  }

  /** What the closing branch does with an order on its side. */
  lemma CloseStep(c: Config, e: Engine, d: Decision, q: Request)
    requires Configured(c) && d.ticker < TICKERS && q.kind == CANCEL_ORDER && d.intent == CLOSING
    ensures var k := e.tickers[d.ticker]; var p := k.position;
      var side := if p.position > 0 then SELL else BUY;
      var price := if side == BUY then k.bbo.askPrice else k.bbo.bidPrice;
      var offset := CloseOffsetFor(p, c.quantity);
      var amount := Min(c.quantity, CloseableQty(p, offset));
      var o := k.slots.Get(side);
      Step(c, e, Decide(d)).request == Some(q) <==>
        && MayAct(c, e, d) && p.position != 0 && price != PRICE_INVALID && offset != INVALID
        && CheckPreTradeRisk(p, c.limits, side, offset, amount) == ALLOWED
        && o.state == LIVE && (o.price != price || o.qty != amount || o.offset != offset) && q == CancelOf(o)
  {
    hide CheckPreTradeRisk;
  }

  lemma WithdrawalExact(c: Config, e: Engine, d: Decision, q: Request)
    requires Configured(c) && d.ticker < TICKERS && q.kind == CANCEL_ORDER
    ensures Step(c, e, Decide(d)).request == Some(q) <==>
      exists side: Side :: Withdraws(c, e, d, side) && q == CancelOf(e.tickers[d.ticker].slots.Get(side))
  {
    if d.intent == OPENING {
      OpenWithdraws(c, e, d, q);
    } else if d.intent == CLOSING {
      CloseWithdraws(c, e, d, q);
    } else {
      OtherwiseAsks(c, e, d, q);
      assert forall side: Side :: !Withdraws(c, e, d, side);
    }
  }

  /** What a decision leaves: the order asked for in its slot, pending; the order withdrawn, pending its
      cancellation; everything else as it was, and all of it if nothing was sent. */
  lemma DecisionLeaves(c: Config, e: Engine, d: Decision)
    requires d.ticker < TICKERS
    ensures var r := Step(c, e, Decide(d)); var k, k' := e.tickers[d.ticker], r.engine.tickers[d.ticker];
      && r.ending == Normal && r.engine.ready == e.ready && r.engine.nextEvaluationId == e.nextEvaluationId
      && r.engine.tickers == e.tickers[d.ticker := k'] && k' == k.(slots := k'.slots)
      && match r.request
         case None => r.engine == e
         case Some(q) =>
           if q.kind == NEW then
             && r.engine.nextOrderId == e.nextOrderId + 1
             && k'.slots == k.slots.Put(q.side, OMOrder(q.ticker, q.id, q.side, q.price, q.qty, q.offset, PENDING_NEW))
           else
             && r.engine.nextOrderId == e.nextOrderId
             && exists side: Side :: q == CancelOf(k.slots.Get(side))
                  && k'.slots == k.slots.Put(side, k.slots.Get(side).(state := PENDING_CANCEL))
  {
    DecidedLeaves(c, e.tickers[d.ticker], e.ready, d.ticker, e.nextOrderId, d);
    hide Decided;
    assert e.tickers == e.tickers[d.ticker := e.tickers[d.ticker]];
  }

  lemma DecidedLeaves(c: Config, k: Ticker, ready: bool, t: nat, nextId: nat, d: Decision)
    ensures var a := Decided(c, k, ready, t, nextId, d);
      && a.ticker == k.(slots := a.ticker.slots)
      && match a.request
         case None => a == Acted(k, None, nextId)
         case Some(q) =>
           if q.kind == NEW then
             && a.nextId == nextId + 1
             && a.ticker.slots
                  == k.slots.Put(q.side, OMOrder(q.ticker, q.id, q.side, q.price, q.qty, q.offset, PENDING_NEW))
           else
             && a.nextId == nextId
             && exists side: Side :: q == CancelOf(k.slots.Get(side))
                  && a.ticker.slots == k.slots.Put(side, k.slots.Get(side).(state := PENDING_CANCEL))
  {
    hide CheckPreTradeRisk;
  }

  // ----- quotes and evaluations ------------------------------------------------------------------------------

  /** A quote with two prices that do not cross and something behind both. */
  predicate GoodQuote(bbo: BBO) {
    && bbo.bidPrice > 0 && bbo.bidPrice < bbo.askPrice
    && bbo.bidPrice != PRICE_INVALID && bbo.askPrice != PRICE_INVALID
    && bbo.bidQty !in {0, QTY_INVALID} && bbo.askQty !in {0, QTY_INVALID}
  }

  /** A market update quotes its own ticker and no other; the quote decides whether decisions may be acted on, and a
      bad one forgets the evaluation. */
  lemma QuoteExact(c: Config, e: Engine, t: nat, bbo: BBO)
    requires t < TICKERS
    ensures var r := Step(c, e, Market(t, bbo)); var k, k' := e.tickers[t], r.engine.tickers[t];
      && r.engine == e.(tickers := e.tickers[t := k']) && r.request == None
      && k'.bbo == bbo && k'.slots == k.slots && (k'.valid <==> GoodQuote(bbo))
      && k'.latest == (if GoodQuote(bbo) then k.latest else 0)
      && k'.position.bbo == Some(bbo) && k'.position.position == k.position.position
      && k'.position.today == k.position.today && k'.position.yesterday == k.position.yesterday
  {
    MarkingKeeps(e.tickers[t].position.(bbo := Some(bbo)));
    hide Marked;
  }

  /** An evaluation is registered exactly when the timer is due, a ticker is configured whose features are good, and
      a single-order venue is ready; it gets the next number, and nothing else changes. */
  lemma EvaluationExact(c: Config, e: Engine, due: bool)
    requires Configured(c)
    ensures var r := Step(c, e, Schedule(due)).engine;
      if due && c.scheduled.Some? && e.tickers[c.scheduled.value].valid && (c.single ==> e.ready) then
        var t := c.scheduled.value;
        && r.nextEvaluationId == e.nextEvaluationId + 1
        && r == e.(tickers := e.tickers[t := e.tickers[t].(latest := e.nextEvaluationId)],
                   nextEvaluationId := r.nextEvaluationId)
      else r == e
  {
  }
}
