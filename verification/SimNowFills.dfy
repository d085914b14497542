/** The executions the SimNow adapter publishes are the trade callbacks it takes: one for one, in order, each at the
    callback's price. */
module SimNowFills {
  import opened Common
  import opened PositionKeeper
  import opened OrderManager
  import opened Responses
  import opened Numerals
  import opened SimNowSpec
  import opened SimNowSafety
  import opened SimNowLifecycle

  // ----- one callback ----------------------------------------------------------------------------------------

  /** A trade callback reports the execution of an open order for the first time: it names the order, the instrument,
      the exchange, the trading day and the trade, with the order's own system number if that is known, and
      executes the one lot ordered, on the side and with the offset ordered, at a price. */
  predicate Reports(s: State, p: TradeField) {
    && p.ref in s.book.orders && !s.book.orders[p.ref].done && s.book.orders[p.ref].fills == 0
    && p.instrument == s.instrument && p.exchange == "SHFE" && p.day == s.day && p.tradeId != ""
    && (p.day, p.exchange, p.tradeId) !in s.book.orders[p.ref].trades
    && (s.book.orders[p.ref].sys == "" || s.book.orders[p.ref].sys == p.sys)
    && p.volume == 1 && p.price != PRICE_INVALID && p.side == s.book.orders[p.ref].request.side
    && (s.book.orders[p.ref].request.offset == OPEN <==> p.offset == OPEN)
    && (p.offset == OPEN || p.offset == CLOSE_TODAY)
  }

  /** Nothing is expected of it any more: a trade its order has had, under the same names. */
  predicate Repeats(s: State, p: TradeField) {
    && p.ref in s.book.orders && (p.day, p.exchange, p.tradeId) in s.book.orders[p.ref].trades
    && p.instrument == s.instrument && p.exchange == "SHFE" && p.day == s.day
    && (s.book.orders[p.ref].sys == "" || s.book.orders[p.ref].sys == p.sys)
  }

  /** The execution a callback reports, for its order. */
  function Execution(s: State, p: TradeField): Response
    requires p.ref in s.book.orders
  {
    var r := s.book.orders[p.ref].request;
    Response(FILLED, 0, r.id, Fill(p.side, r.offset, p.price, 1), if r.qty > 1 then r.qty - 1 else 0)
  }

  /** The order with its one execution. */
  function Executed(o: Order, p: TradeField): Order {
    o.(done := true, fills := 1, trades := o.trades + {(p.day, p.exchange, p.tradeId)})
  }

  /** A trade callback is taken exactly if it reports or repeats an execution. Reporting publishes that execution,
      ends the order and moves the position; repeating changes nothing, and any other callback throws with nothing
      changed. */
  lemma TradeExact(s: State, p: TradeField)
    ensures var (s', ok) := OnTrade(s, p);
      && (ok <==> Reports(s, p) || Repeats(s, p))
      && (Reports(s, p) ==>
            && s'.book.log == s.book.log + [Execution(s, p)]
            && s'.book.net == s.book.net + (if p.side == BUY then 1 else -1)
            && s'.book.orders.Keys == s.book.orders.Keys
            && (forall ref :: ref in s.book.orders && ref != p.ref ==> s'.book.orders[ref] == s.book.orders[ref])
            && s'.book.orders[p.ref] == Executed(s.book.orders[p.ref], p)
            && s' == s.(book := s'.book))
      && (!Reports(s, p) ==> s' == s)
  {
  }

  // ----- everything else publishes no execution --------------------------------------------------------------

  /** The executions among responses, in order. */
  function Executions(log: seq<Response>): seq<Response> {
    if log == [] then []
    else
      var r := log[|log| - 1];
      Executions(log[..|log| - 1]) + if r.kind == FILLED then [r] else []
  }

  lemma OneMoreExecution(log: seq<Response>, r: Response)
    ensures Executions(log + [r]) == Executions(log) + if r.kind == FILLED then [r] else []
  {
    assert (log + [r])[..|log|] == log;
  }

  /** Nothing was executed. */
  predicate Idle(b: Book, b': Book) { Executions(b'.log) == Executions(b.log) }

  lemma SayIdle(s: State, ref: nat, o: Order, kind: ResponseType)
    requires kind != FILLED
    ensures Idle(s.book, Put(s, ref, o).book) && Idle(s.book, Say(s, ref, o, kind).book)
  {
    OneMoreExecution(s.book.log, Answer(o.request, o.fills, kind, 0, PRICE_INVALID));
    hide Executions;
  }

  lemma FinishedIdle(s: State, ref: nat, o: Order)
    ensures Idle(s.book, Finished(s, ref, o).0.book)
  {
    hide Put, Say, Executions;
    SayIdle(s, ref, o, CANCELED);
    SayIdle(s, ref, o.(done := true), if o.rejected then REJECTED else CANCELED);
  }

  lemma CancelIdle(s: State, ref: nat, rc: int)
    requires ref in s.book.orders
    ensures Idle(s.book, CancelSent(s, ref, rc).book)
  {
    hide Say, Executions;
    var o := s.book.orders[ref].(cancelId := s.nextId + 1, cancelSent := true);
    SayIdle(Put(s, ref, o).(nextId := s.nextId + 1), ref, o, CANCEL_REJECTED);
  }

  lemma ProgressIdle(s: State, p: OrderField, o: Order)
    ensures Idle(s.book, Progressed(s, p, o).0.book)
  {
    hide Put, Say, Finished, TerminalStatus, Executions;
    var refuse := p.submit == CANCEL_REJECTED_STATUS && !o.cancelRejected;
    var o' := if refuse then o.(cancelRejected := true) else o;
    var s' := if refuse then Say(s, p.ref, o', CANCEL_REJECTED) else Put(s, p.ref, o');
    SayIdle(s, p.ref, o', CANCEL_REJECTED);
    SayIdle(s', p.ref, o'.(accepted := true), ACCEPTED);
    FinishedIdle(s', p.ref, o'.(hasTerminal := true, rejected := p.submit == INSERT_REJECTED));
  }

  lemma OrderIdle(s: State, p: OrderField)
    ensures Idle(s.book, OnOrder(s, p).0.book)
  {
    hide Progressed, Executions, Put;
    if p.ref in s.book.orders {
      var o := s.book.orders[p.ref];
      var o1 := if p.sys != "" then o.(sys := p.sys) else o;
      SayIdle(s, p.ref, o1, CANCELED);
      if p.traded >= 0 {
        var o2 := o1.(reported := Max(o.reported, p.traded));
        SayIdle(s, p.ref, o2, CANCELED);
        ProgressIdle(s, p, o2);
      }
    }
  }

  lemma ErrorIdle(s: State, e: Event)
    ensures Idle(s.book, OnError(s, e).0.book)
  {
    hide Say, Finished, Executions;
    var target := ErrorTarget(s, e);
    if target.Some? {
      assert target.value in s.book.orders;
      var o := s.book.orders[target.value];
      hide ErrorTarget;
      SayIdle(s, target.value, o.(cancelRejected := true), CANCEL_REJECTED);
      FinishedIdle(s, target.value, o.(rejected := true, hasTerminal := true));
    }
  }

  lemma StageIdle(s: State, e: Event, rc: int, marketDay: string)
    ensures Idle(s.book, OnStage(s, e, rc, marketDay).0.book)
  {
    hide Executions;
  }

  lemma InsertedIdle(s: State, r: Request, rc: int)
    ensures Idle(s.book, Inserted(s, r, rc).book)
  {
    hide Say, Executions;
    SayIdle(Stored(s, r), s.book.nextRef + 1, NewlyStored(r, s.nextId + 1).(done := true), REJECTED);
  }

  lemma RefusedIdle(s: State, r: Request)
    ensures Idle(s.book, Refused(s, r).book)
  {
    OneMoreExecution(s.book.log, Answer(r, 0, if r.kind == NEW then REJECTED else CANCEL_REJECTED, 0, PRICE_INVALID));
    hide Executions;
  }

  lemma SubmissionIdle(s: State, sub: Submission, rc: int)
    ensures Idle(s.book, Submitted(s, sub, rc).book)
  {
    hide CancelSent, Inserted, Refused, Acceptable, Executions;
    var noted := Noted(s, sub.request);
    var own := OrdersOf(noted.book, sub.request.id);
    if own != {} { CancelIdle(noted, First(own), rc); }
    InsertedIdle(noted, sub.request, rc);
    RefusedIdle(noted, sub.request);
  }

  // ----- runs ------------------------------------------------------------------------------------------------

  /** The execution an action reports, if any. */
  function Reported(s: State, a: Action): seq<Response> {
    if a.Callback? && a.e.kind == TRADE && a.e.payload.TradePayload? && Reports(s, a.e.payload.trade) then
      [Execution(s, a.e.payload.trade)]
    else []
  }

  lemma TradeExecutes(s: State, p: TradeField)
    ensures Executions(OnTrade(s, p).0.book.log)
         == Executions(s.book.log) + if Reports(s, p) then [Execution(s, p)] else []
  {
    hide OnTrade, Executions, Reports, Execution;
    TradeExact(s, p);
    if Reports(s, p) {
      ExecutionFills(s, p);
      OneMoreExecution(s.book.log, Execution(s, p));
    } else {
      assert Executions(s.book.log) + [] == Executions(s.book.log);
    }
  }

  lemma EventExecutes(s: State, e: Event, rc: int, marketDay: string)
    ensures Executions(OnEvent(s, e, rc, marketDay).0.book.log)
         == Executions(s.book.log) + Reported(s, Callback(e, rc, marketDay))
  {
    hide OnOrder, OnTrade, OnError, OnQuery, OnStage, Requested, Executions, Reports, Execution;
    assert Executions(s.book.log) + [] == Executions(s.book.log);
    if e.kind == TRADE {
      if e.payload.TradePayload? { TradeExecutes(s, e.payload.trade); }
    } else {
      if e.payload.OrderPayload? { OrderIdle(s, e.payload.order); }
      ErrorIdle(s, e);
      StageIdle(s, e, rc, marketDay);
      RequestedIdle(s.(link := s.link.(connected := true)), AUTH, rc);
    }
  }

  lemma RequestedIdle(s: State, kind: Kind, rc: int)
    ensures Requested(s, kind, rc).0.book == s.book
  {
  }

  lemma ExecutionFills(s: State, p: TradeField)
    requires Reports(s, p)
    ensures p.ref in s.book.orders && Execution(s, p).kind == FILLED
  {
  }

  lemma StepExecutes(s: State, a: Action)
    ensures Executions(Step(s, a).book.log) == Executions(s.book.log) + Reported(s, a)
  {
    hide Submitted, OnEvent, CancelSent, Executions;
    match a {
      case Submit(sub, rc) => SubmissionIdle(s, sub, rc);
      case Callback(e, rc, marketDay) => EventExecutes(s, e, rc, marketDay);
      case CancelForStop(ref, rc) => if ref in s.book.orders { CancelIdle(s, ref, rc); }
      case _ =>
    }
  }

  /** The executions the trade callbacks of a run report for the first time. */
  ghost function AllReported(instrument: string, acts: seq<Action>): seq<Response> {
    if acts == [] then []
    else
      var before := acts[..|acts| - 1];
      AllReported(instrument, before) + Reported(Run(instrument, before), acts[|acts| - 1])
  }

  /** Over every run the executions published are exactly those reported: one for one, in order, each for one lot at
      the price of its callback, on the side and for the identifier of its order. */
  lemma {:induction false} RunExecutesReported(instrument: string, acts: seq<Action>)
    ensures Executions(Run(instrument, acts).book.log) == AllReported(instrument, acts)
  {
    if acts != [] {
      var before := acts[..|acts| - 1];
      RunExecutesReported(instrument, before);
      StepExecutes(Run(instrument, before), acts[|acts| - 1]);
    }
    hide Step, Reported, Executions;
  }

  // ----- money -----------------------------------------------------------------------------------------------

  /** What the trade callbacks of a run pay or receive: one lot at the price of each that reports an execution. */
  ghost function CashReported(instrument: string, acts: seq<Action>): real {
    if acts == [] then 0.0
    else
      var before, a := acts[..|acts| - 1], acts[|acts| - 1];
      CashReported(instrument, before) +
        if a.Callback? && a.e.kind == TRADE && a.e.payload.TradePayload?
           && Reports(Run(instrument, before), a.e.payload.trade) then
          (if a.e.payload.trade.side == BUY then -(a.e.payload.trade.price as real)
           else a.e.payload.trade.price as real)
        else 0.0
  }

  function Cash(executions: seq<Response>): real {
    if executions == [] then 0.0
    else Cash(executions[..|executions| - 1]) + CashFlow(executions[|executions| - 1].fill)
  }

  lemma OneMoreCash(executions: seq<Response>, r: Response)
    ensures Cash(executions + [r]) == Cash(executions) + CashFlow(r.fill)
  {
    assert (executions + [r])[..|executions|] == executions;
  }

  lemma ExecutionCash(s: State, p: TradeField)
    requires Reports(s, p)
    ensures p.ref in s.book.orders
    ensures CashFlow(Execution(s, p).fill) == if p.side == BUY then -(p.price as real) else p.price as real
  {
  }

  lemma {:induction false} ReportedCash(instrument: string, acts: seq<Action>)
    ensures Cash(AllReported(instrument, acts)) == CashReported(instrument, acts)
  {
    hide Run, Reports, Execution;
    if acts != [] {
      var before, a := acts[..|acts| - 1], acts[|acts| - 1];
      ReportedCash(instrument, before);
      var s, all := Run(instrument, before), AllReported(instrument, before);
      if a.Callback? && a.e.kind == TRADE && a.e.payload.TradePayload? && Reports(s, a.e.payload.trade) {
        ExecutionCash(s, a.e.payload.trade);
        OneMoreCash(all, Execution(s, a.e.payload.trade));
      } else {
        assert all + [] == all;
      }
      hide Cash;
    }
  }

  lemma FittingConserves(p: Position, net: int, f: Fill, cash: real)
    requires Agree(p, net) && -1 <= net <= 1 && FitsNet(f, net) && Conserved(p, cash)
    ensures Agree(Filled(p, f), net + SideToValue(f.side)) && Conserved(Filled(p, f), cash + CashFlow(f))
  {
    hide Filled, CashFlow, Conserved;
    assert LotsMatch(p) && Proper(p, f);
    FillConserves(p, f, cash);
    FillAgrees(p, net, f);
  }

  lemma FlatConserves()
    ensures Conserved(FLAT, 0.0)
  {
  }

  lemma FitsEarlier(log: seq<Response>)
    requires log != [] && FillsFit(log)
    ensures FillsFit(log[..|log| - 1])
    ensures var r := log[|log| - 1]; r.kind == FILLED ==> FitsNet(r.fill, NetOf(log[..|log| - 1]))
  {
    hide NetOf, FitsNet;
    var n := |log| - 1;
    forall i | 0 <= i < n && log[..n][i].kind == FILLED ensures FitsNet(log[..n][i].fill, NetOf(log[..n][..i])) {
      assert log[..n][..i] == log[..i];
    }
  }

  /** A participant that folds executions that fit keeps its books: what it has realised is their cash flow plus the
      signed cost of what it holds. */
  lemma {:induction false} FoldConserves(log: seq<Response>)
    requires FillsFit(log)
    ensures -1 <= NetOf(log) <= 1 && Agree(Folded(log), NetOf(log)) && Conserved(Folded(log), Cash(Executions(log)))
  {
    hide Filled, CashFlow, Conserved, FitsNet, FillsFit, Agree, Cash;
    if log == [] {
      FlatConserves();
      NothingAgrees();
    } else {
      var before, r := log[..|log| - 1], log[|log| - 1];
      FitsEarlier(log);
      FoldConserves(before);
      if r.kind == FILLED {
        OneMoreCash(Executions(before), r);
        FittingConserves(Folded(before), NetOf(before), r.fill, Cash(Executions(before)));
        FitsMeans(r.fill, NetOf(before));
      } else {
        assert Executions(before) + [] == Executions(before);
      }
    }
  }

  lemma NothingAgrees()
    ensures Agree(FLAT, 0) && Cash([]) == 0.0
  {
  }

  lemma FitsMeans(f: Fill, net: int)
    requires FitsNet(f, net) && -1 <= net <= 1
    ensures f.qty == 1 && -1 <= net + SideToValue(f.side) <= 1
  {
  }

  /** Over every run: whoever folds the published executions has realised what the trade callbacks taken pay and
      receive, plus the signed cost of what is held. */
  lemma RunCashExact(instrument: string, acts: seq<Action>)
    ensures Conserved(Folded(Run(instrument, acts).book.log), CashReported(instrument, acts))
  {
    RunKeeps(instrument, acts);
    var log := Run(instrument, acts).book.log;
    assert FillsFit(log);
    hide Inv, Run, FillsFit, Folded, Conserved;
    FoldConserves(log);
    RunExecutesReported(instrument, acts);
    ReportedCash(instrument, acts);
  }
}
