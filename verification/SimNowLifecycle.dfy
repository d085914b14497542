/** The main results about the SimNow adapter, over every run: what the published responses say. */
module SimNowLifecycle {
  import opened Common
  import opened PositionKeeper
  import opened OrderManager
  import opened Responses
  import opened Numerals
  import opened SimNowSpec
  import opened SimNowSafety

  // ----- how orders evolve -----------------------------------------------------------------------------------

  /** A done order stays as it ended; reports only add up; and once an execution has been reported, only its
      trade can end the order. */
  predicate Evolves(o: Order, o': Order) {
    && o'.request == o.request && o.reported <= o'.reported && o.trades <= o'.trades
    && (o.done ==> o'.done && o'.fills == o.fills && o'.accepted == o.accepted)
    && (!o.done && o'.done && o.reported > 0 ==> o'.fills > 0)
  }

  /** A response repeats what its request asked for; an execution leaves one lot less. */
  predicate AnswersTo(q: Request, r: Response) {
    && r.id == q.id && r.fill.side == q.side && r.fill.offset == q.offset
    && (r.kind == FILLED ==> r.fill.qty == 1 && r.leaves == Max(0, q.qty - 1))
  }

  /** Acceptances and executions answer the request of a stored order. */
  ghost predicate Backed(b: Book, r: Response) {
    && r.ticker == 0
    && (r.kind == ACCEPTED || r.kind == FILLED ==> exists ref :: ref in b.orders && AnswersTo(b.orders[ref].request, r))
  }

  /** No order is forgotten and no response taken back, and new responses are backed. */
  ghost predicate Grows(b: Book, b': Book) {
    && b.log <= b'.log
    && (forall ref :: ref in b.orders ==> ref in b'.orders && Evolves(b.orders[ref], b'.orders[ref]))
    && (forall i :: |b.log| <= i < |b'.log| ==> Backed(b', b'.log[i]))
  }

  lemma BackedStill(b: Book, b': Book, r: Response)
    requires Backed(b, r)
    requires forall ref :: ref in b.orders ==> ref in b'.orders && Evolves(b.orders[ref], b'.orders[ref])
    ensures Backed(b', r)
  {
    hide AnswersTo;
    if r.kind == ACCEPTED || r.kind == FILLED {
      var ref :| ref in b.orders && AnswersTo(b.orders[ref].request, r);
      assert AnswersTo(b'.orders[ref].request, r);
    }
  }

  lemma GrowsTwice(a: Book, b: Book, c: Book)
    requires Grows(a, b) && Grows(b, c)
    ensures Grows(a, c)
  {
    hide Backed;
    forall i | |a.log| <= i < |c.log| ensures Backed(c, c.log[i]) {
      if i < |b.log| { BackedStill(b, c, b.log[i]); }
    }
  }

  lemma PutGrows(s: State, ref: nat, o: Order)
    requires ref in s.book.orders && Evolves(s.book.orders[ref], o)
    ensures Grows(s.book, Put(s, ref, o).book)
  {
    hide Backed;
  }

  lemma SayGrows(s: State, ref: nat, o: Order, kind: ResponseType)
    requires ref in s.book.orders && Evolves(s.book.orders[ref], o) && kind != FILLED
    ensures Grows(s.book, Say(s, ref, o, kind).book)
  {
    var s' := Say(s, ref, o, kind);
    assert AnswersTo(s'.book.orders[ref].request, s'.book.log[|s.book.log|]);
    assert Backed(s'.book, s'.book.log[|s.book.log|]);
    hide Backed;
  }

  /** Only flags change, and reports add up. */
  predicate Progress(o: Order, o': Order) {
    SameStage(o, o') && o.reported <= o'.reported && o.trades == o'.trades
  }

  lemma FinishedGrows(s: State, ref: nat, o: Order)
    requires ref in s.book.orders && Progress(s.book.orders[ref], o)
    ensures Grows(s.book, Finished(s, ref, o).0.book)
  {
    hide Grows, Put, Say;
    PutGrows(s, ref, o);
    if !o.done && o.hasTerminal && o.fills == o.reported {
      SayGrows(s, ref, o.(done := true), if o.rejected then REJECTED else CANCELED);
      PutGrows(s, ref, o.(done := true));
    }
  }

  lemma CancelGrows(s: State, ref: nat, rc: int)
    requires ref in s.book.orders
    ensures Grows(s.book, CancelSent(s, ref, rc).book)
  {
    hide Grows, Say;
    var o := s.book.orders[ref].(cancelId := s.nextId + 1, cancelSent := true);
    PutGrows(s, ref, o);
    PutGrows(s, ref, s.book.orders[ref]);
    var s' := Put(s, ref, o).(nextId := s.nextId + 1);
    SayGrows(s', ref, o, CANCEL_REJECTED);
    GrowsTwice(s.book, s'.book, Say(s', ref, o, CANCEL_REJECTED).book);
    assert Put(s, ref, s.book.orders[ref]).book == s.book;
  }

  lemma ProgressGrows(s: State, p: OrderField, o: Order)
    requires p.ref in s.book.orders && Progress(s.book.orders[p.ref], o) && !o.done
    ensures Grows(s.book, Progressed(s, p, o).0.book)
  {
    var refuse := p.submit == CANCEL_REJECTED_STATUS && !o.cancelRejected;
    var o' := if refuse then o.(cancelRejected := true) else o;
    var s' := if refuse then Say(s, p.ref, o', CANCEL_REJECTED) else Put(s, p.ref, o');
    assert s'.book.orders[p.ref] == o';
    hide Grows, Put, Say, Finished, TerminalStatus, Answer;
    if refuse { SayGrows(s, p.ref, o', CANCEL_REJECTED); } else { PutGrows(s, p.ref, o'); }
    var rejected := p.submit == INSERT_REJECTED;
    if TerminalStatus(p.status) || rejected {
      var o'' := o'.(hasTerminal := true, rejected := rejected);
      FinishedGrows(s', p.ref, o'');
      GrowsTwice(s.book, s'.book, Finished(s', p.ref, o'').0.book);
    } else {
      SayGrows(s', p.ref, o'.(accepted := true), ACCEPTED);
      GrowsTwice(s.book, s'.book, Say(s', p.ref, o'.(accepted := true), ACCEPTED).book);
    }
  }

  lemma OrderGrows(s: State, p: OrderField)
    ensures Grows(s.book, OnOrder(s, p).0.book)
  {
    hide Put, Progressed, Grows, AnswersTo;
    if !KnownOrder(s, p) {
      GrowsSelf(s.book);
    } else {
      var o := s.book.orders[p.ref];
      var o1 := if p.sys != "" then o.(sys := p.sys) else o;
      PutGrows(s, p.ref, o1);
      if 0 <= p.traded <= 1 {
        var o2 := o1.(reported := Max(o.reported, p.traded));
        PutGrows(s, p.ref, o2);
        if !o.done { ProgressGrows(s, p, o2); }
      }
    }
  }

  lemma TellGrows(s: State, ref: nat, o: Order, r: Response, net: int)
    requires ref in s.book.orders && Evolves(s.book.orders[ref], o) && AnswersTo(o.request, r) && r.ticker == 0
    ensures Grows(s.book, Tell(s, ref, o, r).book.(net := net))
  {
    var b := Tell(s, ref, o, r).book.(net := net);
    assert AnswersTo(b.orders[ref].request, r);
    assert Backed(b, b.log[|s.book.log|]);
    hide Backed;
  }

  lemma TradeGrows(s: State, p: TradeField)
    ensures Grows(s.book, OnTrade(s, p).0.book)
  {
    hide Tell, KnownTrade;
    if KnownTrade(s, p) {
      assert p.ref in s.book.orders by { KnownTradeStored(s, p); }
      var o := s.book.orders[p.ref];
      if GoodTrade(o, p) {
        TellGrows(s, p.ref, o.(trades := o.trades + {TradeKey(p)}, fills := o.fills + 1, done := true),
                  Answer(o.request, o.fills + 1, FILLED, 1, p.price), s.book.net + SideToValue(o.request.side));
      }
    }
  }

  lemma KnownTradeStored(s: State, p: TradeField)
    requires KnownTrade(s, p)
    ensures p.ref in s.book.orders
  {
  }

  lemma ErrorGrows(s: State, e: Event)
    ensures Grows(s.book, OnError(s, e).0.book)
  {
    hide Say, Finished;
    var target := ErrorTarget(s, e);
    if e.error != 0 && target.Some? {
      var o := s.book.orders[target.value];
      hide ErrorTarget;
      if !o.done {
        FinishedGrows(s, target.value, o.(rejected := true, hasTerminal := true));
        SayGrows(s, target.value, o.(cancelRejected := true), CANCEL_REJECTED);
      }
    }
  }

  lemma InsertedGrows(s: State, r: Request, rc: int)
    requires s.book.nextRef + 1 !in s.book.orders
    ensures Grows(s.book, Inserted(s, r, rc).book)
  {
    var ref, o := s.book.nextRef + 1, NewlyStored(r, s.nextId + 1);
    var stored := Stored(s, r);
    assert stored.book.orders == s.book.orders[ref := o] && stored.book.log == s.book.log;
    assert Grows(s.book, stored.book) by { hide Backed, AnswersTo; }
    hide Grows, Stored, Say, Backed, AnswersTo;
    SayGrows(stored, ref, o.(done := true), REJECTED);
    GrowsTwice(s.book, stored.book, Say(stored, ref, o.(done := true), REJECTED).book);
  }

  /** `submit` past the identity check. */
  lemma NotedGrows(s: State, r: Request)
    ensures Grows(s.book, Noted(s, r).book) && Grows(s.book, Failed(Noted(s, r)).book)
    ensures Noted(s, r).book.nextRef == s.book.nextRef && Noted(s, r).book.orders == s.book.orders
  {
  }

  lemma RefusedGrows(s: State, r: Request)
    ensures Grows(s.book, Refused(s, r).book)
  {
  }

  lemma SubmissionGrows(s: State, sub: Submission, rc: int)
    requires Inv(s)
    ensures Grows(s.book, Submitted(s, sub, rc).book)
  {
    var r, noted := sub.request, Noted(s, sub.request);
    assert s.book.nextRef + 1 !in s.book.orders;
    hide Inv, CancelSent, Acceptable, Inserted, Noted, Refused, Failed, Grows;
    NotedGrows(s, r);
    if !sub.ours {
    } else if r.kind == CANCEL_ORDER && OrdersOf(noted.book, r.id) != {} {
      var ref := First(OrdersOf(noted.book, r.id));
      CancelGrows(noted, ref, rc);
      GrowsTwice(s.book, noted.book, CancelSent(noted, ref, rc).book);
    } else {
      RefusedGrows(noted, r);
      GrowsTwice(s.book, noted.book, Refused(noted, r).book);
      InsertedGrows(noted, r, rc);
      GrowsTwice(s.book, noted.book, Inserted(noted, r, rc).book);
    }
  }

  lemma StageGrows(s: State, e: Event, rc: int, marketDay: string)
    ensures Grows(s.book, OnStage(s, e, rc, marketDay).0.book)
    ensures Grows(s.book, Requested(s.(link := s.link.(connected := true)), AUTH, rc).0.book)
    ensures Grows(s.book, s.book)
  {
    hide Evolves;
    assert forall o :: Evolves(o, o) by { EvolvesSelf(); }
  }

  lemma EvolvesSelf()
    ensures forall o :: Evolves(o, o)
  {
  }

  lemma EventGrows(s: State, e: Event, rc: int, marketDay: string)
    ensures Grows(s.book, OnEvent(s, e, rc, marketDay).0.book)
  {
    hide OnOrder, OnTrade, OnError, OnQuery, OnStage, Requested, Grows;
    if e.payload.OrderPayload? { OrderGrows(s, e.payload.order); }
    if e.payload.TradePayload? { TradeGrows(s, e.payload.trade); }
    ErrorGrows(s, e);
    StageGrows(s, e, rc, marketDay);
  }

  lemma StepGrows(s: State, a: Action)
    requires Inv(s)
    ensures Grows(s.book, Step(s, a).book)
  {
    hide Inv, Submitted, OnEvent, CancelSent, AccountQueued, Queried;
    match a {
      case Submit(sub, rc) => SubmissionGrows(s, sub, rc);
      case Callback(e, rc, marketDay) => EventGrows(s, e, rc, marketDay);
      case CancelForStop(ref, rc) => if ref in s.book.orders { CancelGrows(s, ref, rc); }
      case _ =>
    }
  }

  // ----- runs ------------------------------------------------------------------------------------------------

  lemma GrowsSelf(b: Book)
    ensures Grows(b, b)
  {
  }

  /** The book of any earlier moment of a run has grown into the present one. */
  lemma {:induction false} RunGrows(instrument: string, acts: seq<Action>, k: nat)
    requires k <= |acts|
    ensures Grows(Run(instrument, acts[..k]).book, Run(instrument, acts).book)
    decreases |acts| - k
  {
    hide Step, Inv, Grows;
    if k == |acts| {
      assert acts[..k] == acts;
      GrowsSelf(Run(instrument, acts).book);
    } else {
      RunGrows(instrument, acts, k + 1);
      assert acts[..k + 1][..k] == acts[..k];
      RunKeeps(instrument, acts[..k]);
      StepGrows(Run(instrument, acts[..k]), acts[k]);
      GrowsTwice(Run(instrument, acts[..k]).book, Run(instrument, acts[..k + 1]).book, Run(instrument, acts).book);
    }
  }

  /** How many new-order requests of a run carry an identifier. */
  function Uses(acts: seq<Action>, id: int): nat {
    if acts == [] then 0
    else
      var a := acts[|acts| - 1];
      Uses(acts[..|acts| - 1], id) + if a.Submit? && a.sub.request.kind == NEW && a.sub.request.id == id then 1 else 0
  }

  lemma {:induction false} UsesAddUp(acts: seq<Action>, k: nat, id: int)
    requires k <= |acts|
    ensures Uses(acts[..k], id) <= Uses(acts, id)
  {
    if k < |acts| {
      UsesAddUp(acts[..|acts| - 1], k, id);
      assert acts[..|acts| - 1][..k] == acts[..k];
    } else {
      assert acts[..k] == acts;
    }
  }

  /** No new-order request was counted and no order stored. */
  predicate SameUses(b: Book, b': Book) { b'.used == b.used && b'.orders.Keys == b.orders.Keys }

  lemma SayUses(s: State, ref: nat, o: Order, kind: ResponseType)
    requires ref in s.book.orders
    ensures SameUses(s.book, Put(s, ref, o).book) && SameUses(s.book, Say(s, ref, o, kind).book)
  {
  }

  lemma FinishedUses(s: State, ref: nat, o: Order)
    requires ref in s.book.orders
    ensures SameUses(s.book, Finished(s, ref, o).0.book)
  {
    hide Put, Say;
    SayUses(s, ref, o, CANCELED);
    SayUses(s, ref, o.(done := true), if o.rejected then REJECTED else CANCELED);
  }

  lemma ProgressUses(s: State, p: OrderField, o: Order)
    requires p.ref in s.book.orders
    ensures SameUses(s.book, Progressed(s, p, o).0.book)
  {
    hide Put, Say, Finished, TerminalStatus;
    var refuse := p.submit == CANCEL_REJECTED_STATUS && !o.cancelRejected;
    var o' := if refuse then o.(cancelRejected := true) else o;
    var s' := if refuse then Say(s, p.ref, o', CANCEL_REJECTED) else Put(s, p.ref, o');
    SayUses(s, p.ref, o', CANCEL_REJECTED);
    SayUses(s', p.ref, o'.(accepted := true), ACCEPTED);
    FinishedUses(s', p.ref, o'.(hasTerminal := true, rejected := p.submit == INSERT_REJECTED));
  }

  lemma OrderUses(s: State, p: OrderField)
    ensures SameUses(s.book, OnOrder(s, p).0.book)
  {
    hide Progressed;
    if p.ref in s.book.orders {
      var o := s.book.orders[p.ref];
      var o1 := if p.sys != "" then o.(sys := p.sys) else o;
      ProgressUses(s, p, o1.(reported := Max(o.reported, p.traded)));
    }
  }

  lemma TradeUses(s: State, p: TradeField)
    ensures SameUses(s.book, OnTrade(s, p).0.book)
  {
    hide Answer, GoodTrade;
  }

  lemma ErrorUses(s: State, e: Event)
    ensures SameUses(s.book, OnError(s, e).0.book)
  {
    hide Say, Finished;
    var target := ErrorTarget(s, e);
    if target.Some? {
      assert target.value in s.book.orders;
      var o := s.book.orders[target.value];
      hide ErrorTarget;
      SayUses(s, target.value, o.(cancelRejected := true), CANCEL_REJECTED);
      FinishedUses(s, target.value, o.(rejected := true, hasTerminal := true));
    }
  }

  lemma StageUses(s: State, e: Event, rc: int, marketDay: string)
    ensures SameUses(s.book, OnStage(s, e, rc, marketDay).0.book)
  {
  }

  lemma EventUses(s: State, e: Event, rc: int, marketDay: string)
    ensures SameUses(s.book, OnEvent(s, e, rc, marketDay).0.book)
  {
    hide OnOrder, OnTrade, OnError, OnQuery, OnStage;
    if e.payload.OrderPayload? { OrderUses(s, e.payload.order); }
    if e.payload.TradePayload? { TradeUses(s, e.payload.trade); }
    ErrorUses(s, e);
    StageUses(s, e, rc, marketDay);
  }

  lemma CancelUses(s: State, ref: nat, rc: int)
    requires ref in s.book.orders
    ensures SameUses(s.book, CancelSent(s, ref, rc).book)
  {
  }

  /** An order is stored only for the request that comes. */
  lemma SubmissionUses(s: State, sub: Submission, rc: int)
    ensures var b, r := Submitted(s, sub, rc).book, sub.request;
      && b.used == (if r.kind == NEW then s.book.used + multiset{r.id} else s.book.used)
      && (b.orders.Keys == s.book.orders.Keys
          || (r.kind == NEW && sub.ours && b.orders.Keys == s.book.orders.Keys + {s.book.nextRef + 1}
              && b.orders[s.book.nextRef + 1].request == r))
  {
    hide CancelSent;
    var noted := Noted(s, sub.request);
    var own := OrdersOf(noted.book, sub.request.id);
    if own != {} { CancelUses(noted, First(own), rc); }
  }

  lemma StepUses(s: State, a: Action)
    requires !a.Submit?
    ensures SameUses(s.book, Step(s, a).book)
  {
    hide OnEvent, CancelSent;
    match a {
      case Callback(e, rc, marketDay) => EventUses(s, e, rc, marketDay);
      case CancelForStop(ref, rc) => if ref in s.book.orders { CancelUses(s, ref, rc); }
      case _ =>
    }
  }

  lemma {:induction false} RunUses(instrument: string, acts: seq<Action>, id: int)
    ensures Run(instrument, acts).book.used[id] == Uses(acts, id)
  {
    if acts != [] {
      var before, a := Run(instrument, acts[..|acts| - 1]), acts[|acts| - 1];
      RunUses(instrument, acts[..|acts| - 1], id);
      if a.Submit? { SubmissionUses(before, a.sub, a.rc); } else { StepUses(before, a); }
      hide OnEvent, Submitted, CancelSent, Polled;
    }
  }

  /** What is known of an order whose identifier came in one new-order request only. */
  lemma LifeOf(instrument: string, acts: seq<Action>, ref: nat)
    requires ref in Run(instrument, acts).book.orders
    requires Uses(acts, Run(instrument, acts).book.orders[ref].request.id) <= 1
    ensures var b := Run(instrument, acts).book; OrderlyLife(b.orders[ref], Of(b.log, b.orders[ref].request.id))
  {
    RunKeeps(instrument, acts);
    var b := Run(instrument, acts).book;
    var id := b.orders[ref].request.id;
    RunUses(instrument, acts, id);
    hide Run, Uses, Numbered, OneOpenOrder, Accounted, Started, OrderlyLife, Of, Unheard;
    assert Life(b.orders, b.log, b.used, id);
  }

  /** At most one stored order is not done; the position stays within one lot, is the signed sum of the published
      executions, and is what a participant gets by folding them, all of it in today's lot. */
  lemma PositionIsAccountedFor(instrument: string, acts: seq<Action>)
    ensures var b := Run(instrument, acts).book;
      && (forall i, j :: i in b.orders && j in b.orders && !b.orders[i].done && !b.orders[j].done ==> i == j)
      && -1 <= b.net <= 1 && b.net == NetOf(b.log)
      && Folded(b.log).position == b.net && Folded(b.log).today.qty == Abs(b.net) && Folded(b.log).yesterday.qty == 0
  {
    RunKeeps(instrument, acts);
    hide Run, NetOf, Folded, Numbered, Lives, Started;
  }

  function Terminals(kinds: seq<ResponseType>): nat {
    if kinds == [] then 0 else Terminals(kinds[..|kinds| - 1]) + if Terminal(kinds[|kinds| - 1]) then 1 else 0
  }

  lemma {:induction false} TerminalsOf(kinds: seq<ResponseType>)
    requires NothingAfterTerminal(kinds)
    ensures Terminals(kinds) == if Ended(kinds) then 1 else 0
  {
    if kinds != [] {
      TerminalsOf(kinds[..|kinds| - 1]);
    }
  }

  /** A stored order is done exactly when one FILLED, CANCELED or REJECTED response has been published for it,
      and never more; nothing follows that response; it was ACCEPTED at most once. Only this order's identifier
      must not come in a second new-order request. */
  lemma OrderLifecycle(instrument: string, acts: seq<Action>, ref: nat)
    requires ref in Run(instrument, acts).book.orders
    requires Uses(acts, Run(instrument, acts).book.orders[ref].request.id) <= 1
    ensures var b := Run(instrument, acts).book;
      var kinds := Of(b.log, b.orders[ref].request.id);
      && Terminals(kinds) == (if b.orders[ref].done then 1 else 0)
      && NothingAfterTerminal(kinds)
      && Accepts(kinds) <= 1
  {
    LifeOf(instrument, acts, ref);
    hide Run, Uses;
    var b := Run(instrument, acts).book;
    TerminalsOf(Of(b.log, b.orders[ref].request.id));
  }

  lemma {:induction false} OfPrefix(log: seq<Response>, log': seq<Response>, id: int)
    requires log <= log'
    ensures Of(log, id) <= Of(log', id)
  {
    if |log| == |log'| {
      assert log == log';
    } else {
      OfPrefix(log, log'[..|log'| - 1], id);
    }
  }

  /** Once an order is done, no later run publishes anything under its identifier, unless a new-order request
      uses that again. */
  lemma NothingFollows(instrument: string, acts: seq<Action>, k: nat, ref: nat)
    requires k <= |acts|
    requires var b := Run(instrument, acts[..k]).book;
      ref in b.orders && b.orders[ref].done && Uses(acts, b.orders[ref].request.id) <= 1
    ensures var b, b' := Run(instrument, acts[..k]).book, Run(instrument, acts).book;
      Of(b'.log, b.orders[ref].request.id) == Of(b.log, b.orders[ref].request.id)
  {
    var b, b' := Run(instrument, acts[..k]).book, Run(instrument, acts).book;
    var id := b.orders[ref].request.id;
    RunGrows(instrument, acts, k);
    UsesAddUp(acts, k, id);
    hide Run, Uses;
    LifeOf(instrument, acts[..k], ref);
    LifeOf(instrument, acts, ref);
    OfPrefix(b.log, b'.log, id);
  }

  /** Once an execution has been reported for an open order, only its trade ends it; and if no other new-order
      request carries its identifier, it is never reported canceled or rejected, and when it has ended its trade
      has been published. */
  lemma ReportedIsNeverCanceled(instrument: string, acts: seq<Action>, k: nat, ref: nat)
    requires k <= |acts|
    requires var b := Run(instrument, acts[..k]).book;
      ref in b.orders && !b.orders[ref].done && b.orders[ref].reported > 0
    ensures var b' := Run(instrument, acts).book;
      && ref in b'.orders
      && (b'.orders[ref].done ==> b'.orders[ref].fills > 0)
      && (Uses(acts, b'.orders[ref].request.id) <= 1 ==>
            var kinds := Of(b'.log, b'.orders[ref].request.id);
            CANCELED !in kinds && REJECTED !in kinds && (b'.orders[ref].done ==> FILLED in kinds))
  {
    RunGrows(instrument, acts, k);
    hide Run, Uses;
    var b' := Run(instrument, acts).book;
    if Uses(acts, b'.orders[ref].request.id) <= 1 {
      LifeOf(instrument, acts, ref);
      TerminalIsLast(Of(b'.log, b'.orders[ref].request.id));
    }
  }

  /** Among orderly responses, a terminal one is the last. */
  lemma TerminalIsLast(kinds: seq<ResponseType>)
    requires NothingAfterTerminal(kinds)
    ensures forall k :: k in kinds && Terminal(k) ==> Ended(kinds) && k == kinds[|kinds| - 1]
  {
    forall k | k in kinds && Terminal(k) ensures Ended(kinds) && k == kinds[|kinds| - 1] {
      var i: nat :| i < |kinds| && kinds[i] == k;
      assert i + 1 < |kinds| || i == |kinds| - 1;
    }
  }

  // ----- stopping --------------------------------------------------------------------------------------------

  /** `cancel` would send a cancellation of the order. */
  predicate Cancelable(o: Order, disconnected: bool) { !o.done && !o.hasTerminal && !o.cancelSent && !disconnected }

  /** What one cancellation does to the orders: the cancelable one gets a number, and the others stay. */
  lemma CancelExactly(s: State, ref: nat, rc: int)
    requires ref in s.book.orders
    ensures var s' := CancelSent(s, ref, rc);
      var o := s.book.orders[ref];
      var sends := Cancelable(o, s.disconnected);
      && s'.book.orders == (if sends then s.book.orders[ref := o.(cancelSent := true, cancelId := s'.nextId)]
                            else s.book.orders)
      && s'.nextId == s.nextId + (if sends then 1 else 0)
      && s'.disconnected == s.disconnected && s'.stopping == s.stopping && (s'.fatal <==> s.fatal || (sends && rc != 0))
  {
  }

  /** An order after cancellations of all orders: sent under a number of its own exactly when it was cancelable. */
  predicate Swept(o: Order, o': Order, disconnected: bool, nextId: int, nextId': int) {
    if Cancelable(o, disconnected) then
      o' == o.(cancelSent := true, cancelId := o'.cancelId) && nextId < o'.cancelId <= nextId'
    else o' == o
  }

  /** The cancellations of `refs` have turned `s` into `s'`. */
  ghost predicate SweptAll(s: State, s': State, refs: seq<nat>) {
    && s'.book.orders.Keys == s.book.orders.Keys
    && (forall ref :: ref in refs && ref in s.book.orders ==>
          Swept(s.book.orders[ref], s'.book.orders[ref], s.disconnected, s.nextId, s'.nextId))
    && (forall ref :: ref in s.book.orders && ref !in refs ==> s'.book.orders[ref] == s.book.orders[ref])
    && s'.disconnected == s.disconnected && s'.stopping == s.stopping && s.nextId <= s'.nextId
  }

  lemma SweptOneMore(s: State, s1: State, rest: seq<nat>, ref: nat, rc: int)
    requires SweptAll(s, s1, rest) && ref in s.book.orders && ref !in rest
    ensures ref in s1.book.orders && s1.stopping == s.stopping && SweptAll(s, CancelSent(s1, ref, rc), rest + [ref])
  {
    CancelExactly(s1, ref, rc);
    hide CancelSent;
  }

  /** The cancellations reach exactly the orders named, whatever return codes they get. */
  lemma {:induction false} SweepExactly(s: State, refs: seq<nat>, rcs: map<nat, int>)
    requires s.stopping && (forall ref :: ref in refs ==> ref in s.book.orders)
    requires forall i, j :: 0 <= i < j < |refs| ==> refs[i] != refs[j]
    ensures SweptAll(s, After(s, Cancels(refs, rcs)), refs)
  {
    hide SweptAll, Step, After;
    if refs == [] {
      SweptNone(s, rcs);
    } else {
      var rest, ref := refs[..|refs| - 1], refs[|refs| - 1];
      assert refs == rest + [ref];
      SweepExactly(s, rest, rcs);
      var s1 := After(s, Cancels(rest, rcs));
      AfterOneCancel(s, rest, ref, rcs);
      SweptOneMore(s, s1, rest, ref, Code(rcs, ref));
      StopsBy(s1, ref, Code(rcs, ref));
    }
  }

  lemma SweptNone(s: State, rcs: map<nat, int>)
    ensures SweptAll(s, After(s, Cancels([], rcs)), [])
  {
    hide Step;
  }

  lemma StopsBy(s: State, ref: nat, rc: int)
    requires s.stopping && ref in s.book.orders
    ensures Step(s, CancelForStop(ref, rc)) == CancelSent(s, ref, rc)
  {
    hide CancelSent;
  }
}
