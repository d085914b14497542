/** The SimNow adapter trades only once its start-up is over: the login sequence and the four queries were answered, in
    order, and nothing they showed speaks against trading. */
module SimNowStartup {
  import opened Common
  import opened OrderManager
  import opened SimNowSpec
  import opened SimNowSafety
  import opened Numerals

  const SEQUENCE: seq<Kind> := [AUTH, LOGIN, SETTLEMENT, INSTRUMENT, ACCOUNT, POSITION, ORDER_QUERY]

  // ----- what a run has heard --------------------------------------------------------------------------------

  /** The last part of an answer of this kind, without an error. */
  predicate Confirms(a: Action, kind: Kind) { a.Callback? && a.e.kind == kind && a.e.error == 0 && a.e.last }

  /** The first n stages of the start-up were confirmed one after the other. */
  ghost predicate Confirmed(acts: seq<Action>, n: nat)
    requires n <= |SEQUENCE|
  {
    n == 0 || exists k: nat :: k < |acts| && Confirms(acts[k], SEQUENCE[n - 1]) && Confirmed(acts[..k], n - 1)
  }

  /** An answer showed the configured instrument as one that may be traded, with this tick. */
  predicate ShowsInstrument(a: Action, instrument: string, tick: Tick) {
    a.Callback? && a.e.error == 0 && a.e.payload == InstrumentField(instrument, true, tick)
  }

  ghost predicate InstrumentShown(acts: seq<Action>, instrument: string, tick: Tick) {
    exists k: nat :: k < |acts| && ShowsInstrument(acts[k], instrument, tick)
  }

  predicate ShowsAccount(a: Action) { a.Callback? && a.e.error == 0 && a.e.payload == AccountField(true) }

  ghost predicate AccountShown(acts: seq<Action>) {
    exists k: nat :: k < |acts| && ShowsAccount(acts[k])
  }

  /** The awaited answer to a query. */
  predicate Answers(s: State, a: Action) {
    && a.Callback? && a.e.kind in {INSTRUMENT, ACCOUNT, POSITION, ORDER_QUERY} && a.e.error == 0
    && a.e.kind == s.link.queryKind && a.e.requestId == s.link.queryId && s.link.queryId != 0
  }

  /** Nothing in it speaks against trading: no position, no order still at work, a sound account, and the instrument
      one that may be traded. */
  predicate Clean(p: Payload, instrument: string) {
    match p
    case InstrumentField(id, eligible, _) => id == instrument ==> eligible
    case AccountField(sound) => sound
    case PositionField(empty) => empty
    case OrderPayload(o) => o.status in {ALL_TRADED, CANCELED_STATUS, PART_TRADED_NOT_QUEUEING, NO_TRADE_NOT_QUEUEING}
    case _ => true
  }

  predicate CleanAnswer(a: Action, instrument: string) { a.Callback? ==> Clean(a.e.payload, instrument) }

  ghost predicate AllClean(instrument: string, acts: seq<Action>) {
    forall k: nat :: k < |acts| && Answers(Run(instrument, acts[..k]), acts[k]) ==>
      CleanAnswer(acts[k], instrument)
  }

  // ----- the invariant ---------------------------------------------------------------------------------------

  predicate Quiet(l: Link) { l.queries == [] && l.queryId == 0 && !l.startupDone }

  /** How many of the four queries are not answered. */
  function ToAnswer(l: Link): nat { |l.queries| + if l.queryId != 0 then 1 else 0 }

  /** The queries not answered are the last ones of the sequence. */
  predicate InSequence(l: Link) {
    && ToAnswer(l) <= 4 && l.queries == SEQUENCE[7 - |l.queries|..]
    && (l.queryId != 0 ==> l.queryKind == SEQUENCE[6 - |l.queries|])
  }

  ghost predicate OnePending(requests: map<int, Kind>) {
    && (forall a, b :: a in requests && b in requests ==> a == b)
    && (forall a :: a in requests ==> requests[a] in {AUTH, LOGIN, SETTLEMENT})
  }

  ghost predicate Pending(requests: map<int, Kind>, kind: Kind) {
    exists id :: id in requests && requests[id] == kind
  }

  ghost predicate InOrder(l: Link) {
    && OnePending(l.requests) && (!l.connected ==> l.requests == map[])
    && (!l.connected || l.requests != map[] ==> Quiet(l))
    && (!l.startupDone && !Quiet(l) ==> InSequence(l))
  }

  /** How many stages are confirmed. */
  ghost function Stages(l: Link): (n: int) {
    if l.startupDone then 7
    else if !Quiet(l) then 7 - ToAnswer(l)
    else if Pending(l.requests, SETTLEMENT) then 2
    else if Pending(l.requests, LOGIN) then 1
    else 0
  }

  /** What the link takes for seen was shown, at the latest when the query for it is answered. */
  ghost predicate Shown(l: Link, instrument: string, acts: seq<Action>) {
    && (l.instrumentSeen ==> l.tick.Some? && InstrumentShown(acts, instrument, l.tick.value))
    && (l.accountSeen ==> AccountShown(acts))
    && (Stages(l) >= 4 ==> l.instrumentSeen)
    && (Stages(l) >= 5 ==> AccountShown(acts))
  }

  /** An action makes nothing seen but what it shows, and the stages that need it pass only with it. */
  ghost predicate Shows(l: Link, l': Link, instrument: string, a: Action) {
    && (l.instrumentSeen ==> l'.instrumentSeen)
    && (l'.instrumentSeen ==> (l.instrumentSeen && l'.tick == l.tick)
                              || (l'.tick.Some? && ShowsInstrument(a, instrument, l'.tick.value)))
    && (l'.accountSeen ==> l.accountSeen || ShowsAccount(a))
    && (Stages(l') >= 4 > Stages(l) ==> l'.instrumentSeen)
    && (Stages(l') >= 5 > Stages(l) ==> l'.accountSeen)
  }

  /** An action leaves the stage as it is, takes it back to the start, or confirms the next one. */
  ghost predicate Advances(l: Link, l': Link, instrument: string, a: Action) {
    && InOrder(l') && Shows(l, l', instrument, a)
    && (Stages(l') in {0, Stages(l)}
        || (0 <= Stages(l) < 7 && Stages(l') == Stages(l) + 1 && Confirms(a, SEQUENCE[Stages(l)])))
  }

  lemma {:induction false} ConfirmedStill(acts: seq<Action>, a: Action, n: nat)
    requires n <= |SEQUENCE| && Confirmed(acts, n)
    ensures Confirmed(acts + [a], n)
  {
    if n > 0 {
      var k: nat :| k < |acts| && Confirms(acts[k], SEQUENCE[n - 1]) && Confirmed(acts[..k], n - 1);
      assert (acts + [a])[k] == acts[k] && (acts + [a])[..k] == acts[..k];
    }
  }

  lemma ConfirmedNext(acts: seq<Action>, a: Action, n: nat)
    requires n < |SEQUENCE| && Confirmed(acts, n) && Confirms(a, SEQUENCE[n])
    ensures Confirmed(acts + [a], n + 1)
  {
    assert (acts + [a])[|acts|] == a && (acts + [a])[..|acts|] == acts;
  }

  lemma ShownStill(l: Link, l': Link, instrument: string, acts: seq<Action>, a: Action)
    requires Shown(l, instrument, acts) && Shows(l, l', instrument, a)
    ensures Shown(l', instrument, acts + [a])
  {
    hide Stages, ShowsInstrument, ShowsAccount;
    assert (acts + [a])[|acts|] == a;
    if l.instrumentSeen {
      var k: nat :| k < |acts| && ShowsInstrument(acts[k], instrument, l.tick.value);
      assert (acts + [a])[k] == acts[k];
    }
    if AccountShown(acts) {
      var k: nat :| k < |acts| && ShowsAccount(acts[k]);
      assert (acts + [a])[k] == acts[k];
    }
  }

  // ----- steps -----------------------------------------------------------------------------------------------

  /** What the answers showed is still the same. */
  predicate SameData(l: Link, l': Link) {
    l'.tick == l.tick && l'.instrumentSeen == l.instrumentSeen && l'.accountSeen == l.accountSeen
  }

  lemma StaysPut(l: Link, instrument: string, a: Action)
    requires InOrder(l)
    ensures Advances(l, l, instrument, a)
  {
    hide InOrder;
  }

  lemma Tail(i: nat)
    requires i < |SEQUENCE|
    ensures SEQUENCE[i..][0] == SEQUENCE[i] && SEQUENCE[i..][1..] == SEQUENCE[i + 1..]
  {
  }

  /** The same stage, or back at the start. */
  lemma SameStageAdvances(l: Link, l': Link, instrument: string, a: Action)
    requires InOrder(l') && Stages(l') in {0, Stages(l)} && l'.tick == l.tick
    requires l'.instrumentSeen == l.instrumentSeen && (l'.accountSeen ==> l.accountSeen)
    ensures Advances(l, l', instrument, a)
  {
    hide Stages, InOrder, ShowsInstrument, ShowsAccount, Confirms;
  }

  /** The next stage of the login sequence. */
  lemma NextStageAdvances(l: Link, l': Link, instrument: string, a: Action)
    requires InOrder(l') && 0 <= Stages(l) < 3 && Stages(l') == Stages(l) + 1 && SameData(l, l')
    requires Confirms(a, SEQUENCE[Stages(l)])
    ensures Advances(l, l', instrument, a)
  {
    hide Stages, InOrder, ShowsInstrument, ShowsAccount, Confirms;
  }

  lemma QueriedAdvances(l: Link, number: int, poll: Poll, instrument: string, a: Action)
    requires InOrder(l) && l.queries != [] && l.queryId == 0 && number > 0
    ensures Advances(l, Queried(l, number, poll).0, instrument, a)
  {
    hide Advances, InOrder, Stages;
    if l.startupDone { QueriedLater(l, number, poll); } else { QueriedAtStart(l, number, poll); }
    SameStageAdvances(l, Queried(l, number, poll).0, instrument, a);
  }

  lemma QueriedLater(l: Link, number: int, poll: Poll)
    requires InOrder(l) && l.queries != [] && l.startupDone
    ensures var l' := Queried(l, number, poll).0; InOrder(l') && Stages(l') == Stages(l)
  {
    hide OnePending, Pending, InSequence;
  }

  lemma QueriedAtStart(l: Link, number: int, poll: Poll)
    requires InOrder(l) && l.queries != [] && l.queryId == 0 && number > 0 && !l.startupDone
    ensures var l' := Queried(l, number, poll).0; InOrder(l') && Stages(l') == Stages(l)
  {
    hide InOrder, Stages;
    if poll.rc == -2 || poll.rc == -3 {
      PutBack(l, Queried(l, number, poll).0);
    } else {
      GoesOut(l, Queried(l, number, poll).0);
    }
  }

  lemma PutBack(l: Link, l': Link)
    requires InOrder(l) && l.queryId == 0 && l'.queryId == 0 && l'.queries == l.queries
    requires l'.connected == l.connected && l'.requests == l.requests && l'.startupDone == l.startupDone
    ensures InOrder(l') && Stages(l') == Stages(l)
  {
    hide OnePending, Pending;
  }

  lemma GoesOut(l: Link, l': Link)
    requires InOrder(l) && l.queries != [] && l.queryId == 0 && l'.queryId != 0 && !l.startupDone
    requires l'.queryKind == l.queries[0] && l'.queries == l.queries[1..]
    requires l'.connected == l.connected && l'.requests == l.requests && l'.startupDone == l.startupDone
    ensures InOrder(l') && Stages(l') == Stages(l)
  {
    hide OnePending, Pending;
    Tail(7 - |l.queries|);
  }

  lemma QueueStaysPut(l: Link, poll: Poll)
    requires InOrder(l)
    ensures var l' := AccountQueued(l, poll); InOrder(l') && Stages(l') == Stages(l) && SameData(l, l')
  {
    hide OnePending, Pending;
  }

  lemma AdvancesFrom(l: Link, l1: Link, l2: Link, instrument: string, a: Action)
    requires Stages(l1) == Stages(l) && SameData(l, l1) && Advances(l1, l2, instrument, a)
    ensures Advances(l, l2, instrument, a)
  {
    hide Stages, InOrder, ShowsInstrument, ShowsAccount, Confirms;
  }

  lemma PollAdvances(s: State, poll: Poll, a: Action)
    requires InOrder(s.link) && s.nextId >= 0
    ensures Advances(s.link, Polled(s, poll).link, s.instrument, a)
  {
    hide Queried, InOrder, Stages, AccountQueued, SameData, Advances;
    var l := AccountQueued(s.link, poll);
    QueueStaysPut(s.link, poll);
    StaysPut(s.link, s.instrument, a);
    StaysPut(l, s.instrument, a);
    AdvancesFrom(s.link, l, l, s.instrument, a);
    if l.queryId == 0 && l.queries != [] {
      QueriedAdvances(l, s.nextId + 1, poll, s.instrument, a);
      AdvancesFrom(s.link, l, Queried(l, s.nextId + 1, poll).0, s.instrument, a);
    }
  }

  /** A request of the login sequence goes out when none is pending. */
  lemma RequestPends(s: State, kind: Kind, rc: int)
    requires s.link.connected && s.link.requests == map[] && Quiet(s.link) && kind in {AUTH, LOGIN, SETTLEMENT}
    ensures InOrder(Requested(s, kind, rc).0.link) && SameData(s.link, Requested(s, kind, rc).0.link)
    ensures Stages(Requested(s, kind, rc).0.link) == if kind == LOGIN then 1 else if kind == SETTLEMENT then 2 else 0
  {
    var l := Requested(s, kind, rc).0.link;
    assert l.requests == map[s.nextId + 1 := kind];
    assert l.requests[s.nextId + 1] == kind;
  }

  lemma NothingPends(l: Link)
    requires l.requests == map[] && Quiet(l)
    ensures InOrder(l) && Stages(l) == 0
  {
  }

  lemma LoginPends(s: State, p: Payload, rc: int, marketDay: string)
    requires s.link.connected && s.link.requests == map[] && Quiet(s.link)
    ensures InOrder(LoggedIn(s, p, rc, marketDay).0.link) && SameData(s.link, LoggedIn(s, p, rc, marketDay).0.link)
    ensures Stages(LoggedIn(s, p, rc, marketDay).0.link) in {0, 2}
  {
    hide InOrder, Requested;
    NothingPends(s.link);
    if p.LoginField? && p.day != "" && p.maxRef.Some? {
      RequestPends(s.(front := p.front, session := p.session, day := p.day,
                      book := s.book.(nextRef := p.maxRef.value)), SETTLEMENT, rc);
    }
  }

  /** The pending request of the login sequence was the only one. */
  lemma OnlyPending(l: Link, id: int)
    requires InOrder(l) && id in l.requests
    ensures l.connected && l.requests - {id} == map[] && Quiet(l)
    ensures Stages(l) == if l.requests[id] == SETTLEMENT then 2 else if l.requests[id] == LOGIN then 1 else 0
  {
    assert forall a :: a in l.requests ==> a == id;
    assert forall a :: a !in l.requests - {id};
  }

  /** The awaited stage of the login sequence is over, and the next one is asked for. */
  lemma StageAdvances(s: State, e: Event, rc: int, marketDay: string)
    requires InOrder(s.link) && e.kind in {AUTH, LOGIN, SETTLEMENT} && e.error == 0
    ensures Advances(s.link, OnStage(s, e, rc, marketDay).0.link, s.instrument, Callback(e, rc, marketDay))
  {
    hide Requested, LoggedIn, Stages, InOrder, Advances;
    var a := Callback(e, rc, marketDay);
    StaysPut(s.link, s.instrument, a);
    if e.requestId in s.link.requests && s.link.requests[e.requestId] == e.kind && e.last {
      OnlyPending(s.link, e.requestId);
      var s' := s.(link := s.link.(requests := map[]));
      match e.kind {
        case AUTH =>
          RequestPends(s', LOGIN, rc);
          NextStageAdvances(s.link, Requested(s', LOGIN, rc).0.link, s.instrument, a);
        case LOGIN =>
          LoginPends(s', e.payload, rc, marketDay);
          var l := LoggedIn(s', e.payload, rc, marketDay).0.link;
          if Stages(l) == 0 {
            SameStageAdvances(s.link, l, s.instrument, a);
          } else {
            NextStageAdvances(s.link, l, s.instrument, a);
          }
        case _ =>
          QueriesWait(s'.link);
          NextStageAdvances(s.link, s'.link.(queries := [INSTRUMENT, ACCOUNT, POSITION, ORDER_QUERY]), s.instrument, a);
      }
    }
  }

  lemma QueriesWait(l: Link)
    requires l.connected && l.requests == map[] && Quiet(l)
    ensures var l' := l.(queries := [INSTRUMENT, ACCOUNT, POSITION, ORDER_QUERY]); InOrder(l') && Stages(l') == 3
  {
    assert [INSTRUMENT, ACCOUNT, POSITION, ORDER_QUERY] == SEQUENCE[3..];
  }

  lemma PayloadKeeps(l: Link, instrument: string, p: Payload)
    ensures var l' := OnQueryPayload(l, instrument, p).0;
      l' == l.(tick := l'.tick, instrumentSeen := l'.instrumentSeen, accountUsable := l'.accountUsable,
               accountSeen := l'.accountSeen)
  {
  }

  /** A payload lets nothing be seen but what it shows. */
  lemma PayloadShows(l: Link, instrument: string, e: Event, rc: int, marketDay: string)
    requires e.error == 0
    ensures var l', a := OnQueryPayload(l, instrument, e.payload).0, Callback(e, rc, marketDay);
      && (l.instrumentSeen ==> l'.instrumentSeen)
      && (l'.instrumentSeen ==> (l.instrumentSeen && l'.tick == l.tick)
                                || (l'.tick.Some? && ShowsInstrument(a, instrument, l'.tick.value)))
      && (l'.accountSeen ==> l.accountSeen || ShowsAccount(a))
  {
  }

  /** The awaited query is answered, and the next one may be asked. */
  lemma QueryAdvances(l: Link, instrument: string, e: Event, rc: int, marketDay: string)
    requires InOrder(l) && e.error == 0
    ensures Advances(l, OnQuery(l, instrument, e).0, instrument, Callback(e, rc, marketDay))
  {
    hide OnQueryPayload, Pending, OnePending, ShowsInstrument, ShowsAccount;
    PayloadKeeps(l, instrument, e.payload);
    PayloadShows(l, instrument, e, rc, marketDay);
  }

  /** An account that could not be read again leaves the start-up where it was. */
  lemma PausedAdvances(l: Link, instrument: string, a: Action)
    requires InOrder(l) && l.startupDone
    ensures Advances(l, l.(queryId := 0, accountUsable := false), instrument, a)
  {
  }

  lemma ConnectAdvances(s: State, rc: int, a: Action)
    requires InOrder(s.link) && !s.link.connected
    ensures Advances(s.link, Requested(s.(link := s.link.(connected := true)), AUTH, rc).0.link, s.instrument, a)
  {
    hide Requested, Stages, ShowsInstrument, ShowsAccount;
    NothingPends(s.link);
    RequestPends(s.(link := s.link.(connected := true)), AUTH, rc);
    hide InOrder;
  }

  // ----- callbacks about orders ------------------------------------------------------------------------------

  /** The configuration stays, and so does a failure. */
  predicate Stays(s: State, s': State) { s'.instrument == s.instrument && (s.fatal ==> s'.fatal) }

  predicate LinkKept(s: State, s': State) { s'.link == s.link && Stays(s, s') }

  lemma OrderKeepsLink(s: State, p: OrderField)
    ensures LinkKept(s, OnOrder(s, p).0)
  {
    hide Progressed;
    if p.ref in s.book.orders {
      var o := s.book.orders[p.ref];
      ProgressKeepsLink(s, p, (if p.sys != "" then o.(sys := p.sys) else o).(reported := Max(o.reported, p.traded)));
    }
  }

  lemma ProgressKeepsLink(s: State, p: OrderField, o: Order)
    ensures LinkKept(s, Progressed(s, p, o).0)
  {
    hide Finished, Put, Say;
    var refuse := p.submit == CANCEL_REJECTED_STATUS && !o.cancelRejected;
    var o1 := if refuse then o.(cancelRejected := true) else o;
    var s1 := if refuse then Say(s, p.ref, o1, CANCEL_REJECTED) else Put(s, p.ref, o1);
    SayingKeepsLink(s, p.ref, o1, CANCEL_REJECTED);
    SayingKeepsLink(s1, p.ref, o1.(accepted := true), ACCEPTED);
    FinishedKeepsLink(s1, p.ref, o1.(hasTerminal := true, rejected := p.submit == INSERT_REJECTED));
  }

  lemma SayingKeepsLink(s: State, ref: nat, o: Order, kind: ResponseType)
    ensures LinkKept(s, Put(s, ref, o)) && LinkKept(s, Say(s, ref, o, kind))
  {
  }

  lemma FinishedKeepsLink(s: State, ref: nat, o: Order)
    ensures LinkKept(s, Finished(s, ref, o).0)
  {
  }

  lemma TradeKeepsLink(s: State, p: TradeField)
    ensures LinkKept(s, OnTrade(s, p).0)
  {
    hide KnownTrade, GoodTrade;
  }

  lemma ErrorKeepsLink(s: State, e: Event)
    ensures LinkKept(s, OnError(s, e).0)
  {
    hide ErrorTarget;
  }

  lemma SubmissionKeepsLink(s: State, sub: Submission, rc: int)
    ensures LinkKept(s, Submitted(s, sub, rc))
  {
  }

  predicate AboutOrders(kind: Kind) { kind in {ORDER, TRADE, INSERT_ERROR, CANCEL_ERROR} }

  lemma OrderEventKeepsLink(s: State, e: Event, rc: int, marketDay: string)
    requires AboutOrders(e.kind)
    ensures LinkKept(s, OnEvent(s, e, rc, marketDay).0)
  {
    hide OnOrder, OnTrade, OnError;
    if e.payload.OrderPayload? { OrderKeepsLink(s, e.payload.order); }
    if e.payload.TradePayload? { TradeKeepsLink(s, e.payload.trade); }
    ErrorKeepsLink(s, e);
  }

  lemma EventAdvances(s: State, e: Event, rc: int, marketDay: string)
    requires InOrder(s.link)
    ensures Advances(s.link, OnEvent(s, e, rc, marketDay).0.link, s.instrument, Callback(e, rc, marketDay))
  {
    hide OnOrder, OnTrade, OnError, OnQuery, OnStage, Requested, InOrder, Advances;
    var a := Callback(e, rc, marketDay);
    StaysPut(s.link, s.instrument, a);
    if AboutOrders(e.kind) {
      OrderEventKeepsLink(s, e, rc, marketDay);
    } else if e.error != 0 {
      if s.link.startupDone { PausedAdvances(s.link, s.instrument, a); }
    } else if e.kind in {AUTH, LOGIN, SETTLEMENT} {
      StageAdvances(s, e, rc, marketDay);
    } else if e.kind == CONNECTED {
      if !s.link.connected { ConnectAdvances(s, rc, a); }
    } else {
      QueryAdvances(s.link, s.instrument, e, rc, marketDay);
    }
  }

  lemma StepAdvances(s: State, a: Action)
    requires InOrder(s.link) && s.nextId >= 0
    ensures Advances(s.link, Step(s, a).link, s.instrument, a)
  {
    hide InOrder, Advances, Submitted, OnEvent, Polled, CancelSent;
    StaysPut(s.link, s.instrument, a);
    match a {
      case Submit(sub, rc) => SubmissionKeepsLink(s, sub, rc);
      case Callback(e, rc, marketDay) => EventAdvances(s, e, rc, marketDay);
      case PollTail(poll) => PollAdvances(s, poll, a);
      case CancelForStop(ref, rc) => if ref in s.book.orders { CancelKeepsLink(s, ref, rc); }
      case _ =>
    }
  }

  lemma StageStays(s: State, e: Event, rc: int, marketDay: string)
    ensures Stays(s, OnStage(s, e, rc, marketDay).0)
    ensures !s.link.connected ==> Stays(s, Requested(s.(link := s.link.(connected := true)), AUTH, rc).0)
  {
  }

  lemma EventStays(s: State, e: Event, rc: int, marketDay: string)
    ensures Stays(s, OnEvent(s, e, rc, marketDay).0)
  {
    hide OnOrder, OnTrade, OnError, OnQuery, OnStage, Requested;
    if AboutOrders(e.kind) { OrderEventKeepsLink(s, e, rc, marketDay); }
    StageStays(s, e, rc, marketDay);
  }

  lemma PollStays(s: State, poll: Poll)
    ensures Stays(s, Polled(s, poll))
  {
    hide AccountQueued, Queried;
  }

  lemma StepStays(s: State, a: Action)
    ensures Stays(s, Step(s, a))
  {
    hide Submitted, OnEvent, Polled, CancelSent;
    match a {
      case Submit(sub, rc) => SubmissionKeepsLink(s, sub, rc);
      case Callback(e, rc, marketDay) => EventStays(s, e, rc, marketDay);
      case PollTail(poll) => PollStays(s, poll);
      case CancelForStop(ref, rc) => if ref in s.book.orders { CancelKeepsLink(s, ref, rc); }
      case _ =>
    }
  }

  lemma CancelKeepsLink(s: State, ref: nat, rc: int)
    requires ref in s.book.orders
    ensures LinkKept(s, CancelSent(s, ref, rc))
  {
  }

  /** Whatever the adapter has reached in its start-up was confirmed, stage by stage. */
  lemma {:induction false} RunConfirmed(instrument: string, acts: seq<Action>)
    ensures InOrder(Run(instrument, acts).link) && 0 <= Stages(Run(instrument, acts).link) <= 7
    ensures Confirmed(acts, Stages(Run(instrument, acts).link))
  {
    hide Step, InOrder, Stages, Confirms, Inv;
    if acts == [] {
      InitialStage(instrument);
    } else {
      var before, a := acts[..|acts| - 1], acts[|acts| - 1];
      assert acts == before + [a];
      RunConfirmed(instrument, before);
      RunKeeps(instrument, before);
      var s := Run(instrument, before);
      InvNumbers(s);
      StepAdvances(s, a);
      ConfirmedStill(before, a, Stages(s.link));
      if Stages(s.link) < 7 && Confirms(a, SEQUENCE[Stages(s.link)]) { ConfirmedNext(before, a, Stages(s.link)); }
    }
  }

  lemma InvNumbers(s: State)
    requires Inv(s)
    ensures s.nextId >= 0 && (s.ready ==> s.link.startupDone)
  {
    hide Ledger;
  }

  lemma InitialStage(instrument: string)
    ensures InOrder(Initial(instrument).link) && Stages(Initial(instrument).link) == 0
  {
  }

  /** And what it takes for seen was shown. */
  lemma {:induction false} RunShown(instrument: string, acts: seq<Action>)
    ensures Shown(Run(instrument, acts).link, instrument, acts) && Run(instrument, acts).instrument == instrument
  {
    hide Step, InOrder, Stages, Inv, Confirmed, Shown, Shows;
    if acts == [] {
      InitialShown(instrument);
    } else {
      var before, a := acts[..|acts| - 1], acts[|acts| - 1];
      assert acts == before + [a];
      RunShown(instrument, before);
      RunConfirmed(instrument, before);
      RunKeeps(instrument, before);
      var s := Run(instrument, before);
      InvNumbers(s);
      StepAdvances(s, a);
      StepStays(s, a);
      ShownStill(s.link, Step(s, a).link, instrument, before, a);
    }
  }

  lemma InitialShown(instrument: string)
    ensures Shown(Initial(instrument).link, instrument, []) && Initial(instrument).instrument == instrument
  {
    InitialStage(instrument);
  }

  // ----- answers that speak against trading ------------------------------------------------------------------

  lemma BadAnswerFails(s: State, a: Action)
    requires Answers(s, a) && !CleanAnswer(a, s.instrument)
    ensures Step(s, a).fatal
  {
  }

  /** As long as the adapter has not failed, no awaited answer spoke against trading. */
  lemma {:induction false} RunIsClean(instrument: string, acts: seq<Action>)
    requires !Run(instrument, acts).fatal
    ensures AllClean(instrument, acts)
  {
    hide Step, Answers, CleanAnswer;
    if acts != [] {
      var n := |acts| - 1;
      var s := Run(instrument, acts[..n]);
      StepStays(s, acts[n]);
      RunIsClean(instrument, acts[..n]);
      RunShown(instrument, acts[..n]);
      forall k: nat | k < |acts| && Answers(Run(instrument, acts[..k]), acts[k])
        ensures CleanAnswer(acts[k], instrument)
      {
        if k < n {
          assert acts[..n][..k] == acts[..k] && acts[..n][k] == acts[k];
        } else if !CleanAnswer(acts[n], instrument) {
          BadAnswerFails(s, acts[n]);
        }
      }
    }
  }

  // ----- trading only after the start-up ---------------------------------------------------------------------

  /** The start-up is over, and what it showed lets the instrument be traded with this tick. */
  ghost predicate Verified(instrument: string, acts: seq<Action>, tick: Tick) {
    && Confirmed(acts, 7) && InstrumentShown(acts, instrument, tick) && AccountShown(acts) && AllClean(instrument, acts)
  }

  /** An adapter that says it is ready, and has not failed, has been through the whole start-up. */
  lemma ReadyIsVerified(instrument: string, acts: seq<Action>)
    requires Run(instrument, acts).ready && !Run(instrument, acts).fatal
    ensures var tick := Run(instrument, acts).link.tick; tick.Some? && Verified(instrument, acts, tick.value)
  {
    hide Run, InOrder, Confirmed, InstrumentShown, AccountShown, AllClean, Inv;
    RunKeeps(instrument, acts);
    InvNumbers(Run(instrument, acts));
    RunConfirmed(instrument, acts);
    RunShown(instrument, acts);
    RunIsClean(instrument, acts);
  }

  /** An order is stored, and so sent, only after the whole start-up, at a positive multiple of the tick shown. */
  lemma OrderOnlyAfterStartup(instrument: string, acts: seq<Action>, sub: Submission, rc: int)
    requires var s := Run(instrument, acts); Step(s, Submit(sub, rc)).book.orders.Keys != s.book.orders.Keys
    ensures var tick := Run(instrument, acts).link.tick;
      tick.Some? && Verified(instrument, acts, tick.value)
      && sub.request.price > 0 && sub.request.price % tick.value == 0
  {
    hide Run, Verified;
    StoringIsReady(Run(instrument, acts), sub, rc);
    ReadyIsVerified(instrument, acts);
  }

  /** Only an acceptable order is stored. */
  lemma StoringIsAcceptable(s: State, sub: Submission, rc: int)
    requires Submitted(s, sub, rc).book.orders.Keys != s.book.orders.Keys
    ensures Acceptable(Noted(s, sub.request), sub)
  {
    hide Acceptable, Inserted, CancelSent, Noted;
    var noted := Noted(s, sub.request);
    assert noted.book.orders == s.book.orders by { NotingKeeps(s, sub.request); }
    if sub.request.kind == CANCEL_ORDER && OrdersOf(noted.book, sub.request.id) != {} {
      CancelKeepsKeys(noted, First(OrdersOf(noted.book, sub.request.id)), rc);
    }
  }

  lemma NotingKeeps(s: State, q: Request)
    ensures Noted(s, q).book.orders == s.book.orders
  {
  }

  lemma CancelKeepsKeys(s: State, ref: nat, rc: int)
    requires ref in s.book.orders
    ensures CancelSent(s, ref, rc).book.orders.Keys == s.book.orders.Keys
  {
  }

  lemma StoringIsReady(s: State, sub: Submission, rc: int)
    requires Step(s, Submit(sub, rc)).book.orders.Keys != s.book.orders.Keys
    ensures s.ready && !s.fatal && s.link.tick.Some?
    ensures sub.request.price > 0 && sub.request.price % s.link.tick.value == 0
  {
    hide Submitted, Outstanding;
    StoringIsAcceptable(s, sub, rc);
  }

  // ----- the answers -----------------------------------------------------------------------------------------

  /** The login names a session of the trading day the market data are of, if that is known. */
  predicate GoodLogin(p: Payload, marketDay: string) {
    p.LoginField? && p.day != "" && (marketDay == "" || marketDay == p.day) && p.maxRef.Some?
  }

  /** The awaited answer to a login is taken exactly if it names such a session and settlement can be asked for; the
      session is that of the answer, and orders are numbered on from its last reference. */
  lemma LoginExact(s: State, e: Event, rc: int, marketDay: string)
    requires !s.fatal && Confirms(Callback(e, rc, marketDay), LOGIN)
    requires e.requestId in s.link.requests && s.link.requests[e.requestId] == LOGIN
    ensures var s' := Step(s, Callback(e, rc, marketDay));
      && (!s'.fatal <==> GoodLogin(e.payload, marketDay) && rc == 0)
      && (!s'.fatal ==>
            && s'.front == e.payload.front && s'.session == e.payload.session && s'.day == e.payload.day
            && s'.book == s.book.(nextRef := e.payload.maxRef.value) && s'.nextId == s.nextId + 1
            && s'.link.requests == (s.link.requests - {e.requestId})[s'.nextId := SETTLEMENT])
  {
  }

  /** An answer to a query was needed and did not come. */
  predicate Missing(l: Link, e: Event, instrument: string) {
    && e.last
    && ((e.kind == INSTRUMENT && !l.instrumentSeen
         && !(e.payload.InstrumentField? && e.payload.instrument == instrument))
        || (e.kind == ACCOUNT && !l.accountSeen && !e.payload.AccountField?))
  }

  /** The awaited answer to a query is taken exactly if it does not speak against trading and what it had to bring has
      come by its end. The last part of the last one ends the start-up. */
  lemma QueryExact(s: State, a: Action)
    requires !s.fatal && Answers(s, a)
    ensures var s' := Step(s, a);
      && (!s'.fatal <==> Clean(a.e.payload, s.instrument) && !Missing(s.link, a.e, s.instrument))
      && (!s'.fatal ==>
            && s'.link.startupDone == (s.link.startupDone || (a.e.last && a.e.kind == ORDER_QUERY))
            && s'.link.queryId == (if a.e.last then 0 else s.link.queryId)
            && s'.link.queries == s.link.queries && s'.book == s.book && s'.ready == s.ready
            && s'.link.accountUsable == (s.link.accountUsable || a.e.payload.AccountField?)
            && s'.link.tick == (if a.e.payload.InstrumentField? && a.e.payload.instrument == s.instrument then
                                  Some(a.e.payload.tick) else s.link.tick))
  {
    hide OnQuery, Clean, Missing;
    AnswerExact(s, a);
    LinkExact(s.link, s.instrument, a.e);
  }

  /** The same of the link alone. */
  lemma LinkExact(l: Link, instrument: string, e: Event)
    requires e.kind == l.queryKind && e.requestId == l.queryId && l.queryId != 0
    ensures var (l', ok) := OnQuery(l, instrument, e);
      && (ok <==> Clean(e.payload, instrument) && !Missing(l, e, instrument))
      && (ok ==>
            && l'.startupDone == (l.startupDone || (e.last && e.kind == ORDER_QUERY))
            && l'.queryId == (if e.last then 0 else l.queryId) && l'.queries == l.queries
            && l'.accountUsable == (l.accountUsable || e.payload.AccountField?)
            && l'.tick == (if e.payload.InstrumentField? && e.payload.instrument == instrument then
                             Some(e.payload.tick) else l.tick))
  {
    hide OnQueryPayload, Clean;
    PayloadKeeps(l, instrument, e.payload);
    PayloadExact(l, instrument, e.payload);
  }

  lemma AnswerExact(s: State, a: Action)
    requires !s.fatal && Answers(s, a)
    ensures var (l, ok) := OnQuery(s.link, s.instrument, a.e);
      Step(s, a) == if ok then s.(link := l) else Failed(s.(link := l))
  {
    hide OnQuery;
  }

  lemma PayloadExact(l: Link, instrument: string, p: Payload)
    ensures var (l', ok) := OnQueryPayload(l, instrument, p);
      && (ok <==> Clean(p, instrument))
      && (ok ==>
            && l'.accountUsable == (l.accountUsable || p.AccountField?)
            && l'.accountSeen == (l.accountSeen || p.AccountField?)
            && l'.instrumentSeen == (l.instrumentSeen || (p.InstrumentField? && p.instrument == instrument))
            && l'.tick == if p.InstrumentField? && p.instrument == instrument then Some(p.tick) else l.tick)
  {
  }

  /** An error ends trading, unless it is that of the account query asked after the start-up; then only the account
      does not count until it is read again. */
  lemma FailedAnswerExact(s: State, e: Event, rc: int, marketDay: string)
    requires !s.fatal && e.error != 0
    requires e.kind in {AUTH, LOGIN, SETTLEMENT, INSTRUMENT, ACCOUNT, POSITION, ORDER_QUERY}
    ensures var s' := Step(s, Callback(e, rc, marketDay));
      if s.link.startupDone && e.requestId == s.link.queryId && s.link.queryId != 0 && s.link.queryKind == ACCOUNT then
        !s'.fatal && !s'.ready && s'.link.queryId == 0 && !s'.link.accountUsable && s'.book == s.book
      else s'.fatal && !s'.ready && s'.book == s.book
  {
  }

  // ----- the poll --------------------------------------------------------------------------------------------

  /** A query is due: none is under way, the pace allows one, and one waits or the account is to be read again. */
  predicate QueryDue(s: State, poll: Poll) {
    s.link.queryId == 0 && poll.queryDue && (s.link.queries != [] || (s.link.startupDone && poll.accountDue))
  }

  /** The query that is due. */
  function DueQuery(l: Link): Kind { if l.queries != [] then l.queries[0] else ACCOUNT }

  /** One poll of an adapter that works fails exactly when the query under way is late or the one due cannot be sent.
      The adapter is ready exactly when its start-up is over, quotes come in and the account is known. */
  lemma PollExact(s: State, poll: Poll)
    requires !s.fatal && !s.stopping
    ensures var s' := Step(s, PollTail(poll));
      && (s'.fatal <==> (s.link.queryId != 0 && poll.timedOut) || (QueryDue(s, poll) && poll.rc !in {0, -2, -3}))
      && (s'.ready <==> !s'.fatal && s.link.startupDone && poll.marketReady && s'.link.accountUsable)
      && s'.book == s.book && s'.link.startupDone == s.link.startupDone
  {
    hide Queried, AccountQueued;
    var l := AccountQueued(s.link, poll);
    QueueExact(s.link, poll);
    if QueryDue(s, poll) { QueriedExact(l, s.nextId + 1, poll); }
  }

  /** A query due goes out under the next number, or waits on when the transport is busy, and then an account read
      before does not count any more. */
  lemma PollAsks(s: State, poll: Poll)
    requires !s.fatal && !s.stopping && !Step(s, PollTail(poll)).fatal && QueryDue(s, poll)
    ensures var l, s' := s.link, Step(s, PollTail(poll)); var l' := s'.link;
      if poll.rc == 0 then
        && l'.queryId == s'.nextId == s.nextId + 1 && l'.queryKind == DueQuery(l)
        && l'.queries == (if l.queries == [] then [] else l.queries[1..]) && l'.accountUsable == l.accountUsable
      else
        && l'.queryId == 0 && l'.queries == (if l.queries == [] then [ACCOUNT] else l.queries)
        && l'.accountUsable == (l.accountUsable && !l.startupDone)
  {
    hide Queried, AccountQueued;
    QueueExact(s.link, poll);
    QueriedExact(AccountQueued(s.link, poll), s.nextId + 1, poll);
  }

  /** Without a query due nothing is asked. */
  lemma PollWaits(s: State, poll: Poll)
    requires !s.fatal && !s.stopping && !Step(s, PollTail(poll)).fatal && !QueryDue(s, poll)
    ensures var l, s' := s.link, Step(s, PollTail(poll)); var l' := s'.link;
      l'.queryId == l.queryId && l'.accountUsable == l.accountUsable && s'.nextId == s.nextId
  {
    hide Queried, AccountQueued;
    QueueExact(s.link, poll);
  }

  lemma QueueExact(l: Link, poll: Poll)
    ensures var l' := AccountQueued(l, poll);
      l' == l.(queries := if l.queries == [] && l.queryId == 0 && l.startupDone && poll.accountDue then [ACCOUNT]
                          else l.queries)
  {
  }

  lemma QueriedExact(l: Link, number: int, poll: Poll)
    requires l.queries != []
    ensures var (l', ok) := Queried(l, number, poll);
      && (ok <==> poll.rc in {0, -2, -3}) && l'.startupDone == l.startupDone && l'.queryKind == l.queries[0]
      && (poll.rc == 0 ==>
            l'.queryId == number && l'.queries == l.queries[1..] && l'.accountUsable == l.accountUsable)
      && (poll.rc in {-2, -3} ==>
            && l'.queryId == 0 && l'.queries == l.queries
            && l'.accountUsable == (l.accountUsable && !l.startupDone))
  {
  }
}
