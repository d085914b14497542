/** A trade replayed after a status callback has given its order another system number: exactly when it is refused,
    and a run from start-up in which it is. */
module SimNowReplay {
  import opened Common
  import opened PositionKeeper
  import opened OrderManager
  import opened SimNowSpec
  import opened SimNowLifecycle

  /** A replayed trade changes nothing, and is refused only for the order, exchange or day it names. */
  lemma ReplayChangesNothing(s: State, p: TradeField)
    requires p.ref in s.book.orders && TradeKey(p) in s.book.orders[p.ref].trades
    ensures OnTrade(s, p).0 == s
    ensures OnTrade(s, p).1 <==> KnownTrade(s, p)
  {
  }

  /** A trade processed once is a replay for ever after. */
  lemma TradeIsProcessedOnce(instrument: string, acts: seq<Action>, k: nat, p: TradeField)
    requires k <= |acts|
    requires var b := Run(instrument, acts[..k]).book; p.ref in b.orders && TradeKey(p) in b.orders[p.ref].trades
    ensures OnTrade(Run(instrument, acts), p).0 == Run(instrument, acts)
  {
    RunGrows(instrument, acts, k);
    hide Run, OnTrade;
    ReplayChangesNothing(Run(instrument, acts), p);
  }

  /** A trade, a status of its order, and the trade again: the replay passes exactly when the status named no
      other system number than the trade. */
  lemma ReplayPassesExactly(s: State, p: TradeField, q: OrderField)
    requires KnownTrade(s, p) && GoodTrade(s.book.orders[p.ref], p) && TradeKey(p) !in s.book.orders[p.ref].trades
    requires KnownOrder(s, q) && q.ref == p.ref && 0 <= q.traded <= 1
    ensures var (s1, traded) := OnTrade(s, p);
      var (s2, noted) := OnOrder(s1, q);
      && traded && noted
      && OnTrade(s2, p).0 == s2
      && (OnTrade(s2, p).1 <==> q.sys == "" || q.sys == p.sys)
  {
    var s1 := OnTrade(s, p).0;
    assert KnownOrder(s1, q) && s1.book.orders[p.ref].done;
    assert TradeKey(p) in s1.book.orders[p.ref].trades && s1.book.orders[p.ref].sys == s.book.orders[p.ref].sys;
    hide GoodTrade, Progressed, Answer;
    var s2 := OnOrder(s1, q).0;
    assert s2.book.orders[p.ref].trades == s1.book.orders[p.ref].trades;
    ReplayChangesNothing(s2, p);
  }

  // ----- a run -----------------------------------------------------------------------------------------------

  const DAY: string := "20250102"
  const INSTRUMENT_ID: string := "rb2505"
  const CNY_TICK: Tick := 100000000

  function Answered(kind: Kind, id: int, payload: Payload): Action {
    Callback(Event(kind, id, 0, true, payload), 0, "")
  }

  const ASK: Action := PollTail(Poll(false, false, true, 0, true))

  /** The state after logging in, the answers to `queries` outstanding. */
  function Asking(l: Link, nextId: int): State {
    State(INSTRUMENT_ID, Initial(INSTRUMENT_ID).book, l, false, nextId, 1, 1, DAY, false, false, false)
  }

  const LOGGING_IN: seq<Action> :=
    [Answered(CONNECTED, 0, Nothing), Answered(AUTH, 1, Nothing), Answered(LOGIN, 2, LoginField(1, 1, DAY, Some(0))),
     Answered(SETTLEMENT, 3, Nothing)]

  const ALL_QUERIES: seq<Kind> := [INSTRUMENT, ACCOUNT, POSITION, ORDER_QUERY]

  const LOGGED_IN: State := Asking(Initial(INSTRUMENT_ID).link.(connected := true, queries := ALL_QUERIES), 3)

  /** The states on the way. */
  const CONNECTING: State :=
    Initial(INSTRUMENT_ID).(link := Initial(INSTRUMENT_ID).link.(connected := true, requests := map[1 := AUTH]),
                            nextId := 1)

  const AUTHENTICATED: State :=
    Initial(INSTRUMENT_ID).(link := Initial(INSTRUMENT_ID).link.(connected := true, requests := map[2 := LOGIN]),
                            nextId := 2)

  const LOGIN_ANSWERED: State :=
    Asking(Initial(INSTRUMENT_ID).link.(connected := true, requests := map[3 := SETTLEMENT]), 3)

  lemma Connects()
    ensures Step(Initial(INSTRUMENT_ID), LOGGING_IN[0]) == CONNECTING
  {
  }

  lemma Authenticates()
    ensures Step(CONNECTING, LOGGING_IN[1]) == AUTHENTICATED
  {
    assert CONNECTING.link.requests - {1} == map[];
  }

  lemma IsLoggedIn()
    ensures Step(AUTHENTICATED, LOGGING_IN[2]) == LOGIN_ANSWERED
  {
    assert AUTHENTICATED.link.requests - {2} == map[];
  }

  lemma Settles()
    ensures Step(LOGIN_ANSWERED, LOGGING_IN[3]) == LOGGED_IN
  {
    assert LOGIN_ANSWERED.link.requests - {3} == map[];
  }

  lemma LogsIn()
    ensures Run(INSTRUMENT_ID, LOGGING_IN) == LOGGED_IN
  {
    Connects();
    Authenticates();
    IsLoggedIn();
    Settles();
    RunOfNothing();
    hide Run, Step, CONNECTING, AUTHENTICATED, LOGIN_ANSWERED, LOGGED_IN;
    var acts := LOGGING_IN;
    RunTwoMore([], acts[0], acts[1]);
    RunTwoMore(acts[..2], acts[2], acts[3]);
    assert [] + [acts[0], acts[1]] == acts[..2] && acts[..2] + [acts[2], acts[3]] == acts;
  }

  /** A query is sent and answered. */
  lemma Round(l: Link, n: nat, payload: Payload, l': Link)
    requires l.queries != [] && l.queryId == 0 && !l.startupDone && l.queries[0] !in {AUTH, LOGIN, SETTLEMENT}
    requires l.queries[0] in {INSTRUMENT, ACCOUNT, POSITION, ORDER_QUERY}
    requires var asked := l.(queries := l.queries[1..], queryKind := l.queries[0], queryId := n + 1,
                             accountSeen := l.accountSeen && l.queries[0] != ACCOUNT);
      OnQuery(asked, INSTRUMENT_ID, Event(l.queries[0], n + 1, 0, true, payload)) == (l', true)
    ensures Step(Step(Asking(l, n), ASK), Answered(l.queries[0], n + 1, payload)) == Asking(l', n + 1)
  {
    hide OnQuery, OnStage, OnError, OnTrade, OnOrder;
    var asked := l.(queries := l.queries[1..], queryKind := l.queries[0], queryId := n + 1,
                    accountSeen := l.accountSeen && l.queries[0] != ACCOUNT);
    assert Step(Asking(l, n), ASK) == Asking(asked, n + 1);
  }

  const ANSWERS: seq<Payload> := [InstrumentField(INSTRUMENT_ID, true, CNY_TICK), AccountField(true), Nothing, Nothing]

  /** The link once the first `n` queries are answered. */
  function LinkAfter(n: nat): Link
    requires n <= 4
  {
    Link(true, map[], ALL_QUERIES[n..], if n == 0 then INSTRUMENT else ALL_QUERIES[n - 1], 0,
         n == 4, n > 0, n > 1, true, if n > 0 then Some(CNY_TICK) else None)
  }

  lemma Asks(n: nat)
    requires n < 4
    ensures Step(Step(Asking(LinkAfter(n), 3 + n), ASK), Answered(ALL_QUERIES[n], 4 + n, ANSWERS[n]))
         == Asking(LinkAfter(n + 1), 4 + n)
  {
    Round(LinkAfter(n), 3 + n, ANSWERS[n], LinkAfter(n + 1));
    hide Step;
  }

  function Query(n: nat): seq<Action>
    requires n < 4
  {
    [ASK, Answered(ALL_QUERIES[n], 4 + n, ANSWERS[n])]
  }

  const STARTUP: seq<Action> := LOGGING_IN + Query(0) + Query(1) + Query(2) + Query(3) + [ASK]

  /** Ready to trade. */
  const READY: State := Asking(LinkAfter(4), 7).(ready := true)

  lemma RunTwoMore(acts: seq<Action>, a: Action, b: Action)
    ensures Run(INSTRUMENT_ID, acts + [a, b]) == Step(Step(Run(INSTRUMENT_ID, acts), a), b)
  {
    hide Step;
    assert (acts + [a, b])[..|acts| + 1] == acts + [a] && (acts + [a])[..|acts|] == acts;
  }

  lemma RunOneMore(acts: seq<Action>, a: Action)
    ensures Run(INSTRUMENT_ID, acts + [a]) == Step(Run(INSTRUMENT_ID, acts), a)
  {
    hide Step;
    assert (acts + [a])[..|acts|] == acts;
  }

  lemma StartsUp()
    ensures Run(INSTRUMENT_ID, STARTUP) == READY
  {
    hide Step, Run, Asking;
    LogsIn();
    assert LOGGED_IN == Asking(LinkAfter(0), 3);
    var acts := LOGGING_IN;
    RunTwoMore(acts, ASK, Query(0)[1]);
    Asks(0);
    acts := acts + Query(0);
    RunTwoMore(acts, ASK, Query(1)[1]);
    Asks(1);
    acts := acts + Query(1);
    RunTwoMore(acts, ASK, Query(2)[1]);
    Asks(2);
    acts := acts + Query(2);
    RunTwoMore(acts, ASK, Query(3)[1]);
    Asks(3);
    acts := acts + Query(3);
    RunOneMore(acts, ASK);
    BecomesReady();
  }

  lemma RunOfNothing()
    ensures Run(INSTRUMENT_ID, []) == Initial(INSTRUMENT_ID)
  {
  }

  lemma BecomesReady()
    ensures Step(Asking(LinkAfter(4), 7), ASK) == READY
  {
  }

  // ----- trading ---------------------------------------------------------------------------------------------

  const BUY_ONE: Request := Request(NEW, 0, 1, BUY, CNY_TICK, 1, OPEN)
  const SENT: Action := Submit(Submission(BUY_ONE, true, true), 0)
  const EXECUTED: TradeField := TradeField(1, INSTRUMENT_ID, "SHFE", DAY, "17", "T1", 1, CNY_TICK, BUY, OPEN)
  const RENAMED: OrderField := OrderField(1, 1, 1, INSTRUMENT_ID, "18", 1, ALL_TRADED, OTHER_SUBMIT)

  function TradeCame(p: TradeField): Action { Callback(Event(TRADE, 0, 0, true, TradePayload(p)), 0, "") }
  function StatusCame(q: OrderField): Action { Callback(Event(ORDER, 0, 0, true, OrderPayload(q)), 0, "") }

  /** Ready and with one order in the market. */
  const ORDERED: State := Stored(Noted(READY, BUY_ONE), BUY_ONE)

  lemma Orders()
    ensures Step(READY, SENT) == ORDERED
    ensures ORDERED.ready && !ORDERED.fatal && KnownTrade(ORDERED, EXECUTED) && KnownOrder(ORDERED, RENAMED)
    ensures var o := ORDERED.book.orders[1]; GoodTrade(o, EXECUTED) && o.trades == {}
  {
    assert Acceptable(Noted(READY, BUY_ONE), SENT.sub);
  }

  /** A trade and a status of its order, both taken, then the trade again. */
  lemma TakesBoth(s: State, p: TradeField, q: OrderField)
    requires KnownTrade(s, p) && GoodTrade(s.book.orders[p.ref], p) && TradeKey(p) !in s.book.orders[p.ref].trades
    requires KnownOrder(s, q) && q.ref == p.ref && 0 <= q.traded <= 1 && q.sys != "" && q.sys != p.sys
    ensures var s' := Step(Step(s, TradeCame(p)), StatusCame(q));
      && s'.ready == s.ready && s'.fatal == s.fatal
      && p.ref in s'.book.orders && TradeKey(p) in s'.book.orders[p.ref].trades
      && Step(s', TradeCame(p)) == Failed(s')
  {
    ReplayPassesExactly(s, p, q);
    var s1 := OnTrade(s, p).0;
    assert Step(s, TradeCame(p)) == s1 && s1.book.orders[p.ref].done && KnownOrder(s1, q);
    assert TradeKey(p) in s1.book.orders[p.ref].trades && s1.ready == s.ready && s1.fatal == s.fatal;
    hide OnTrade, Progressed;
    assert Step(s1, StatusCame(q)) == OnOrder(s1, q).0;
  }

  const TRADED_AND_RENAMED: seq<Action> := STARTUP + [SENT] + [TradeCame(EXECUTED), StatusCame(RENAMED)]

  /** An order traded, a status that gives it another system number, and the same trade again: the adapter, ready
      until then, stops trading. */
  lemma RenamedReplayStopsTrading()
    ensures var before := Run(INSTRUMENT_ID, TRADED_AND_RENAMED);
      && !before.fatal && before.ready
      && 1 in before.book.orders && TradeKey(EXECUTED) in before.book.orders[1].trades
      && Run(INSTRUMENT_ID, TRADED_AND_RENAMED + [TradeCame(EXECUTED)]) == Failed(before)
  {
    StartsUp();
    Orders();
    hide Run, Step, Stored, Noted, KnownTrade, KnownOrder, GoodTrade, STARTUP, READY, ORDERED;
    RunOneMore(STARTUP, SENT);
    RunTwoMore(STARTUP + [SENT], TradeCame(EXECUTED), StatusCame(RENAMED));
    RunOneMore(TRADED_AND_RENAMED, TradeCame(EXECUTED));
    TakesBoth(ORDERED, EXECUTED, RENAMED);
  }
}
