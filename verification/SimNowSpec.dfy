/** The SimNow execution adapter on values (src/trading/venue/simnow/simnow_execution.cpp). Callbacks of the CTP
    library are arbitrary events; return codes of its calls, deadlines and market readiness are parameters. */
module SimNowSpec {
  import opened Common
  import opened PositionKeeper
  import opened OrderManager
  import opened Numerals

  datatype Kind =
    | CONNECTED | DISCONNECTED | AUTH | LOGIN | SETTLEMENT | INSTRUMENT | ACCOUNT | POSITION | ORDER_QUERY
    | ORDER | TRADE | INSERT_ERROR | CANCEL_ERROR | OTHER_KIND

  datatype OrderStatus =
    | ALL_TRADED | CANCELED_STATUS | PART_TRADED_NOT_QUEUEING | NO_TRADE_NOT_QUEUEING
    | NO_TRADE_QUEUEING | PART_TRADED_QUEUEING | OTHER_STATUS

  datatype SubmitStatus = INSERT_REJECTED | CANCEL_REJECTED_STATUS | OTHER_SUBMIT

  /** An order status callback. A reference text is the number it is the numeral of, other texts are 0, which no
      order has. */
  datatype OrderField = OrderField(ref: nat, front: int, session: int, instrument: string, sys: string,
                                   traded: int, status: OrderStatus, submit: SubmitStatus)

  /** An execution callback; `price` is what `Ctp::price` makes of it. */
  datatype TradeField = TradeField(ref: nat, instrument: string, exchange: string, day: string, sys: string,
                                   tradeId: string, volume: int, price: int, side: Side, offset: Offset)

  type Tick = t: int | t > 0 witness 1

  datatype Payload =
    | Nothing
    | LoginField(front: int, session: int, day: string, maxRef: Option<nat>)
    | InstrumentField(instrument: string, eligible: bool, tick: Tick)
    | AccountField(sound: bool)
    | PositionField(empty: bool)
    | OrderPayload(order: OrderField)
    | TradePayload(trade: TradeField)
    | InputField(ref: nat)

  datatype Event = Event(kind: Kind, requestId: int, error: int, last: bool, payload: Payload)

  /** `Order`. */
  datatype Order = Order(request: Request, sys: string, insertId: int, cancelId: int, fills: nat, reported: nat,
                         accepted: bool, done: bool, cancelSent: bool, cancelRejected: bool, hasTerminal: bool,
                         rejected: bool, trades: set<(string, string, string)>)

  /** Orders, the position and what was said about them: `log` holds the responses published to the gateway,
      `used` how often each identifier came in a new-order request. */
  datatype Book = Book(orders: map<nat, Order>, net: int, log: seq<Response>, used: multiset<int>, nextRef: nat)

  /** The login sequence and the queries. */
  datatype Link = Link(connected: bool, requests: map<int, Kind>, queries: seq<Kind>, queryKind: Kind, queryId: int,
                       startupDone: bool, instrumentSeen: bool, accountSeen: bool, accountUsable: bool,
                       tick: Option<Tick>)

  /** The configured instrument, the state proper, and the flags of `SimNowControl`. */
  datatype State = State(instrument: string, book: Book, link: Link, ready: bool, nextId: int,
                         front: int, session: int, day: string, fatal: bool, stopping: bool, disconnected: bool)

  function Initial(instrument: string): State {
    State(instrument, Book(map[], 0, [], multiset{}, 0),
          Link(false, map[], [], INSTRUMENT, 0, false, false, false, true, None),
          false, 0, 0, 0, "", false, false, false)
  }

  predicate TerminalStatus(s: OrderStatus) {
    s == ALL_TRADED || s == CANCELED_STATUS || s == PART_TRADED_NOT_QUEUEING || s == NO_TRADE_NOT_QUEUEING
  }

  /** `fail`. */
  function Failed(s: State): State { s.(fatal := true, ready := false) }

  /** The response `publish` makes for an order. */
  function Answer(r: Request, fills: nat, kind: ResponseType, qty: Qty, price: int): Response {
    Response(kind, 0, r.id, Fill(r.side, r.offset, if price == PRICE_INVALID then r.price else price, qty),
             if r.qty >= fills then r.qty - fills else 0)
  }

  /** Storing an order. */
  function Put(s: State, ref: nat, o: Order): State { s.(book := s.book.(orders := s.book.orders[ref := o])) }

  /** Storing an order and publishing a response about it. */
  function Tell(s: State, ref: nat, o: Order, r: Response): State {
    s.(book := s.book.(orders := s.book.orders[ref := o], log := s.book.log + [r]))
  }

  /** Storing an order and publishing a response without execution about it. */
  function Say(s: State, ref: nat, o: Order, kind: ResponseType): State {
    Tell(s, ref, o, Answer(o.request, o.fills, kind, 0, PRICE_INVALID))
  }

  predicate Outstanding(s: State) {
    exists ref :: ref in s.book.orders && !s.book.orders[ref].done
  }

  // ----- finish and cancel -----------------------------------------------------------------------------------

  /** `finish` on an order about to be stored; false for the quantity-mismatch exception. */
  function Finished(s: State, ref: nat, o: Order): (State, bool) {
    if o.done || !o.hasTerminal || o.fills < o.reported then (Put(s, ref, o), true)
    else if o.fills > o.reported then (Put(s, ref, o), false)
    else if o.fills < o.request.qty then
      (Say(s, ref, o.(done := true), if o.rejected then REJECTED else CANCELED), true)
    else (Put(s, ref, o.(done := true)), true)
  }

  /** `cancel`; `rc` is the transport's return code. */
  function CancelSent(s: State, ref: nat, rc: int): State
    requires ref in s.book.orders
  {
    var o := s.book.orders[ref];
    if o.done || o.hasTerminal || o.cancelSent || s.disconnected then s
    else
      var o' := o.(cancelId := s.nextId + 1, cancelSent := true);
      var s' := Put(s, ref, o').(nextId := s.nextId + 1);
      if rc != 0 then Failed(Say(s', ref, o', CANCEL_REJECTED)) else s'
  }

  // ----- submit ----------------------------------------------------------------------------------------------

  /** `plain` is false for order types other than LIMIT; `ours` for the right client and ticker. */
  datatype Submission = Submission(request: Request, ours: bool, plain: bool)

  /** The stored orders of a client identifier. */
  function OrdersOf(b: Book, id: int): set<nat> {
    set ref | ref in b.orders && b.orders[ref].request.id == id
  }

  /** A new order passes every test of `submit`. */
  predicate Acceptable(s: State, sub: Submission) {
    var r := sub.request;
    && r.kind == NEW && s.ready && !s.stopping && !s.fatal && sub.plain && r.qty == 1 && !Outstanding(s)
    && (if r.offset == OPEN then s.book.net == 0 else r.offset == CLOSE_TODAY && s.book.net == -SideToValue(r.side))
    && r.price > 0 && r.price != PRICE_INVALID && s.link.tick.Some? && r.price % s.link.tick.value == 0
  }

  function NewlyStored(r: Request, insertId: int): Order {
    Order(r, "", insertId, 0, 0, 0, false, false, false, false, false, false, {})
  }

  function Noted(s: State, r: Request): State {
    if r.kind == NEW then s.(book := s.book.(used := s.book.used + multiset{r.id})) else s
  }

  function Refused(s: State, r: Request): State {
    var answer := Answer(r, 0, if r.kind == NEW then REJECTED else CANCEL_REJECTED, 0, PRICE_INVALID);
    s.(book := s.book.(log := s.book.log + [answer]))
  }

  /** An acceptable order is stored under the next reference. */
  function Stored(s: State, r: Request): State {
    var ref := s.book.nextRef + 1;
    s.(book := s.book.(orders := s.book.orders[ref := NewlyStored(r, s.nextId + 1)], nextRef := ref),
       nextId := s.nextId + 1)
  }

  /** An acceptable order is stored, and rejected at once when the transport does not take it. */
  function Inserted(s: State, r: Request, rc: int): State {
    if rc == 0 then Stored(s, r)
    else Say(Stored(s, r), s.book.nextRef + 1, NewlyStored(r, s.nextId + 1).(done := true), REJECTED)
  }

  /** `submit` under `handleRequest`: an exception becomes `fail`. A cancellation goes to the order that walking the
      map, whose keys are texts, meets first. */
  ghost function Submitted(s: State, sub: Submission, rc: int): State {
    var r := sub.request;
    var noted := Noted(s, r);
    if !sub.ours then Failed(noted)
    else if r.kind == CANCEL_ORDER && OrdersOf(noted.book, r.id) != {} then
      CancelSent(noted, First(OrdersOf(noted.book, r.id)), rc)
    else if !Acceptable(noted, sub) then Refused(noted, r)
    else Inserted(noted, r, rc)
  }

  // ----- callbacks -------------------------------------------------------------------------------------------

  /** An order event names a stored order of this session. */
  predicate KnownOrder(s: State, p: OrderField) {
    p.ref in s.book.orders && p.front == s.front && p.session == s.session && p.instrument == s.instrument
  }

  /** `orderEvent` on an order that is not done, its quantity already noted in `o`. */
  function Progressed(s: State, p: OrderField, o: Order): (State, bool) {
    var refuse := p.submit == CANCEL_REJECTED_STATUS && !o.cancelRejected;
    var o' := if refuse then o.(cancelRejected := true) else o;
    var s' := if refuse then Say(s, p.ref, o', CANCEL_REJECTED) else Put(s, p.ref, o');
    if TerminalStatus(p.status) || p.submit == INSERT_REJECTED then
      Finished(s', p.ref, o'.(hasTerminal := true, rejected := p.submit == INSERT_REJECTED))
    else if !o.accepted && (p.status == NO_TRADE_QUEUEING || p.status == PART_TRADED_QUEUEING) then
      (Say(s', p.ref, o'.(accepted := true), ACCEPTED), true)
    else (s', true)
  }

  /** `orderEvent`; false for an exception. */
  function OnOrder(s: State, p: OrderField): (State, bool) {
    if !KnownOrder(s, p) then (s, false)
    else
      var o := s.book.orders[p.ref];
      var o1 := if p.sys != "" then o.(sys := p.sys) else o;
      if p.traded < 0 || p.traded > 1 then (Put(s, p.ref, o1), false)
      else
        var o2 := o1.(reported := Max(o.reported, p.traded));
        if o.done then (Put(s, p.ref, o2), true) else Progressed(s, p, o2)
  }

  /** What identifies an execution. */
  function TradeKey(p: TradeField): (string, string, string) { (p.day, p.exchange, p.tradeId) }

  /** A trade event names a stored order, today's exchange and, once known, the order's system number. */
  predicate KnownTrade(s: State, p: TradeField) {
    && p.ref in s.book.orders && p.instrument == s.instrument && p.exchange == "SHFE" && p.day == s.day
    && (s.book.orders[p.ref].sys != "" ==> s.book.orders[p.ref].sys == p.sys)
  }

  /** The first execution of an open order, as it was ordered. */
  predicate GoodTrade(o: Order, p: TradeField) {
    && p.tradeId != "" && p.volume == 1 && o.fills == 0 && !o.done && p.price != PRICE_INVALID
    && p.side == o.request.side && p.offset == (if o.request.offset == OPEN then OPEN else CLOSE_TODAY)
  }

  /** `tradeEvent`; false for an exception. */
  function OnTrade(s: State, p: TradeField): (State, bool) {
    if !KnownTrade(s, p) then (s, false)
    else
      var o := s.book.orders[p.ref];
      if TradeKey(p) in o.trades then (s, true)
      else if !GoodTrade(o, p) then (s, false)
      else
        var o' := o.(trades := o.trades + {TradeKey(p)}, fills := o.fills + 1, done := true);
        var s' := Tell(s, p.ref, o', Answer(o.request, o.fills + 1, FILLED, 1, p.price));
        (s'.(book := s'.book.(net := s.book.net + SideToValue(o.request.side))), true)
  }

  /** The request number an error callback of this kind refers to. */
  function NumberFor(o: Order, kind: Kind): int { if kind == INSERT_ERROR then o.insertId else o.cancelId }

  ghost predicate ErrorNames(s: State, e: Event, ref: nat) {
    && ref in s.book.orders && e.requestId != 0
    && NumberFor(s.book.orders[ref], e.kind) == e.requestId
  }

  /** The order an error callback is about: by reference, else by request number. */
  ghost function ErrorTarget(s: State, e: Event): Option<nat> {
    if e.payload.InputField? && e.payload.ref in s.book.orders then Some(e.payload.ref)
    else if exists ref :: ErrorNames(s, e, ref) then (var ref :| ErrorNames(s, e, ref); Some(ref))
    else None
  }

  ghost function OnError(s: State, e: Event): (State, bool) {
    if e.error == 0 then (s, true)
    else
      var target := ErrorTarget(s, e);
      if target == None then (s, false)
      else
        var o := s.book.orders[target.value];
        if o.done then (s, true)
        else if e.kind == INSERT_ERROR then Finished(s, target.value, o.(rejected := true, hasTerminal := true))
        else if !o.cancelRejected then (Say(s, target.value, o.(cancelRejected := true), CANCEL_REJECTED), true)
        else (s, true)
  }

  /** `request`; false for the exception on a nonzero return code. */
  function Requested(s: State, kind: Kind, rc: int): (State, bool) {
    (s.(nextId := s.nextId + 1, link := s.link.(requests := s.link.requests[s.nextId + 1 := kind])), rc == 0)
  }

  /** The login is answered; `marketDay` is the trading day of the market data, if known. */
  function LoggedIn(s: State, p: Payload, rc: int, marketDay: string): (State, bool) {
    if !p.LoginField? || p.day == "" then (s, false)
    else
      var s' := s.(front := p.front, session := p.session, day := p.day);
      if (marketDay != "" && marketDay != p.day) || p.maxRef == None then (s', false)
      else Requested(s'.(book := s.book.(nextRef := p.maxRef.value)), SETTLEMENT, rc)
  }

  /** The answers of the login sequence. */
  function OnStage(s: State, e: Event, rc: int, marketDay: string): (State, bool) {
    if e.requestId !in s.link.requests || s.link.requests[e.requestId] != e.kind || !e.last then (s, true)
    else
      var s' := s.(link := s.link.(requests := s.link.requests - {e.requestId}));
      match e.kind
      case AUTH => Requested(s', LOGIN, rc)
      case LOGIN => LoggedIn(s', e.payload, rc, marketDay)
      case _ => (s'.(link := s'.link.(queries := [INSTRUMENT, ACCOUNT, POSITION, ORDER_QUERY])), true)
  }

  /** The payload part of a query answer. */
  function OnQueryPayload(l: Link, instrument: string, p: Payload): (Link, bool) {
    match p
    case InstrumentField(id, eligible, tick) =>
      if id != instrument then (l, true)
      else if !eligible then (l, false)
      else (l.(tick := Some(tick), instrumentSeen := true), true)
    case AccountField(sound) => if sound then (l.(accountUsable := true, accountSeen := true), true) else (l, false)
    case PositionField(empty) => (l, empty)
    case OrderPayload(o) => (l, TerminalStatus(o.status))
    case _ => (l, true)
  }

  function OnQuery(l: Link, instrument: string, e: Event): (Link, bool) {
    if e.requestId != l.queryId || e.kind != l.queryKind || l.queryId == 0 then (l, true)
    else
      var (l1, ok) := OnQueryPayload(l, instrument, e.payload);
      if !ok then (l1, false)
      else if !e.last then (l1, true)
      else if (l.queryKind == INSTRUMENT && !l1.instrumentSeen)
              || (l.queryKind == ACCOUNT && !l1.accountSeen) then (l1, false)
      else (l1.(startupDone := l.startupDone || l.queryKind == ORDER_QUERY, queryId := 0), true)
  }

  /** `event`; false for an exception. */
  ghost function OnEvent(s: State, e: Event, rc: int, marketDay: string): (State, bool) {
    if e.kind == DISCONNECTED then (s.(disconnected := true), false)
    else if e.kind == ORDER then if e.payload.OrderPayload? then OnOrder(s, e.payload.order) else (s, true)
    else if e.kind == TRADE then if e.payload.TradePayload? then OnTrade(s, e.payload.trade) else (s, true)
    else if e.kind == INSERT_ERROR || e.kind == CANCEL_ERROR then OnError(s, e)
    else if s.fatal then (s, true)
    else if e.error != 0 then
      if s.link.startupDone && s.link.queryId != 0 && e.requestId == s.link.queryId && s.link.queryKind == ACCOUNT then
        (s.(link := s.link.(queryId := 0, accountUsable := false), ready := false), true)
      else (s, false)
    else if e.kind == CONNECTED then
      if s.link.connected then (s, false) else Requested(s.(link := s.link.(connected := true)), AUTH, rc)
    else if e.kind == AUTH || e.kind == LOGIN || e.kind == SETTLEMENT then OnStage(s, e, rc, marketDay)
    else var (l, ok) := OnQuery(s.link, s.instrument, e); (s.(link := l), ok)
  }

  // ----- polling ---------------------------------------------------------------------------------------------

  /** What the clock, the transport and the market data thread say to one `pollOrders`. */
  datatype Poll = Poll(timedOut: bool, accountDue: bool, queryDue: bool, rc: int, marketReady: bool)

  /** The next query goes out under a new number, is put back when the transport is busy, or throws. */
  function Queried(l: Link, number: int, poll: Poll): (Link, bool)
    requires l.queries != []
  {
    var kind := l.queries[0];
    var l1 := l.(queryKind := kind, accountSeen := l.accountSeen && kind != ACCOUNT);
    if poll.rc == -2 || poll.rc == -3 then (l1.(queryId := 0, accountUsable := l.accountUsable && !l.startupDone), true)
    else (l1.(queries := l.queries[1..], queryId := number), poll.rc == 0)
  }

  /** The account is asked for again from time to time. */
  function AccountQueued(l: Link, poll: Poll): Link {
    if l.startupDone && poll.accountDue && l.queryId == 0 && l.queries == [] then l.(queries := [ACCOUNT]) else l
  }

  /** `pollOrders` after the callbacks, when not stopping. */
  function Polled(s: State, poll: Poll): State {
    if s.fatal then s.(ready := false)
    else if s.link.queryId != 0 && poll.timedOut then Failed(s)
    else
      var l := AccountQueued(s.link, poll);
      var asks := l.queryId == 0 && l.queries != [] && poll.queryDue;
      var (l', ok) := if asks then Queried(l, s.nextId + 1, poll) else (l, true);
      var s' := s.(link := l', nextId := if asks then s.nextId + 1 else s.nextId);
      if !ok then Failed(s') else s'.(ready := l'.startupDone && poll.marketReady && l'.accountUsable)
  }

  // ----- runs ------------------------------------------------------------------------------------------------

  /** Everything that can happen to the adapter, one atomic action at a time. */
  datatype Action =
    | Submit(sub: Submission, rc: int)
    | Callback(e: Event, rc: int, marketDay: string)
    | PollTail(poll: Poll)
    | CancelForStop(ref: nat, rc: int)
    | Stopping
    | Overflow
    | OutsideFailure

  ghost function Step(s: State, a: Action): State {
    match a
    case Submit(sub, rc) => Submitted(s, sub, rc)
    case Callback(e, rc, marketDay) =>
      var (s', ok) := OnEvent(s, e, rc, marketDay);
      if ok then s' else Failed(s')
    case PollTail(poll) => if s.stopping then s.(ready := false) else Polled(s, poll)
    case CancelForStop(ref, rc) => if s.stopping && ref in s.book.orders then CancelSent(s, ref, rc) else s
    case Stopping => s.(stopping := true)
    case Overflow => Failed(s)
    case OutsideFailure => s.(fatal := true)
  }

  ghost function Run(instrument: string, acts: seq<Action>): State {
    if acts == [] then Initial(instrument) else Step(Run(instrument, acts[..|acts| - 1]), acts[|acts| - 1])
  }

  /** Any actions from any state. */
  ghost function After(s: State, acts: seq<Action>): State {
    if acts == [] then s else Step(After(s, acts[..|acts| - 1]), acts[|acts| - 1])
  }

  /** A run continued. */
  lemma {:induction false} RunContinues(instrument: string, acts: seq<Action>, more: seq<Action>)
    ensures Run(instrument, acts + more) == After(Run(instrument, acts), more)
  {
    hide Step;
    if more == [] {
      assert acts + more == acts;
    } else {
      assert (acts + more)[..|acts + more| - 1] == acts + more[..|more| - 1];
      RunContinues(instrument, acts, more[..|more| - 1]);
    }
  }

  lemma AfterOneMore(s: State, acts: seq<Action>, a: Action)
    ensures After(s, acts + [a]) == Step(After(s, acts), a)
  {
    assert (acts + [a])[..|acts|] == acts;
    hide Step;
  }

  /** The callbacks of a batch, each with the transport's return code and the market's trading day. */
  function Callbacks(batch: seq<(Event, int, string)>): seq<Action> {
    seq(|batch|, i requires 0 <= i < |batch| => Callback(batch[i].0, batch[i].1, batch[i].2))
  }

  /** The transport's return code for the cancellation of an order. */
  function Code(rcs: map<nat, int>, ref: nat): int { if ref in rcs then rcs[ref] else 0 }

  /** A cancellation of every order in turn. */
  function Cancels(refs: seq<nat>, rcs: map<nat, int>): seq<Action> {
    seq(|refs|, i requires 0 <= i < |refs| => CancelForStop(refs[i], Code(rcs, refs[i])))
  }

  lemma AfterOneCancel(s: State, refs: seq<nat>, ref: nat, rcs: map<nat, int>)
    ensures After(s, Cancels(refs + [ref], rcs))
         == Step(After(s, Cancels(refs, rcs)), CancelForStop(ref, Code(rcs, ref)))
  {
    hide Step;
    AfterOneMore(s, Cancels(refs, rcs), CancelForStop(ref, Code(rcs, ref)));
    assert Cancels(refs + [ref], rcs) == Cancels(refs, rcs) + [CancelForStop(ref, Code(rcs, ref))];
  }

  /** `pollOrders`: perhaps a lost callback, the callbacks, then the queries or, when stopping, the cancellations. */
  ghost function PolledOnce(s: State, overflow: bool, batch: seq<(Event, int, string)>, poll: Poll,
                            rcs: map<nat, int>): State {
    var s1 := After(if overflow then Failed(s) else s, Callbacks(batch));
    var s2 := Step(s1, PollTail(poll));
    if s2.stopping then After(s2, Cancels(InOrder(s2.book.orders.Keys), rcs)) else s2
  }

  /** What the threads of the adapter do: take a request, poll, ask to stop, or fail elsewhere. */
  datatype Turn =
    | Asked(sub: Submission, rc: int)
    | Polling(overflow: bool, batch: seq<(Event, int, string)>, poll: Poll, rcs: map<nat, int>)
    | Halt
    | Broken

  ghost function TurnTaken(s: State, turn: Turn): State {
    match turn
    case Asked(sub, rc) => Submitted(s, sub, rc)
    case Polling(overflow, batch, poll, rcs) => PolledOnce(s, overflow, batch, poll, rcs)
    case Halt => Step(s, Stopping)
    case Broken => Step(s, OutsideFailure)
  }

  ghost function Turned(instrument: string, turns: seq<Turn>): State {
    if turns == [] then Initial(instrument) else TurnTaken(Turned(instrument, turns[..|turns| - 1]), turns[|turns| - 1])
  }

  /** A turn is a number of steps. */
  lemma TurnIsSteps(s: State, turn: Turn) returns (acts: seq<Action>)
    ensures TurnTaken(s, turn) == After(s, acts)
  {
    hide Submitted, OnEvent, Polled, CancelSent;
    match turn {
      case Asked(sub, rc) => acts := [Submit(sub, rc)];
      case Polling(overflow, batch, poll, rcs) => acts := PollIsSteps(s, overflow, batch, poll, rcs);
      case Halt => acts := [Stopping];
      case Broken => acts := [OutsideFailure];
    }
  }

  lemma PollIsSteps(s: State, overflow: bool, batch: seq<(Event, int, string)>, poll: Poll, rcs: map<nat, int>)
      returns (acts: seq<Action>)
    ensures PolledOnce(s, overflow, batch, poll, rcs) == After(s, acts)
  {
    var lost := if overflow then [Overflow] else [];
    assert After(s, lost) == if overflow then Failed(s) else s;
    hide Step;
    AfterContinues(s, lost, Callbacks(batch));
    AfterOneMore(s, lost + Callbacks(batch), PollTail(poll));
    acts := lost + Callbacks(batch) + [PollTail(poll)];
    var s2 := After(s, acts);
    if s2.stopping {
      AfterContinues(s, acts, Cancels(InOrder(s2.book.orders.Keys), rcs));
      acts := acts + Cancels(InOrder(s2.book.orders.Keys), rcs);
    }
  }

  lemma {:induction false} AfterContinues(s: State, acts: seq<Action>, more: seq<Action>)
    ensures After(s, acts + more) == After(After(s, acts), more)
  {
    hide Step;
    if more == [] {
      assert acts + more == acts;
    } else {
      assert (acts + more)[..|acts + more| - 1] == acts + more[..|more| - 1];
      AfterContinues(s, acts, more[..|more| - 1]);
    }
  }

  /** Whatever the threads do is a run. */
  lemma {:induction false} TurnsAreRun(instrument: string, turns: seq<Turn>) returns (acts: seq<Action>)
    ensures Turned(instrument, turns) == Run(instrument, acts)
  {
    hide TurnTaken, Step;
    if turns == [] {
      return [];
    }
    var before := TurnsAreRun(instrument, turns[..|turns| - 1]);
    var more := TurnIsSteps(Run(instrument, before), turns[|turns| - 1]);
    RunContinues(instrument, before, more);
    return before + more;
  }
}
