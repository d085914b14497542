/** The order ledger of the Simex adapter: `submit`, `response` and the purge of finished orders
    (src/trading/venue/simex/simex_venue_adapter.cpp). */
module SimexLedger {
  import opened Common
  import opened PositionKeeper
  import opened OrderManager

  datatype OrderType = LIMIT | MARKET | OTHER_TYPE

  /** `ours` covers the client, the ticker, a usable order identifier and a known request type and side. */
  datatype Submission = Submission(request: Request, ours: bool, orderType: OrderType)

  /** `Order`. */
  datatype Order = Order(request: Request, orderType: OrderType, remaining: Qty, terminal: bool, cancelPending: bool)

  type Orders = map<int, Order>

  /** What went over the wire, and the requests answered locally. */
  datatype Mark =
    | Opened(id: int)
    | Asked(id: int)
    | Replied(id: int, kind: ResponseType, side: Side, exec: Qty, leaves: Qty)
    | Refused(id: int, kind: ResponseType)

  datatype Ledger = Ledger(orders: Orders, net: int, trace: seq<Mark>)

  const EMPTY_LEDGER: Ledger := Ledger(map[], 0, [])

  /** The offsets the venue knows. */
  predicate ExplicitOffset(offset: Offset) { offset == OPEN || offset == CLOSE_TODAY || offset == CLOSE_YESTERDAY }

  /** An open against the position or against another live open. */
  ghost predicate OppositeExposure(s: Ledger, r: Request) {
    || (r.side == BUY && s.net < 0) || (r.side == SELL && s.net > 0)
    || exists id :: id in s.orders && !s.orders[id].terminal && s.orders[id].request.offset == OPEN
        && s.orders[id].request.side != r.side
  }

  /** The request goes to the venue rather than being answered locally. */
  ghost predicate Passes(s: Ledger, sub: Submission) {
    var r := sub.request;
    && sub.ours
    && (if r.kind == CANCEL_ORDER then
          r.id in s.orders && !s.orders[r.id].terminal && !s.orders[r.id].cancelPending
          && ExplicitOffset(s.orders[r.id].request.offset)
        else
          && ValidQty(r.qty) && r.qty <= INT32_MAX
          && (sub.orderType == MARKET || (sub.orderType == LIMIT && ValidPrice(r.price)))
          && r.id !in s.orders && ExplicitOffset(r.offset)
          && (r.offset == OPEN ==> !OppositeExposure(s, r)))
  }

  /** Finished orders without a pending cancel. */
  predicate Purgeable(o: Order) { o.terminal && !o.cancelPending }

  function Purged(orders: Orders): Orders {
    map id | id in orders && !Purgeable(orders[id]) :: orders[id]
  }

  /** `submit`; None for an exception. `full` says that the outgoing buffer is. */
  ghost function Submitted(s: Ledger, sub: Submission, full: bool, capacity: nat): Option<Ledger> {
    var r := sub.request;
    if !Passes(s, sub) then
      Some(s.(trace := s.trace + [Refused(r.id, if r.kind == CANCEL_ORDER then CANCEL_REJECTED else REJECTED)]))
    else if full then None
    else
      var orders := if |s.orders| >= capacity then Purged(s.orders) else s.orders;
      if r.kind == CANCEL_ORDER then
        Some(Ledger(orders[r.id := s.orders[r.id].(cancelPending := true)], s.net, s.trace + [Asked(r.id)]))
      else if |orders| >= capacity then None
      else Some(Ledger(orders[r.id := Order(r, sub.orderType, r.qty, false, false)], s.net, s.trace + [Opened(r.id)]))
  }

  /** A response frame; `framed` and `ours` cover the header, the sequence number and the identity. */
  datatype Wire = Wire(framed: bool, ours: bool, id: int, kind: ResponseType, side: Side, offset: Offset,
                       price: int, exec: Qty, leaves: Qty)

  /** The quantities an execution may have. */
  predicate GoodExecution(o: Order, w: Wire) {
    && !o.terminal && ValidQty(w.exec) && ValidPrice(w.price)
    && w.exec <= o.remaining && w.leaves == o.remaining - w.exec
  }

  /** The order after a response, if the venue may send it. */
  function Answered(o: Order, w: Wire): Option<Order> {
    match w.kind
    case ACCEPTED => Some(o)
    case REJECTED => Some(o.(terminal := true))
    case CANCELED => Some(o.(terminal := true, cancelPending := false))
    case CANCEL_REJECTED => Some(o.(cancelPending := false))
    case FILLED =>
      if GoodExecution(o, w) then Some(o.(remaining := w.leaves, terminal := w.leaves == 0)) else None
    case OTHER => None
  }

  function NetAfter(net: int, w: Wire): int {
    if w.kind == FILLED then net + SideToValue(w.side) * w.exec else net
  }

  /** A request frame for the venue. */
  datatype Frame = Frame(kind: RequestType, id: int, side: Side, orderType: OrderType, price: int, qty: Qty,
                         offset: Offset)

  /** What goes to the venue for a request that passes; a cancellation repeats the order it is about. */
  function FrameOf(orders: Orders, sub: Submission): Frame {
    var r := sub.request;
    if r.kind == CANCEL_ORDER && r.id in orders then
      var o := orders[r.id];
      Frame(r.kind, r.id, o.request.side, o.orderType, o.request.price, o.request.qty, o.request.offset)
    else
      Frame(r.kind, r.id, r.side, sub.orderType, r.price, r.qty, r.offset)
  }

  /** The local answer to a request (`reject`); an invalid ticker is out of range. */
  function Rejected(q: Request): Response {
    Response(if q.kind == CANCEL_ORDER then CANCEL_REJECTED else REJECTED, if q.ticker < 0 then TICKERS else q.ticker,
             q.id, Fill(q.side, q.offset, q.price, 0), q.qty)
  }

  /** What `response` publishes. */
  function Forwarded(w: Wire): Response {
    Response(w.kind, 0, w.id, Fill(w.side, w.offset, w.price, w.exec), w.leaves)
  }

  /** What `submit` queues for the venue, and what it publishes. */
  ghost function Queued(s: Ledger, sub: Submission): seq<Frame> {
    if Passes(s, sub) then [FrameOf(s.orders, sub)] else []
  }

  ghost function Refusals(s: Ledger, sub: Submission): seq<Response> {
    if Passes(s, sub) then [] else [Rejected(sub.request)]
  }

  predicate Int32Range(x: int) { -INT32_MAX - 1 <= x <= INT32_MAX }

  /** `response`; None for an exception. */
  function Responded(s: Ledger, w: Wire): Option<Ledger> {
    if !w.framed || !w.ours || w.id !in s.orders then None
    else
      var o := s.orders[w.id];
      if w.side != o.request.side || w.offset != o.request.offset then None
      else
        var o' := Answered(o, w);
        var net := NetAfter(s.net, w);
        if o' == None || (w.kind == FILLED && !Int32Range(net)) then None
        else Some(Ledger(s.orders[w.id := o'.value], net, s.trace + [Replied(w.id, w.kind, w.side, w.exec, w.leaves)]))
  }

  // ----- runs ------------------------------------------------------------------------------------------------

  datatype Event = Submit(sub: Submission, full: bool) | Receive(w: Wire)

  ghost function Step(s: Ledger, e: Event, capacity: nat): Option<Ledger> {
    match e
    case Submit(sub, full) => Submitted(s, sub, full, capacity)
    case Receive(w) => Responded(s, w)
  }

  /** The ledger after a run; None once something was thrown. */
  ghost function Run(es: seq<Event>, capacity: nat): Option<Ledger> {
    if es == [] then Some(EMPTY_LEDGER)
    else
      var s := Run(es[..|es| - 1], capacity);
      if s == None then None else Step(s.value, es[|es| - 1], capacity)
  }

  // ----- what the trace says ---------------------------------------------------------------------------------

  /** The executed quantity of an order since it was opened. */
  function FilledOf(trace: seq<Mark>, id: int): nat {
    if trace == [] then 0
    else
      var m := trace[|trace| - 1];
      var before := FilledOf(trace[..|trace| - 1], id);
      if m == Opened(id) then 0
      else if m.Replied? && m.id == id && m.kind == FILLED then before + m.exec
      else before
  }

  /** The signed sum of all executions. */
  function NetOf(trace: seq<Mark>): int {
    if trace == [] then 0
    else
      var m := trace[|trace| - 1];
      NetOf(trace[..|trace| - 1]) + if m.Replied? && m.kind == FILLED then SideToValue(m.side) * m.exec else 0
  }

  /** What the venue still owes an order: a terminal reply while it is live, and an answer to each cancel. */
  datatype Debt = Debt(live: bool, cancels: nat)

  const NOTHING: Debt := Debt(false, 0)

  function DebtAfter(d: Debt, m: Mark, id: int): Debt {
    if m.id != id then d
    else
      match m
      case Opened(_) => Debt(true, 0)
      case Asked(_) => d.(cancels := d.cancels + 1)
      case Refused(_, _) => d
      case Replied(_, kind, _, _, leaves) =>
        match kind
        case REJECTED => d.(live := false)
        case CANCELED => Debt(false, if d.cancels > 0 then d.cancels - 1 else 0)
        case CANCEL_REJECTED => d.(cancels := if d.cancels > 0 then d.cancels - 1 else 0)
        case FILLED => if leaves == 0 then d.(live := false) else d
        case _ => d
  }

  function DebtOf(trace: seq<Mark>, id: int): Debt {
    if trace == [] then NOTHING
    else DebtAfter(DebtOf(trace[..|trace| - 1], id), trace[|trace| - 1], id)
  }

  lemma Grown(trace: seq<Mark>, m: Mark, id: int)
    ensures FilledOf(trace + [m], id) ==
      if m == Opened(id) then 0
      else if m.Replied? && m.id == id && m.kind == FILLED then FilledOf(trace, id) + m.exec
      else FilledOf(trace, id)
    ensures NetOf(trace + [m]) ==
      NetOf(trace) + if m.Replied? && m.kind == FILLED then SideToValue(m.side) * m.exec else 0
    ensures DebtOf(trace + [m], id) == DebtAfter(DebtOf(trace, id), m, id)
  {
    assert (trace + [m])[..|trace|] == trace;
  }

  // ----- the invariant of every run --------------------------------------------------------------------------

  /** What was asked for is what remains plus what was executed. */
  ghost predicate Conserved(orders: Orders, trace: seq<Mark>) {
    forall id :: id in orders ==> orders[id].request.qty == orders[id].remaining + FilledOf(trace, id)
  }

  /** All live opens are on one side. */
  ghost predicate OneSided(orders: Orders) {
    forall i, j :: i in orders && j in orders && LiveOpen(orders[i]) && LiveOpen(orders[j]) ==>
      orders[i].request.side == orders[j].request.side
  }

  predicate LiveOpen(o: Order) { !o.terminal && o.request.offset == OPEN }

  ghost predicate Inv(s: Ledger) {
    Conserved(s.orders, s.trace) && s.net == NetOf(s.trace) && OneSided(s.orders)
    && forall id :: id in s.orders ==> s.orders[id].request.id == id
  }

  lemma SubmitConserves(s: Ledger, sub: Submission, full: bool, capacity: nat)
    requires Inv(s) && Submitted(s, sub, full, capacity).Some?
    ensures var s' := Submitted(s, sub, full, capacity).value;
      && Conserved(s'.orders, s'.trace) && s'.net == NetOf(s'.trace)
      && forall id :: id in s'.orders ==> s'.orders[id].request.id == id
  {
    hide NetOf, FilledOf, OppositeExposure, OneSided;
    var s' := Submitted(s, sub, full, capacity);
    var m := s'.value.trace[|s.trace|];
    forall id ensures FilledOf(s.trace + [m], id) == (if m == Opened(id) then 0 else FilledOf(s.trace, id))
                      && NetOf(s.trace + [m]) == NetOf(s.trace) {
      Grown(s.trace, m, id);
    }
  }

  lemma SubmitOneSided(s: Ledger, sub: Submission, full: bool, capacity: nat)
    requires OneSided(s.orders) && Submitted(s, sub, full, capacity).Some?
    ensures OneSided(Submitted(s, sub, full, capacity).value.orders)
  {
  }

  lemma SubmitKeeps(s: Ledger, sub: Submission, full: bool, capacity: nat)
    requires Inv(s)
    ensures var s' := Submitted(s, sub, full, capacity); s'.Some? ==> Inv(s'.value)
  {
    hide Submitted;
    if Submitted(s, sub, full, capacity).Some? {
      SubmitConserves(s, sub, full, capacity);
      SubmitOneSided(s, sub, full, capacity);
    }
    hide Conserved, OneSided, NetOf;
  }

  lemma ResponseKeeps(s: Ledger, w: Wire)
    requires Inv(s)
    ensures var s' := Responded(s, w); s'.Some? ==> Inv(s'.value)
  {
    hide NetOf, FilledOf;
    if Responded(s, w).Some? {
      var m := Replied(w.id, w.kind, w.side, w.exec, w.leaves);
      forall id ensures FilledOf(s.trace + [m], id) == FilledOf(s.trace, id) + (if w.id == id
          && w.kind == FILLED then w.exec else 0) {
        Grown(s.trace, m, id);
      }
      Grown(s.trace, m, w.id);
    }
  }

  /** In every run without exceptions: quantities are conserved per order, the position is the signed sum of all
      executions, and all live opens are on one side. */
  lemma {:induction false} RunKeeps(es: seq<Event>, capacity: nat)
    requires Run(es, capacity).Some?
    ensures Inv(Run(es, capacity).value)
  {
    hide Submitted, Responded;
    if es == [] {
    } else {
      RunKeeps(es[..|es| - 1], capacity);
      var s := Run(es[..|es| - 1], capacity).value;
      match es[|es| - 1] {
        case Submit(sub, full) => SubmitKeeps(s, sub, full, capacity);
        case Receive(w) => ResponseKeeps(s, w);
      }
      hide Inv;
    }
  }

  // ----- terminal orders -------------------------------------------------------------------------------------

  ghost predicate GoneOrTerminal(s: Ledger, id: int) { id in s.orders ==> s.orders[id].terminal }

  /** A step brings a finished order back only by opening its identifier anew, once it has been purged. */
  lemma StepKeepsTerminal(s: Ledger, e: Event, capacity: nat, id: int)
    requires Step(s, e, capacity).Some? && GoneOrTerminal(s, id)
    ensures var s' := Step(s, e, capacity).value;
      && s.trace <= s'.trace
      && (GoneOrTerminal(s', id) || (id !in s.orders && s'.trace == s.trace + [Opened(id)]))
  {
  }

  /** `terminal` never reverts: as long as the identifier is not opened anew, the order stays finished. */
  lemma {:induction false} TerminalNeverReverts(es: seq<Event>, capacity: nat, k: nat, id: int)
    requires k <= |es| && Run(es[..k], capacity).Some? && Run(es, capacity).Some?
    requires GoneOrTerminal(Run(es[..k], capacity).value, id)
    ensures var before, after := Run(es[..k], capacity).value.trace, Run(es, capacity).value.trace;
      before <= after && (Opened(id) !in after[|before|..] ==> GoneOrTerminal(Run(es, capacity).value, id))
  {
    hide Step, GoneOrTerminal;
    if k == |es| {
      assert es[..k] == es;
    } else {
      var n := |es| - 1;
      assert es[..n][..k] == es[..k];
      TerminalNeverReverts(es[..n], capacity, k, id);
      var start, s, s' := Run(es[..k], capacity).value, Run(es[..n], capacity).value, Run(es, capacity).value;
      StepExtends(s, es[n], capacity);
      if Opened(id) !in s'.trace[|start.trace|..] {
        assert s'.trace[|start.trace|..] == s.trace[|start.trace|..] + s'.trace[|s.trace|..];
        StepKeepsTerminal(s, es[n], capacity, id);
        LastOf(s.trace, Opened(id), |start.trace|);
      }
    }
  }

  lemma LastOf(trace: seq<Mark>, m: Mark, k: nat)
    requires k <= |trace|
    ensures m in (trace + [m])[k..]
  {
    assert (trace + [m])[k..][|trace| - k] == m;
  }

  lemma StepExtends(s: Ledger, e: Event, capacity: nat)
    requires Step(s, e, capacity).Some?
    ensures s.trace <= Step(s, e, capacity).value.trace
  {
  }

  // ----- what is owed ----------------------------------------------------------------------------------------

  /** The venue's side of the protocol: it is silent about orders it owes nothing, and answers a cancel once. */
  predicate VenueAllows(s: Ledger, w: Wire) {
    var d := DebtOf(s.trace, w.id);
    match w.kind
    case CANCEL_REJECTED => d.cancels > 0
    case OTHER => false
    case _ => d.live
  }

  predicate Allowed(s: Ledger, e: Event) { e.Receive? ==> VenueAllows(s, e.w) }

  /** The ledger knows exactly what is owed: nothing for an order it does not hold. */
  ghost predicate Debts(s: Ledger) {
    forall id :: DebtOf(s.trace, id) ==
      if id in s.orders then Debt(!s.orders[id].terminal, if s.orders[id].cancelPending then 1 else 0) else NOTHING
  }

  lemma StepKeepsDebts(s: Ledger, e: Event, capacity: nat)
    requires Debts(s) && Allowed(s, e) && Step(s, e, capacity).Some?
    ensures Debts(Step(s, e, capacity).value)
  {
    hide DebtOf, OppositeExposure;
    var s' := Step(s, e, capacity).value;
    var m := s'.trace[|s.trace|];
    forall id ensures DebtOf(s.trace + [m], id) == DebtAfter(DebtOf(s.trace, id), m, id) {
      Grown(s.trace, m, id);
    }
  }

  ghost predicate AllowedRun(es: seq<Event>, capacity: nat) {
    forall k: nat :: k < |es| && Run(es[..k], capacity).Some? ==> Allowed(Run(es[..k], capacity).value, es[k])
  }

  lemma AllowedPrefix(es: seq<Event>, capacity: nat)
    requires es != [] && AllowedRun(es, capacity)
    ensures AllowedRun(es[..|es| - 1], capacity)
    ensures Run(es[..|es| - 1], capacity).Some? ==> Allowed(Run(es[..|es| - 1], capacity).value, es[|es| - 1])
  {
    hide Run, Allowed;
    var n := |es| - 1;
    forall k: nat | k < n && Run(es[..n][..k], capacity).Some?
      ensures Allowed(Run(es[..n][..k], capacity).value, es[..n][k])
    {
      assert es[..n][..k] == es[..k];
    }
  }

  lemma {:induction false} RunKeepsDebts(es: seq<Event>, capacity: nat)
    requires AllowedRun(es, capacity) && Run(es, capacity).Some?
    ensures Debts(Run(es, capacity).value)
  {
    hide AllowedRun, Step, Allowed;
    if es != [] {
      AllowedPrefix(es, capacity);
      RunKeepsDebts(es[..|es| - 1], capacity);
      StepKeepsDebts(Run(es[..|es| - 1], capacity).value, es[|es| - 1], capacity);
      hide Debts;
    }
  }

  /** With a venue that keeps the protocol, the purge never drops an order that is still owed a reply: whatever
      the venue may send next is about an order the ledger holds. */
  lemma PurgeNeverDropsOwed(es: seq<Event>, capacity: nat, w: Wire)
    requires AllowedRun(es, capacity) && Run(es, capacity).Some? && VenueAllows(Run(es, capacity).value, w)
    ensures w.id in Run(es, capacity).value.orders
    ensures var o := Run(es, capacity).value.orders[w.id]; !Purgeable(o)
  {
    RunKeepsDebts(es, capacity);
    hide Run, AllowedRun;
  }

  lemma RunOneMore(es: seq<Event>, e: Event, capacity: nat)
    requires Run(es, capacity).Some?
    ensures Run(es + [e], capacity) == Step(Run(es, capacity).value, e, capacity)
  {
    hide Step;
    assert (es + [e])[..|es|] == es;
  }

  // ----- when a finished order leaves ------------------------------------------------------------------------

  /** The submission goes to the venue while the ledger is full. */
  ghost predicate PurgesAt(s: Ledger, e: Event, capacity: nat) {
    e.Submit? && Passes(s, e.sub) && !e.full && |s.orders| >= capacity
  }

  /** An order is held, finished and waits for nothing. */
  ghost predicate HeldFinished(s: Ledger, id: int, request: Request) {
    id in s.orders && Purgeable(s.orders[id]) && s.orders[id].request == request
  }

  /** A finished order without a pending cancel leaves exactly at a purge, and stays as it is until then. */
  lemma LeavesExactlyAtPurge(s: Ledger, e: Event, capacity: nat, id: int)
    requires id in s.orders && Purgeable(s.orders[id]) && Step(s, e, capacity).Some?
    ensures var s' := Step(s, e, capacity).value;
      if PurgesAt(s, e, capacity) then id !in s'.orders else HeldFinished(s', id, s.orders[id].request)
  {
    hide OppositeExposure;
  }

  /** A purge happened at or after the k-th event. */
  ghost predicate PurgedSince(es: seq<Event>, capacity: nat, k: nat) {
    exists j: nat :: k <= j < |es| && PurgedAtEvent(es, capacity, j)
  }

  ghost predicate PurgedAtEvent(es: seq<Event>, capacity: nat, j: nat)
    requires j < |es|
  {
    Run(es[..j], capacity).Some? && PurgesAt(Run(es[..j], capacity).value, es[j], capacity)
  }

  lemma PurgedSinceGrows(es: seq<Event>, capacity: nat, k: nat)
    requires k < |es|
    ensures PurgedSince(es, capacity, k) <==>
      PurgedSince(es[..|es| - 1], capacity, k) || PurgedAtEvent(es, capacity, |es| - 1)
  {
    hide Run, PurgesAt;
    var n := |es| - 1;
    forall j: nat | j < n ensures PurgedAtEvent(es[..n], capacity, j) <==> PurgedAtEvent(es, capacity, j) {
      assert es[..n][..j] == es[..j];
    }
    hide PurgedAtEvent;
  }

  /** As long as its identifier is not opened anew, a finished order is held exactly until the first purge. */
  lemma {:induction false} HeldUntilPurge(es: seq<Event>, capacity: nat, k: nat, id: int)
    requires k <= |es| && Run(es[..k], capacity).Some? && Run(es, capacity).Some?
    requires id in Run(es[..k], capacity).value.orders && Purgeable(Run(es[..k], capacity).value.orders[id])
    ensures var start, s := Run(es[..k], capacity).value, Run(es, capacity).value;
      && start.trace <= s.trace
      && (Opened(id) !in s.trace[|start.trace|..] ==>
            if PurgedSince(es, capacity, k) then id !in s.orders else HeldFinished(s, id, start.orders[id].request))
  {
    hide Step, HeldFinished, Purgeable, PurgesAt;
    if k == |es| {
      assert es[..k] == es;
      HeldNow(Run(es, capacity).value, id);
    } else {
      var n := |es| - 1;
      assert es[..n][..k] == es[..k];
      HeldUntilPurge(es[..n], capacity, k, id);
      var start, s, s' := Run(es[..k], capacity).value, Run(es[..n], capacity).value, Run(es, capacity).value;
      StepExtends(s, es[n], capacity);
      PurgedSinceGrows(es, capacity, k);
      if Opened(id) !in s'.trace[|start.trace|..] {
        assert s'.trace[|start.trace|..] == s.trace[|start.trace|..] + s'.trace[|s.trace|..];
        HeldStep(s, es[n], capacity, id, start.orders[id].request);
        LastOf(s.trace, Opened(id), |start.trace|);
      }
    }
  }

  lemma HeldNow(s: Ledger, id: int)
    requires id in s.orders && Purgeable(s.orders[id])
    ensures HeldFinished(s, id, s.orders[id].request)
  {
  }

  lemma HeldStep(s: Ledger, e: Event, capacity: nat, id: int, request: Request)
    requires Step(s, e, capacity).Some?
    ensures var s' := Step(s, e, capacity).value;
      && (HeldFinished(s, id, request) ==>
            if PurgesAt(s, e, capacity) then id !in s'.orders else HeldFinished(s', id, request))
      && (id !in s.orders && s'.trace != s.trace + [Opened(id)] ==> id !in s'.orders)
  {
    if HeldFinished(s, id, request) { LeavesExactlyAtPurge(s, e, capacity, id); }
    if id !in s.orders && id in Step(s, e, capacity).value.orders { OnlyOpenedEnters(s, e, capacity, id); }
    hide Step, HeldFinished, PurgesAt;
  }

  lemma OnlyOpenedEnters(s: Ledger, e: Event, capacity: nat, id: int)
    requires Step(s, e, capacity).Some? && id !in s.orders && id in Step(s, e, capacity).value.orders
    ensures Step(s, e, capacity).value.trace == s.trace + [Opened(id)]
  {
    hide OppositeExposure;
  }

  /** A well-formed rejection of a cancel. */
  function LateAnswer(id: int, request: Request): Wire {
    Wire(true, true, id, CANCEL_REJECTED, request.side, request.offset, 0, 0, 0)
  }

  /** Whatever the venue's protocol: the answer to a cancel that comes after the order is finished (by a
      cancellation of the venue's own, say) ends the adapter exactly when a purge has happened since the order was
      finished. */
  lemma LateAnswerFatalExactly(es: seq<Event>, capacity: nat, k: nat, id: int)
    requires k <= |es| && Run(es[..k], capacity).Some? && Run(es, capacity).Some?
    requires id in Run(es[..k], capacity).value.orders && Purgeable(Run(es[..k], capacity).value.orders[id])
    ensures var start, s := Run(es[..k], capacity).value, Run(es, capacity).value;
      start.trace <= s.trace
      && (Opened(id) !in s.trace[|start.trace|..] ==>
            (Step(s, Receive(LateAnswer(id, start.orders[id].request)), capacity) == None
             <==> PurgedSince(es, capacity, k)))
  {
    HeldUntilPurge(es, capacity, k, id);
    hide Run, PurgedSince;
  }

  // A buy order for one lot, a request to cancel it, and the venue's own cancellation.

  function BuyOne(id: int, price: int): Request { Request(NEW, 0, id, BUY, price, 1, OPEN) }

  function OpenOne(id: int, price: int): Event { Submit(Submission(BuyOne(id, price), true, LIMIT), false) }

  function CancelOne(price: int): Event {
    Submit(Submission(BuyOne(1, price).(kind := CANCEL_ORDER), true, LIMIT), false)
  }

  function Reply(kind: ResponseType, price: int): Event { Receive(Wire(true, true, 1, kind, BUY, OPEN, price, 0, 0)) }

  function One(price: int, terminal: bool, pending: bool, trace: seq<Mark>): Ledger {
    Ledger(map[1 := Order(BuyOne(1, price), LIMIT, 1, terminal, pending)], 0, trace)
  }

  lemma OpensOne(price: int)
    requires ValidPrice(price)
    ensures Step(EMPTY_LEDGER, OpenOne(1, price), 1) == Some(One(price, false, false, [Opened(1)]))
  {
    assert Passes(EMPTY_LEDGER, OpenOne(1, price).sub) && [] + [Opened(1)] == [Opened(1)];
  }

  lemma CancelsOne(price: int)
    requires ValidPrice(price)
    ensures Step(One(price, false, false, [Opened(1)]), CancelOne(price), 1)
         == Some(One(price, false, true, [Opened(1), Asked(1)]))
  {
    var s, s' := One(price, false, false, [Opened(1)]), One(price, false, true, [Opened(1), Asked(1)]);
    assert Passes(s, CancelOne(price).sub) && Purged(s.orders) == s.orders;
    assert s.orders[1 := s'.orders[1]] == s'.orders && s.trace + [Asked(1)] == s'.trace;
  }

  lemma VenueCancels(price: int)
    ensures Step(One(price, false, true, [Opened(1), Asked(1)]), Reply(CANCELED, price), 1)
         == Some(One(price, true, false, [Opened(1), Asked(1), Replied(1, CANCELED, BUY, 0, 0)]))
  {
    var s := One(price, false, true, [Opened(1), Asked(1)]);
    assert s.orders[1 := s.orders[1].(terminal := true, cancelPending := false)] == One(price, true, false, []).orders;
    assert s.trace + [Replied(1, CANCELED, BUY, 0, 0)] == [Opened(1), Asked(1), Replied(1, CANCELED, BUY, 0, 0)];
  }

  lemma NothingRan(capacity: nat)
    ensures Run([], capacity) == Some(EMPTY_LEDGER)
  {
  }

  lemma CanceledByVenue(price: int)
    requires ValidPrice(price)
    ensures Run([OpenOne(1, price), CancelOne(price), Reply(CANCELED, price)], 1)
         == Some(One(price, true, false, [Opened(1), Asked(1), Replied(1, CANCELED, BUY, 0, 0)]))
  {
    hide Run, Step, One, OpenOne, CancelOne, Reply;
    var e1, e2, e3 := OpenOne(1, price), CancelOne(price), Reply(CANCELED, price);
    NothingRan(1);
    OpensOne(price);
    CancelsOne(price);
    VenueCancels(price);
    assert [] + [e1] == [e1] && [e1] + [e2] == [e1, e2] && [e1, e2] + [e3] == [e1, e2, e3];
    RunOneMore([], e1, 1);
    RunOneMore([e1], e2, 1);
    RunOneMore([e1, e2], e3, 1);
  }

  /** The protocol is needed: a venue that cancels on its own account while a cancel is outstanding, and then
      still answers the cancel, meets a ledger that may have purged the order, and the adapter dies. */
  lemma AnswerAfterOwnCancelIsFatal(price: int)
    requires ValidPrice(price)
    ensures var es := [OpenOne(1, price), CancelOne(price), Reply(CANCELED, price), OpenOne(2, price)];
      Run(es, 1).Some? && Step(Run(es, 1).value, Reply(CANCEL_REJECTED, price), 1) == None
  {
    var es := [OpenOne(1, price), CancelOne(price), Reply(CANCELED, price)];
    CanceledByVenue(price);
    RunOneMore(es, OpenOne(2, price), 1);
    hide Run;
    var s := One(price, true, false, [Opened(1), Asked(1), Replied(1, CANCELED, BUY, 0, 0)]);
    assert Passes(s, OpenOne(2, price).sub) && Purged(s.orders) == map[];
    assert es + [OpenOne(2, price)] == [OpenOne(1, price), CancelOne(price), Reply(CANCELED, price), OpenOne(2, price)];
  }
}
