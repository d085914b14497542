/** The adapter object (src/trading/venue/simnow/simnow_execution.h): orders, position and session state updated
    in place by requests, callbacks and polling. Exceptions are returned as false. */
module SimNowExecutions {
  import opened Common
  import opened PositionKeeper
  import opened OrderManager
  import opened Responses
  import opened Numerals
  import opened SimNowSpec
  import opened SimNowSafety
  import opened SimNowLifecycle

  class SimNowExecution {
    const instrument: string
    var orders: map<nat, Order>
    var netPosition: int
    var responses: seq<Response>
    ghost var used: multiset<int>
    var nextRef: nat
    var link: Link
    var ready: bool
    var nextId: int
    var front: int
    var session: int
    var day: string
    var fatal: bool
    var stopping: bool
    var disconnected: bool

    ghost function View(): State
      reads this
    {
      State(instrument, Book(orders, netPosition, responses, used, nextRef), link, ready, nextId, front, session, day,
            fatal, stopping, disconnected)
    }

    /** What every public method relies on and keeps. */
    ghost predicate Valid()
      reads this
    {
      Inv(View())
    }

    constructor (instrument: string)
      ensures Valid() && View() == Initial(instrument)
    {
      this.instrument := instrument;
      orders, netPosition, responses, used, nextRef := map[], 0, [], multiset{}, 0;
      link := Link(false, map[], [], INSTRUMENT, 0, false, false, false, true, None);
      ready, nextId, front, session, day := false, 0, 0, 0, "";
      fatal, stopping, disconnected := false, false, false;
      new;
      InitialInv(instrument);
    }

    method Fail()
      modifies this`fatal, this`ready
      ensures View() == Failed(old(View()))
    {
      fatal, ready := true, false;
    }

    method Store(ref: nat, o: Order)
      modifies this`orders
      ensures View() == Put(old(View()), ref, o)
    {
      orders := orders[ref := o];
    }

    method Publish(ref: nat, o: Order, kind: ResponseType)
      modifies this`orders, this`responses
      ensures View() == Say(old(View()), ref, o, kind)
    {
      orders := orders[ref := o];
      responses := responses + [Answer(o.request, o.fills, kind, 0, PRICE_INVALID)];
    }

    /** `finish`. */
    method Finish(ref: nat, o: Order) returns (ok: bool)
      modifies this`orders, this`responses
      ensures (View(), ok) == Finished(old(View()), ref, o)
    {
      ok := true;
      if o.done || !o.hasTerminal || o.fills < o.reported {
        Store(ref, o);
        return;
      }
      if o.fills > o.reported {
        Store(ref, o);
        return false;
      }
      if o.fills < o.request.qty {
        Publish(ref, o.(done := true), if o.rejected then REJECTED else CANCELED);
      } else {
        Store(ref, o.(done := true));
      }
    }

    /** `cancel`. */
    method Cancel(ref: nat, rc: int)
      requires ref in orders
      modifies this
      ensures orders.Keys == old(orders.Keys) && stopping == old(stopping)
      ensures View() == CancelSent(old(View()), ref, rc)
    {
      var o := orders[ref];
      if o.done || o.hasTerminal || o.cancelSent || disconnected {
        return;
      }
      nextId := nextId + 1;
      o := o.(cancelId := nextId, cancelSent := true);
      Store(ref, o);
      if rc != 0 {
        Publish(ref, o, CANCEL_REJECTED);
        Fail();
      }
    }

    /** The tests a new order has to pass. */
    method Accepts(sub: Submission) returns (acceptable: bool)
      ensures acceptable == Acceptable(View(), sub)
    {
      var r := sub.request;
      var outstanding := exists ref :: ref in orders && !orders[ref].done;
      if r.kind != NEW || !ready || stopping || fatal || !sub.plain || r.qty != 1 || outstanding {
        return false;
      }
      if r.offset == OPEN && netPosition != 0 {
        return false;
      }
      if r.offset != OPEN && (r.offset != CLOSE_TODAY || netPosition != -SideToValue(r.side)) {
        return false;
      }
      return r.price > 0 && r.price != PRICE_INVALID && link.tick.Some? && r.price % link.tick.value == 0;
    }

    /** A new order under the next reference; `rc` is the transport's return code. */
    method Insert(r: Request, rc: int)
      modifies this`orders, this`responses, this`nextRef, this`nextId
      ensures View() == Inserted(old(View()), r, rc)
    {
      nextRef := nextRef + 1;
      nextId := nextId + 1;
      var o := NewlyStored(r, nextId);
      Store(nextRef, o);
      if rc != 0 {
        Publish(nextRef, o.(done := true), REJECTED);
      }
    }

    /** `submit`, its exception caught. A cancellation goes to the first order of its identifier in the dictionary
        order of the references. */
    method SubmitRequest(sub: Submission, rc: int)
      modifies this
      ensures View() == Submitted(old(View()), sub, rc)
    {
      hide CancelSent, Failed, Acceptable, Inserted, Refused, IsFirst, OrdersOf, Submitted;
      SubmittedOtherwise(View(), sub, rc);
      var r := sub.request;
      Note(r);
      if !sub.ours {
        Fail();
        return;
      }
      if r.kind == CANCEL_ORDER {
        var found := OrderOf(r.id);
        if found.Some? {
          assert View() == old(View());
          SubmittedCancels(View(), sub, rc, found.value);
          Cancel(found.value, rc);
          return;
        }
      }
      hide Noted;
      var acceptable := Accepts(sub);
      if acceptable {
        Insert(r, rc);
      } else {
        Reject(r);
      }
    }

    /** `handleRequest`. */
    method HandleRequest(sub: Submission, rc: int)
      requires Valid()
      modifies this
      ensures Valid() && View() == Submitted(old(View()), sub, rc)
    {
      hide Inv, Submitted;
      SubmissionKeeps(View(), sub, rc);
      SubmitRequest(sub, rc);
    }

    /** The identifier of a new-order request is counted. */
    ghost method Note(r: Request)
      modifies this`used
      ensures View() == Noted(old(View()), r)
    {
      if r.kind == NEW {
        used := used + multiset{r.id};
      }
    }

    method Reject(r: Request)
      modifies this`responses
      ensures View() == Refused(old(View()), r)
    {
      responses := responses + [Answer(r, 0, if r.kind == NEW then REJECTED else CANCEL_REJECTED, 0, PRICE_INVALID)];
    }

    /** The order of a client identifier that walking the map meets first. */
    method OrderOf(id: int) returns (found: Option<nat>)
      ensures found == None ==> OrdersOf(View().book, id) == {}
      ensures found.Some? ==> IsFirst(OrdersOf(View().book, id), found.value)
    {
      hide Before;
      var own := OrdersOf(Book(orders, netPosition, responses, multiset{}, nextRef), id);
      assert own == OrdersOf(View().book, id);
      if exists ref :: ref in own {
        ghost var first := FirstExists(own);
        var ref :| ref in own && forall other :: other in own ==> other == ref || Before(ref, other);
        return Some(ref);
      }
      return None;
    }

    /** The part of `orderEvent` for an order that is not done. */
    method Progress(p: OrderField, order: Order) returns (ok: bool)
      modifies this`orders, this`responses
      ensures (View(), ok) == Progressed(old(View()), p, order)
    {
      hide Finished;
      var o := order;
      if p.submit == CANCEL_REJECTED_STATUS && !o.cancelRejected {
        o := o.(cancelRejected := true);
        Publish(p.ref, o, CANCEL_REJECTED);
      } else {
        Store(p.ref, o);
      }
      if TerminalStatus(p.status) || p.submit == INSERT_REJECTED {
        ok := Finish(p.ref, o.(hasTerminal := true, rejected := p.submit == INSERT_REJECTED));
        return;
      }
      if !o.accepted && (p.status == NO_TRADE_QUEUEING || p.status == PART_TRADED_QUEUEING) {
        Publish(p.ref, o.(accepted := true), ACCEPTED);
      }
      return true;
    }

    /** `orderEvent`. */
    method OrderEvent(p: OrderField) returns (ok: bool)
      modifies this`orders, this`responses
      ensures (View(), ok) == OnOrder(old(View()), p)
    {
      hide Progressed;
      if p.ref !in orders || p.front != front || p.session != session || p.instrument != instrument {
        return false;
      }
      var o := orders[p.ref];
      if p.sys != "" {
        o := o.(sys := p.sys);
      }
      if p.traded < 0 || p.traded > 1 {
        Store(p.ref, o);
        return false;
      }
      o := o.(reported := Max(o.reported, p.traded));
      if o.done {
        Store(p.ref, o);
        return true;
      }
      ok := Progress(p, o);
    }

    /** `tradeEvent`. */
    method TradeEvent(p: TradeField) returns (ok: bool)
      modifies this`orders, this`responses, this`netPosition
      ensures (View(), ok) == OnTrade(old(View()), p)
    {
      if p.ref !in orders || p.instrument != instrument || p.exchange != "SHFE" || p.day != day {
        return false;
      }
      var o := orders[p.ref];
      if o.sys != "" && o.sys != p.sys {
        return false;
      }
      if TradeKey(p) in o.trades {
        return true;
      }
      if !GoodTrade(o, p) {
        return false;
      }
      o := o.(trades := o.trades + {TradeKey(p)}, fills := o.fills + 1);
      netPosition := netPosition + SideToValue(o.request.side);
      responses := responses + [Answer(o.request, o.fills, FILLED, 1, p.price)];
      orders := orders[p.ref := o.(done := true)];
      return true;
    }

    /** `InsertError` and `CancelError`. */
    method ErrorEvent(e: Event) returns (ok: bool)
      requires Valid()
      modifies this`orders, this`responses
      ensures (View(), ok) == OnError(old(View()), e)
    {
      hide Inv, Finished;
      if e.error == 0 {
        return true;
      }
      OneOrderPerNumber(View(), e);
      var ref: nat := 0;
      if e.payload.InputField? && e.payload.ref in orders {
        ref := e.payload.ref;
      } else if r: nat :| (r in orders && e.requestId != 0 && NumberFor(orders[r], e.kind) == e.requestId) {
        assert ErrorNames(View(), e, r);
        ref := r;
      } else {
        assert !(exists r :: ErrorNames(View(), e, r));
        return false;
      }
      assert ErrorTarget(View(), e) == Some(ref);
      hide ErrorTarget;
      var o := orders[ref];
      if o.done {
        return true;
      }
      if e.kind == INSERT_ERROR {
        ok := Finish(ref, o.(rejected := true, hasTerminal := true));
        return;
      }
      if !o.cancelRejected {
        Publish(ref, o.(cancelRejected := true), CANCEL_REJECTED);
      }
      return true;
    }

    /** `request`. */
    method Ask(kind: Kind, rc: int) returns (ok: bool)
      modifies this`nextId, this`link
      ensures (View(), ok) == Requested(old(View()), kind, rc)
    {
      nextId := nextId + 1;
      link := link.(requests := link.requests[nextId := kind]);
      return rc == 0;
    }

    /** The answer to the login. */
    method LogIn(p: Payload, rc: int, marketDay: string) returns (ok: bool)
      modifies this`front, this`session, this`day, this`nextRef, this`nextId, this`link
      ensures (View(), ok) == LoggedIn(old(View()), p, rc, marketDay)
    {
      if !p.LoginField? || p.day == "" {
        return false;
      }
      front, session, day := p.front, p.session, p.day;
      if (marketDay != "" && marketDay != day) || p.maxRef == None {
        return false;
      }
      nextRef := p.maxRef.value;
      ok := Ask(SETTLEMENT, rc);
    }

    /** The login sequence. */
    method StageEvent(e: Event, rc: int, marketDay: string) returns (ok: bool)
      modifies this`front, this`session, this`day, this`nextRef, this`nextId, this`link
      ensures (View(), ok) == OnStage(old(View()), e, rc, marketDay)
    {
      hide LoggedIn, Requested;
      if e.requestId !in link.requests || link.requests[e.requestId] != e.kind || !e.last {
        return true;
      }
      link := link.(requests := link.requests - {e.requestId});
      match e.kind {
        case AUTH => ok := Ask(LOGIN, rc);
        case LOGIN => ok := LogIn(e.payload, rc, marketDay);
        case _ =>
          link := link.(queries := [INSTRUMENT, ACCOUNT, POSITION, ORDER_QUERY]);
          return true;
      }
    }

    /** `event`. */
    method HandleEvent(e: Event, rc: int, marketDay: string) returns (ok: bool)
      requires Valid()
      modifies this
      ensures (View(), ok) == OnEvent(old(View()), e, rc, marketDay)
    {
      hide Inv, OnOrder, OnTrade, OnError, OnStage, OnQuery;
      if e.kind == DISCONNECTED {
        disconnected := true;
        return false;
      }
      if e.kind == ORDER {
        ok := true;
        if e.payload.OrderPayload? {
          ok := OrderEvent(e.payload.order);
        }
      } else if e.kind == TRADE {
        ok := true;
        if e.payload.TradePayload? {
          ok := TradeEvent(e.payload.trade);
        }
      } else if e.kind == INSERT_ERROR || e.kind == CANCEL_ERROR {
        ok := ErrorEvent(e);
      } else if fatal {
        return true;
      } else if e.error != 0 {
        ok := link.startupDone && link.queryId != 0 && e.requestId == link.queryId && link.queryKind == ACCOUNT;
        if ok {
          link := link.(queryId := 0, accountUsable := false);
          ready := false;
        }
      } else if e.kind == CONNECTED {
        if link.connected {
          return false;
        }
        link := link.(connected := true);
        ok := Ask(AUTH, rc);
      } else if e.kind == AUTH || e.kind == LOGIN || e.kind == SETTLEMENT {
        ok := StageEvent(e, rc, marketDay);
      } else {
        var (l, queried) := OnQuery(link, instrument, e);
        link := l;
        return queried;
      }
    }

    /** One turn of the loop in `pollOrders`: a callback, its exception caught. */
    method HandleCallback(e: Event, rc: int, marketDay: string)
      requires Valid()
      modifies this
      ensures Valid() && View() == Step(old(View()), Callback(e, rc, marketDay))
    {
      hide Inv, OnEvent;
      StepKeeps(View(), Callback(e, rc, marketDay));
      var ok := HandleEvent(e, rc, marketDay);
      if !ok {
        Fail();
      }
    }

    /** The next query, when one is due. */
    method AskNext(poll: Poll) returns (ok: bool)
      modifies this`link, this`nextId
      ensures var due := old(link).queryId == 0 && old(link).queries != [] && poll.queryDue;
        && nextId == (if due then old(nextId) + 1 else old(nextId))
        && (link, ok) == if due then Queried(old(link), nextId, poll) else (old(link), true)
    {
      ok := true;
      if link.queryId == 0 && link.queries != [] && poll.queryDue {
        nextId := nextId + 1;
        var (l, asked) := Queried(link, nextId, poll);
        link, ok := l, asked;
      }
    }

    method PollNow(poll: Poll)
      modifies this`link, this`ready, this`fatal, this`nextId
      ensures View() == Polled(old(View()), poll)
    {
      hide AccountQueued, Queried;
      if fatal {
        ready := false;
        return;
      }
      if link.queryId != 0 && poll.timedOut {
        Fail();
        return;
      }
      link := AccountQueued(link, poll);
      var ok := AskNext(poll);
      if ok {
        ready := link.startupDone && poll.marketReady && link.accountUsable;
      } else {
        Fail();
      }
    }

    /** The rest of `pollOrders` when not stopping. */
    method PollQueries(poll: Poll)
      requires Valid()
      modifies this`link, this`ready, this`fatal, this`nextId
      ensures Valid() && View() == Polled(old(View()), poll)
    {
      hide Inv, Polled;
      PollKeeps(View(), poll);
      PollNow(poll);
    }

    /** The batch of callbacks at the start of `pollOrders`. */
    method DrainCallbacks(batch: seq<(Event, int, string)>)
      requires Valid()
      modifies this
      ensures Valid() && View() == After(old(View()), Callbacks(batch))
    {
      hide Inv, Step;
      assert Callbacks(batch[..0]) == [];
      for i := 0 to |batch|
        invariant Valid() && View() == After(old(View()), Callbacks(batch[..i]))
      {
        assert Callbacks(batch[..i + 1]) == Callbacks(batch[..i]) + [Callback(batch[i].0, batch[i].1, batch[i].2)];
        HandleCallback(batch[i].0, batch[i].1, batch[i].2);
      }
      assert batch[..|batch|] == batch;
    }

    /** The next turn of the loop below: the first order left is cancelled. */
    method CancelNext(left: set<nat>, rcs: map<nat, int>) returns (ref: nat)
      requires Valid() && stopping && left != {} && left <= orders.Keys
      modifies this
      ensures IsFirst(left, ref) && Valid() && stopping && orders.Keys == old(orders.Keys)
      ensures View() == Step(old(View()), CancelForStop(ref, Code(rcs, ref)))
    {
      hide Inv, CancelSent, Before, Step;
      ghost var first := FirstExists(left);
      ref :| ref in left && forall other :: other in left ==> other == ref || Before(ref, other);
      CancelKeeps(View(), ref, Code(rcs, ref));
      StopsBy(View(), ref, Code(rcs, ref));
      Cancel(ref, Code(rcs, ref));
    }

    /** The part of `pollOrders` while stopping: every order is cancelled in turn (with the return codes `rcs`);
        done when none is left open. */
    method PollStopping(rcs: map<nat, int>) returns (stopped: bool)
      requires Valid() && stopping
      modifies this
      ensures Valid() && View() == After(old(View()).(ready := false), Cancels(InOrder(old(orders.Keys)), rcs))
      ensures SweptAll(old(View()).(ready := false), View(), InOrder(old(orders.Keys)))
      ensures forall ref :: ref in orders ==> !Cancelable(orders[ref], disconnected)
      ensures stopped <==> !Outstanding(View())
    {
      hide Inv, After, SweptAll, Cancels, InOrder, IsFirst, Step, Cancelable;
      FlagsKeep(View());
      ready := false;
      ghost var s := View();
      ghost var all := InOrder(orders.Keys);
      ghost var visited: seq<nat> := [];
      var left := orders.Keys;
      AfterNothing(s, rcs);
      while left != {}
        invariant Valid() && left <= orders.Keys == s.book.orders.Keys
        invariant all == visited + InOrder(left)
        invariant View() == After(s, Cancels(visited, rcs)) && stopping
        decreases left
      {
        var ref := CancelNext(left, rcs);
        InOrderUnfolds(left, ref);
        AfterOneCancel(s, visited, ref, rcs);
        assert ref in left by { FirstIsMember(left, ref); }
        left := left - {ref};
        visited := visited + [ref];
      }
      InOrderOfNone();
      assert visited == all;
      stopped := !(exists ref :: ref in orders && !orders[ref].done);
      InOrderListsAll(s.book.orders.Keys);
      SweepExactly(s, all, rcs);
      SweptHasNone(s, View(), all);
    }

    /** `pollOrders`: perhaps a lost callback, the callbacks in turn, then the cancellations or the queries. */
    method PollOrders(overflow: bool, batch: seq<(Event, int, string)>, poll: Poll, rcs: map<nat, int>)
      returns (stopped: bool)
      requires Valid()
      modifies this
      ensures Valid() && View() == PolledOnce(old(View()), overflow, batch, poll, rcs)
      ensures stopped ==> stopping && !Outstanding(View())
    {
      hide Inv, Polled, After;
      if overflow {
        FailedKeeps(View());
        Fail();
      }
      DrainCallbacks(batch);
      stopped := false;
      if stopping {
        stopped := PollStopping(rcs);
      } else {
        PollQueries(poll);
      }
    }

    /** A stop is asked for. */
    method Stop()
      requires Valid()
      modifies this`stopping
      ensures Valid() && View() == Step(old(View()), Stopping)
    {
      FlagsKeep(View());
      hide Inv;
      stopping := true;
    }

    /** Another part of the adapter fails. */
    method Break()
      requires Valid()
      modifies this`fatal
      ensures Valid() && View() == Step(old(View()), OutsideFailure)
    {
      FlagsKeep(View());
      hide Inv;
      fatal := true;
    }
  }

  lemma SubmittedCancels(s: State, sub: Submission, rc: int, ref: nat)
    requires sub.ours && sub.request.kind == CANCEL_ORDER && IsFirst(OrdersOf(s.book, sub.request.id), ref)
    ensures ref in s.book.orders && Submitted(s, sub, rc) == CancelSent(s, ref, rc)
  {
    hide CancelSent, Before;
    FirstIsUnique(OrdersOf(s.book, sub.request.id), ref, First(OrdersOf(s.book, sub.request.id)));
  }

  lemma SubmittedOtherwise(s: State, sub: Submission, rc: int)
    ensures var noted := Noted(s, sub.request);
      && (!sub.ours ==> Submitted(s, sub, rc) == Failed(noted))
      && (sub.ours && (sub.request.kind != CANCEL_ORDER || OrdersOf(noted.book, sub.request.id) == {}) ==>
            Submitted(s, sub, rc) ==
              if Acceptable(noted, sub) then Inserted(noted, sub.request, rc) else Refused(noted, sub.request))
  {
    hide Noted, Acceptable, Inserted, Refused, CancelSent;
  }

  /** The adapter from its construction on: whatever the threads do, the object is the state that runs describe, so
      its position is the signed sum of the executions it has published. */
  method Operate(instrument: string, turns: seq<Turn>) returns (adapter: SimNowExecution)
    ensures fresh(adapter) && adapter.Valid() && adapter.View() == Turned(instrument, turns)
    ensures adapter.netPosition == NetOf(adapter.responses) == Folded(adapter.responses).position
  {
    hide Inv, Submitted, PolledOnce, Accounted, Ledger;
    adapter := new SimNowExecution(instrument);
    for i := 0 to |turns|
      invariant fresh(adapter) && adapter.Valid() && adapter.View() == Turned(instrument, turns[..i])
    {
      TurnsGoOn(instrument, turns, i);
      match turns[i] {
        case Asked(sub, rc) => adapter.HandleRequest(sub, rc);
        case Polling(overflow, batch, poll, rcs) => var stopped := adapter.PollOrders(overflow, batch, poll, rcs);
        case Halt => adapter.Stop();
        case Broken => adapter.Break();
      }
    }
    assert turns[..|turns|] == turns;
    var acts := TurnsAreRun(instrument, turns);
    PositionIsAccountedFor(instrument, acts);
  }

  lemma TurnsGoOn(instrument: string, turns: seq<Turn>, i: nat)
    requires i < |turns|
    ensures Turned(instrument, turns[..i + 1]) == TurnTaken(Turned(instrument, turns[..i]), turns[i])
  {
    assert turns[..i + 1][..i] == turns[..i];
    hide TurnTaken;
  }

  lemma AfterNothing(s: State, rcs: map<nat, int>)
    ensures After(s, Cancels([], rcs)) == s
  {
  }

  lemma FirstIsMember(left: set<nat>, ref: nat)
    requires IsFirst(left, ref)
    ensures ref in left
  {
  }

  /** After cancellations of all orders, none can be cancelled any more. */
  lemma SweptHasNone(s: State, s': State, refs: seq<nat>)
    requires SweptAll(s, s', refs) && forall ref :: ref in s.book.orders ==> ref in refs
    ensures forall ref :: ref in s'.book.orders ==> !Cancelable(s'.book.orders[ref], s'.disconnected)
  {
  }

  /** Stored orders are told apart by their insertion and cancellation numbers. */
  lemma OneOrderPerNumber(s: State, e: Event)
    requires Inv(s)
    ensures forall a, b :: ErrorNames(s, e, a) && ErrorNames(s, e, b) ==> a == b
  {
  }
}
