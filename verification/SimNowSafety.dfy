/** What every run of the SimNow adapter keeps, whatever the CTP library calls back: at most one open order, a
    position of at most one lot that the published executions account for, and an orderly life of every order. */
module SimNowSafety {
  import opened Common
  import opened PositionKeeper
  import opened OrderManager
  import opened Responses
  import opened Numerals
  import opened SimNowSpec

  // ----- the published log -----------------------------------------------------------------------------------

  /** The responses about one client identifier, in order. */
  function Of(log: seq<Response>, id: int): seq<ResponseType> {
    if log == [] then []
    else
      var r := log[|log| - 1];
      Of(log[..|log| - 1], id) + if r.id == id then [r.kind] else []
  }

  /** What a participant's position becomes by folding the published executions. */
  function Folded(log: seq<Response>): Position {
    if log == [] then FLAT
    else
      var r := log[|log| - 1];
      if r.kind == FILLED then Filled(Folded(log[..|log| - 1]), r.fill) else Folded(log[..|log| - 1])
  }

  predicate Terminal(kind: ResponseType) { kind == FILLED || kind == CANCELED || kind == REJECTED }

  function Accepts(kinds: seq<ResponseType>): nat {
    if kinds == [] then 0 else Accepts(kinds[..|kinds| - 1]) + if kinds[|kinds| - 1] == ACCEPTED then 1 else 0
  }

  /** Nothing follows a terminal response. */
  predicate NothingAfterTerminal(kinds: seq<ResponseType>) {
    forall i: nat :: i + 1 < |kinds| ==> !Terminal(kinds[i])
  }

  /** The last response so far is terminal. */
  predicate Ended(kinds: seq<ResponseType>) { kinds != [] && Terminal(kinds[|kinds| - 1]) }

  // ----- the invariant ---------------------------------------------------------------------------------------

  /** One stored order and what was published about it. */
  predicate OrderlyLife(o: Order, kinds: seq<ResponseType>) {
    && (o.done <==> Ended(kinds))
    && NothingAfterTerminal(kinds)
    && Accepts(kinds) == (if o.accepted then 1 else 0)
    && (o.fills == if FILLED in kinds then 1 else 0)
  }

  type Orders = map<nat, Order>

  /** An identifier not used for a new order has had cancel rejections only. */
  ghost predicate Unheard(log: seq<Response>, id: int) {
    forall k: ResponseType :: k in Of(log, id) ==> k == CANCEL_REJECTED
  }

  ghost predicate NoOrderOf(orders: Orders, id: int) {
    forall ref :: ref in orders ==> orders[ref].request.id != id
  }

  /** At most one order has the identifier, and its life is orderly. */
  ghost predicate OneLife(orders: Orders, log: seq<Response>, id: int) {
    && (forall a, b :: a in orders && b in orders && orders[a].request.id == id && orders[b].request.id == id ==>
          a == b)
    && (forall ref :: ref in orders && orders[ref].request.id == id ==> OrderlyLife(orders[ref], Of(log, id)))
  }

  /** What is known of an identifier depends on how often it was used: nothing if it was used twice. */
  ghost predicate Life(orders: Orders, log: seq<Response>, used: multiset<int>, id: int) {
    && (used[id] == 0 ==> Unheard(log, id) && NoOrderOf(orders, id))
    && (used[id] == 1 ==> OneLife(orders, log, id))
  }

  ghost predicate Lives(b: Book) {
    forall id :: Life(b.orders, b.log, b.used, id)
  }

  /** References and numbers tell stored orders apart. */
  ghost predicate Numbered(orders: Orders, nextRef: int, nextId: int) {
    && (forall ref :: ref in orders ==>
          0 < ref <= nextRef && 0 < orders[ref].insertId <= nextId && 0 <= orders[ref].cancelId <= nextId)
    && (forall a, b :: a in orders && b in orders && orders[a].insertId == orders[b].insertId ==> a == b)
    && (forall a, b :: a in orders && b in orders && orders[a].cancelId == orders[b].cancelId != 0 ==> a == b)
  }

  /** An open order waits on a flat position, a close on the position it closes. */
  predicate FitsPosition(o: Order, net: int) {
    && o.request.qty == 1 && (o.request.offset == OPEN || o.request.offset == CLOSE_TODAY)
    && (!o.done ==> o.fills == 0 && net == if o.request.offset == OPEN then 0 else -SideToValue(o.request.side))
  }

  ghost predicate OneOpenOrder(orders: Orders, net: int) {
    && (forall a, b :: a in orders && b in orders && !orders[a].done && !orders[b].done ==> a == b)
    && (forall ref :: ref in orders ==> FitsPosition(orders[ref], net))
  }

  /** The participant's view: today's lot alone, as large as the position. */
  predicate Agree(p: Position, net: int) {
    p.position == net && p.today.qty == Abs(net) && p.yesterday.qty == 0
  }

  /** One lot that opens from a flat position or closes the whole position. */
  predicate FitsNet(f: Fill, net: int) {
    && f.qty == 1 && (f.offset == OPEN || f.offset == CLOSE_TODAY)
    && net == if f.offset == OPEN then 0 else -SideToValue(f.side)
  }

  /** Every published execution fitted the position at its time. */
  ghost predicate FillsFit(log: seq<Response>) {
    forall i :: 0 <= i < |log| && log[i].kind == FILLED ==> FitsNet(log[i].fill, NetOf(log[..i]))
  }

  ghost predicate Accounted(log: seq<Response>, net: int) {
    -1 <= net <= 1 && net == NetOf(log) && Agree(Folded(log), net) && FillsFit(log)
  }

  /** The login is not answered yet. */
  ghost predicate Early(connected: bool, requests: map<int, Kind>) {
    !connected || exists id :: id in requests && requests[id] != SETTLEMENT
  }

  /** At most one request of the login sequence is pending. */
  ghost predicate OneRequest(connected: bool, requests: map<int, Kind>) {
    && (forall a, b :: a in requests && b in requests ==> a == b)
    && (!connected ==> requests == map[])
  }

  /** Before the login is answered nothing has been asked, stored or enabled. */
  ghost predicate Started(l: Link, ready: bool, nextId: int, orders: Orders) {
    && nextId >= 0 && OneRequest(l.connected, l.requests)
    && (Early(l.connected, l.requests) ==>
          l.queries == [] && l.queryId == 0 && !l.startupDone && forall ref :: ref !in orders)
    && (ready ==> l.startupDone)
  }

  /** Everything about orders, published responses and the position. */
  ghost predicate Ledger(b: Book, nextId: int) {
    Numbered(b.orders, b.nextRef, nextId) && OneOpenOrder(b.orders, b.net) && Accounted(b.log, b.net) && Lives(b)
  }

  ghost predicate Inv(s: State) {
    Ledger(s.book, s.nextId) && Started(s.link, s.ready, s.nextId, s.book.orders)
  }

  // ----- the two kinds of change -----------------------------------------------------------------------------

  lemma Appended(log: seq<Response>, r: Response, id: int)
    ensures Of(log + [r], id) == if r.id == id then Of(log, id) + [r.kind] else Of(log, id)
    ensures NetOf(log + [r]) == NetOf(log) + if r.kind == FILLED then SideToValue(r.fill.side) * r.fill.qty else 0
    ensures Folded(log + [r]) == if r.kind == FILLED then Filled(Folded(log), r.fill) else Folded(log)
  {
    assert (log + [r])[..|log|] == log;
    hide Filled;
  }

  /** The same request under the same numbers. */
  predicate SameNumbers(o: Order, o': Order) {
    o'.request == o.request && o'.insertId == o.insertId && o'.cancelId == o.cancelId
  }

  /** The same stage of an order's life. */
  predicate SameStage(o: Order, o': Order) {
    o'.request == o.request && o'.done == o.done && o'.accepted == o.accepted && o'.fills == o.fills
  }

  lemma NumberedAfter(orders: Orders, nextRef: int, nextId: int, ref: nat, o: Order, nextId': int)
    requires Numbered(orders, nextRef, nextId) && ref in orders && nextId <= nextId'
    requires o.insertId == orders[ref].insertId
    requires o.cancelId == orders[ref].cancelId || nextId < o.cancelId <= nextId'
    ensures Numbered(orders[ref := o], nextRef, nextId')
  {
  }

  lemma OneOpenAfter(orders: Orders, net: int, ref: nat, o: Order)
    requires OneOpenOrder(orders, net) && ref in orders && SameStage(orders[ref], o)
    ensures OneOpenOrder(orders[ref := o], net)
  {
  }

  lemma LivesAfter(b: Book, ref: nat, o: Order)
    requires Lives(b) && ref in b.orders && SameStage(b.orders[ref], o)
    ensures Lives(b.(orders := b.orders[ref := o]))
  {
    hide NothingAfterTerminal, Ended, Accepts, Of, Unheard;
    var after := b.orders[ref := o];
    forall id ensures Life(after, b.log, b.used, id) {
      assert Life(b.orders, b.log, b.used, id);
    }
  }

  lemma StartedAfter(l: Link, ready: bool, nextId: int, orders: Orders, ready': bool, nextId': int, orders': Orders)
    requires Started(l, ready, nextId, orders) && nextId <= nextId' && (ready' ==> ready)
    requires (forall ref :: ref in orders' ==> ref in orders) || ready
    ensures Started(l, ready', nextId', orders')
  {
  }

  /** Updating an order's other flags, and perhaps numbering its cancellation, publishes nothing. */
  lemma QuietKeeps(s: State, ref: nat, o: Order, nextId: int)
    requires Inv(s) && ref in s.book.orders && SameStage(s.book.orders[ref], o)
    requires o.insertId == s.book.orders[ref].insertId
    requires s.nextId <= nextId && (o.cancelId == s.book.orders[ref].cancelId || s.nextId < o.cancelId <= nextId)
    ensures Inv(Put(s, ref, o).(nextId := nextId))
  {
    hide Lives, Numbered, OneOpenOrder, Accounted, Started;
    var b := s.book;
    NumberedAfter(b.orders, b.nextRef, s.nextId, ref, o, nextId);
    OneOpenAfter(b.orders, b.net, ref, o);
    LivesAfter(b, ref, o);
    StartedAfter(s.link, s.ready, s.nextId, b.orders, s.ready, nextId, b.orders[ref := o]);
  }

  /** A life goes on by one response, unless it has ended. */
  lemma LifeGoesOn(o: Order, kinds: seq<ResponseType>, k: ResponseType, o': Order)
    requires OrderlyLife(o, kinds) && !o.done && (k == ACCEPTED ==> !o.accepted) && o.fills == 0
    requires o'.done == Terminal(k) && o'.accepted == (o.accepted || k == ACCEPTED)
    requires o'.fills == if k == FILLED then 1 else 0
    ensures OrderlyLife(o', kinds + [k])
  {
    assert (kinds + [k])[..|kinds|] == kinds;
    forall i: nat | i < |kinds| ensures !Terminal(kinds[i]) {
      assert i + 1 < |kinds| || i == |kinds| - 1;
    }
  }

  /** An order of one lot that fits the position, executed, is a proper execution, and the participant agrees. */
  lemma FillAgrees(p: Position, net: int, f: Fill)
    requires Agree(p, net) && -1 <= net <= 1 && FitsNet(f, net)
    ensures Agree(Filled(p, f), net + SideToValue(f.side))
  {
    hide Filled;
    ProperMoves(p, f);
  }

  /** Another identifier's life goes on as it was, and the order's own by one response. */
  lemma LifeSaid(orders: Orders, log: seq<Response>, used: multiset<int>, ref: nat, o: Order, r: Response, id: int)
    requires Life(orders, log, used, id)
    requires ref in orders && o.request == orders[ref].request && r.id == o.request.id
    requires OrderlyLife(orders[ref], Of(log, r.id)) ==> OrderlyLife(o, Of(log, r.id) + [r.kind])
    ensures Life(orders[ref := o], log + [r], used, id)
  {
    Appended(log, r, id);
    hide OrderlyLife, Of, Unheard;
    if id != r.id {
      if Unheard(log, id) { UnheardStill(log, r, id); }
      assert OneLife(orders, log, id) ==> OneLife(orders[ref := o], log + [r], id);
    } else {
      assert !NoOrderOf(orders, id);
      assert OneLife(orders, log, id) ==> OneLife(orders[ref := o], log + [r], id);
    }
  }

  lemma UnheardStill(log: seq<Response>, r: Response, id: int)
    requires id != r.id && Unheard(log, id)
    ensures Unheard(log + [r], id)
  {
    Appended(log, r, id);
  }

  /** A response about a stored order concerns the life of its identifier only. */
  lemma LivesSaid(b: Book, ref: nat, o: Order, r: Response)
    requires Lives(b) && ref in b.orders && o.request == b.orders[ref].request && r.id == o.request.id
    requires OrderlyLife(b.orders[ref], Of(b.log, r.id)) ==> OrderlyLife(o, Of(b.log, r.id) + [r.kind])
    ensures Lives(b.(orders := b.orders[ref := o], log := b.log + [r]))
  {
    hide OrderlyLife, Of, OneLife, Unheard, NoOrderOf;
    var after := b.orders[ref := o];
    forall id ensures Life(after, b.log + [r], b.used, id) {
      assert Life(b.orders, b.log, b.used, id);
      hide Life;
      LifeSaid(b.orders, b.log, b.used, ref, o, r, id);
    }
  }

  lemma AccountedSaid(log: seq<Response>, net: int, r: Response)
    requires Accounted(log, net) && (r.kind == FILLED ==> FitsNet(r.fill, net))
    ensures Accounted(log + [r], net + if r.kind == FILLED then SideToValue(r.fill.side) else 0)
  {
    Appended(log, r, r.id);
    hide NetOf, Folded, Filled;
    if r.kind == FILLED { FillAgrees(Folded(log), net, r.fill); }
    hide Agree;
    var after := log + [r];
    forall i | 0 <= i < |after| && after[i].kind == FILLED ensures FitsNet(after[i].fill, NetOf(after[..i])) {
      if i < |log| { assert after[..i] == log[..i]; } else { assert after[..i] == log; }
    }
  }

  lemma OneOpenSaid(orders: Orders, net: int, ref: nat, o: Order, net': int)
    requires OneOpenOrder(orders, net) && ref in orders && !orders[ref].done && o.request == orders[ref].request
    requires o.done || (net' == net && o.fills == 0)
    ensures OneOpenOrder(orders[ref := o], net')
  {
  }

  /** Publishing one response about an open order: it ends exactly with a terminal one, and an execution moves
      the position by its side. */
  lemma LedgerSaid(b: Book, nextId: int, ref: nat, o: Order, r: Response, net: int)
    requires Ledger(b, nextId)
    requires ref in b.orders && !b.orders[ref].done && SameNumbers(b.orders[ref], o) && r.id == o.request.id
    requires o.done == Terminal(r.kind) && o.accepted == (b.orders[ref].accepted || r.kind == ACCEPTED)
    requires r.kind == ACCEPTED ==> !b.orders[ref].accepted
    requires o.fills == (if r.kind == FILLED then 1 else 0)
    requires net == b.net + (if r.kind == FILLED then SideToValue(o.request.side) else 0)
    requires r.kind == FILLED ==> r.fill.side == o.request.side && r.fill.offset == o.request.offset && r.fill.qty == 1
    ensures Ledger(b.(orders := b.orders[ref := o], log := b.log + [r], net := net), nextId)
  {
    var was := b.orders[ref];
    assert FitsPosition(was, b.net);
    hide Lives, OneOpenOrder, Accounted, Numbered;
    OneOpenSaid(b.orders, b.net, ref, o, net);
    if OrderlyLife(was, Of(b.log, r.id)) { LifeGoesOn(was, Of(b.log, r.id), r.kind, o); }
    hide OrderlyLife, Of;
    LivesSaid(b, ref, o, r);
    LivesIgnoreNet(b.(orders := b.orders[ref := o], log := b.log + [r]), net);
    NumberedAfter(b.orders, b.nextRef, nextId, ref, o, nextId);
    AccountedSaid(b.log, b.net, r);
  }

  lemma LivesIgnoreNet(b: Book, net: int)
    requires Lives(b)
    ensures Lives(b.(net := net))
  {
    hide Life;
  }

  // ----- every operation keeps the invariant -----------------------------------------------------------------

  /** An order that is not done is for one lot and has no executions yet. */
  lemma Waiting(s: State, ref: nat)
    requires Inv(s) && ref in s.book.orders && !s.book.orders[ref].done
    ensures s.book.orders[ref].fills == 0 && s.book.orders[ref].request.qty == 1
    ensures FitsPosition(s.book.orders[ref], s.book.net)
  {
  }

  lemma PutKeeps(s: State, ref: nat, o: Order)
    requires Inv(s) && ref in s.book.orders && SameStage(s.book.orders[ref], o) && SameNumbers(s.book.orders[ref], o)
    ensures var s' := Put(s, ref, o); Inv(s') && ref in s'.book.orders && s'.book.orders[ref] == o
  {
    QuietKeeps(s, ref, o, s.nextId);
    hide Inv;
  }

  /** Publishing anything but an execution about an open order. */
  lemma SayKindKeeps(s: State, ref: nat, o: Order, kind: ResponseType)
    requires Inv(s) && ref in s.book.orders && !s.book.orders[ref].done && SameNumbers(s.book.orders[ref], o)
    requires kind != FILLED
    requires o.done == Terminal(kind) && o.accepted == (s.book.orders[ref].accepted || kind == ACCEPTED) && o.fills == 0
    requires kind == ACCEPTED ==> !s.book.orders[ref].accepted
    ensures var s' := Say(s, ref, o, kind); Inv(s') && ref in s'.book.orders && s'.book.orders[ref] == o
  {
    hide Ledger, Started;
    LedgerSaid(s.book, s.nextId, ref, o, Answer(o.request, 0, kind, 0, PRICE_INVALID), s.book.net);
    StartedAfter(s.link, s.ready, s.nextId, s.book.orders, s.ready, s.nextId, s.book.orders[ref := o]);
  }

  lemma FailedKeeps(s: State)
    requires Inv(s)
    ensures Inv(Failed(s))
  {
    hide Ledger;
  }

  /** `finish` never throws: an order that is not done has no executions, so it cannot have more than reported. */
  lemma FinishedKeeps(s: State, ref: nat, o: Order)
    requires Inv(s) && ref in s.book.orders && SameStage(s.book.orders[ref], o) && SameNumbers(s.book.orders[ref], o)
    ensures Inv(Finished(s, ref, o).0) && Finished(s, ref, o).1
  {
    hide Inv, Put, Say;
    PutKeeps(s, ref, o);
    if !o.done {
      Waiting(s, ref);
      SayKindKeeps(s, ref, o.(done := true), if o.rejected then REJECTED else CANCELED);
    }
  }

  lemma CancelKeeps(s: State, ref: nat, rc: int)
    requires Inv(s) && ref in s.book.orders
    ensures Inv(CancelSent(s, ref, rc))
  {
    hide Inv, Say, Failed;
    var o := s.book.orders[ref].(cancelId := s.nextId + 1, cancelSent := true);
    var s1 := Put(s, ref, o).(nextId := s.nextId + 1);
    QuietKeeps(s, ref, o, s.nextId + 1);
    if !o.done {
      Waiting(s, ref);
      assert s1.book.orders[ref] == o && o.fills == 0;
      SayKindKeeps(s1, ref, o, CANCEL_REJECTED);
      FailedKeeps(Say(s1, ref, o, CANCEL_REJECTED));
    }
  }

  lemma ProgressKeeps(s: State, p: OrderField, o: Order)
    requires Inv(s) && p.ref in s.book.orders && SameStage(s.book.orders[p.ref], o)
        && SameNumbers(s.book.orders[p.ref], o) && !o.done
    ensures Inv(Progressed(s, p, o).0) && Progressed(s, p, o).1
  {
    hide Inv, Put, Say, Finished;
    Waiting(s, p.ref);
    var refuse := p.submit == CANCEL_REJECTED_STATUS && !o.cancelRejected;
    var o' := if refuse then o.(cancelRejected := true) else o;
    var s' := if refuse then Say(s, p.ref, o', CANCEL_REJECTED) else Put(s, p.ref, o');
    if refuse { SayKindKeeps(s, p.ref, o', CANCEL_REJECTED); } else { PutKeeps(s, p.ref, o'); }
    FinishedKeeps(s', p.ref, o'.(hasTerminal := true, rejected := p.submit == INSERT_REJECTED));
    if !o.accepted { SayKindKeeps(s', p.ref, o'.(accepted := true), ACCEPTED); }
  }

  /** An order event throws exactly when it names no order of this session or an impossible quantity. */
  lemma OrderKeeps(s: State, p: OrderField)
    requires Inv(s)
    ensures Inv(OnOrder(s, p).0)
    ensures OnOrder(s, p).1 <==> KnownOrder(s, p) && 0 <= p.traded <= 1
  {
    hide Inv, Put, Progressed;
    if KnownOrder(s, p) {
      var o := s.book.orders[p.ref];
      var o1 := if p.sys != "" then o.(sys := p.sys) else o;
      PutKeeps(s, p.ref, o1);
      if 0 <= p.traded <= 1 {
        var o2 := o1.(reported := Max(o.reported, p.traded));
        PutKeeps(s, p.ref, o2);
        if !o.done { ProgressKeeps(s, p, o2); }
      }
    }
  }

  lemma TradeKeeps(s: State, p: TradeField)
    requires Inv(s)
    ensures Inv(OnTrade(s, p).0)
  {
    hide Ledger, Started;
    if KnownTrade(s, p) && TradeKey(p) !in s.book.orders[p.ref].trades && GoodTrade(s.book.orders[p.ref], p) {
      var o := s.book.orders[p.ref];
      Waiting(s, p.ref);
      hide KnownTrade;
      var o' := o.(trades := o.trades + {TradeKey(p)}, fills := 1, done := true);
      LedgerSaid(s.book, s.nextId, p.ref, o', Answer(o.request, 1, FILLED, 1, p.price),
                 s.book.net + SideToValue(o.request.side));
      StartedAfter(s.link, s.ready, s.nextId, s.book.orders, s.ready, s.nextId, s.book.orders[p.ref := o']);
    }
  }

  /** An error callback throws exactly when it is about no stored order. */
  lemma ErrorKeeps(s: State, e: Event)
    requires Inv(s)
    ensures Inv(OnError(s, e).0)
    ensures OnError(s, e).1 <==> e.error == 0 || ErrorTarget(s, e).Some?
  {
    hide Inv, Say, Finished;
    var target := ErrorTarget(s, e);
    if e.error != 0 && target.Some? {
      var ref := target.value;
      assert ref in s.book.orders;
      hide ErrorTarget;
      var o := s.book.orders[ref];
      if !o.done {
        Waiting(s, ref);
        FinishedKeeps(s, ref, o.(rejected := true, hasTerminal := true));
        SayKindKeeps(s, ref, o.(cancelRejected := true), CANCEL_REJECTED);
      }
    }
  }

  lemma {:induction false} NoAccepts(kinds: seq<ResponseType>)
    requires ACCEPTED !in kinds
    ensures Accepts(kinds) == 0
  {
    if kinds != [] {
      NoAccepts(kinds[..|kinds| - 1]);
    }
  }

  lemma UnheardLife(o: Order, kinds: seq<ResponseType>)
    requires (forall k: ResponseType :: k in kinds ==> k == CANCEL_REJECTED) && !o.done && !o.accepted && o.fills == 0
    ensures OrderlyLife(o, kinds)
  {
    NoAccepts(kinds);
    assert forall i: nat :: i < |kinds| ==> kinds[i] in kinds;
  }

  /** The identifier of a new order has been counted; if this is its first use, nothing was heard of it. */
  ghost predicate Fresh(b: Book, r: Request) {
    r.kind == NEW ==> b.used[r.id] > 0 && (b.used[r.id] == 1 ==> Unheard(b.log, r.id) && NoOrderOf(b.orders, r.id))
  }

  lemma NotedKeeps(s: State, r: Request)
    requires Inv(s)
    ensures Inv(Noted(s, r)) && Fresh(Noted(s, r).book, r)
  {
    hide Numbered, OneOpenOrder, Accounted, Started, Unheard, OrderlyLife, Of;
    var b, b' := s.book, Noted(s, r).book;
    assert Life(b.orders, b.log, b.used, r.id);
    forall id ensures Life(b'.orders, b'.log, b'.used, id) {
      assert Life(b.orders, b.log, b.used, id);
    }
  }

  lemma LifeRefused(orders: Orders, log: seq<Response>, used: multiset<int>, r: Response, id: int)
    requires Life(orders, log, used, id) && (used[r.id] == 0 ==> r.kind == CANCEL_REJECTED)
    requires used[r.id] == 1 ==> NoOrderOf(orders, r.id)
    ensures Life(orders, log + [r], used, id)
  {
    Appended(log, r, id);
    hide OrderlyLife, Of;
  }

  /** Refusing a request that stores no order. */
  lemma RefusalKeeps(s: State, r: Response)
    requires Inv(s) && r.kind != FILLED && (s.book.used[r.id] == 0 ==> r.kind == CANCEL_REJECTED)
    requires s.book.used[r.id] == 1 ==> NoOrderOf(s.book.orders, r.id)
    ensures Inv(s.(book := s.book.(log := s.book.log + [r])))
  {
    hide Numbered, OneOpenOrder, Accounted, Started, NoOrderOf;
    var b := s.book;
    AccountedSaid(b.log, b.net, r);
    hide Life;
    forall id ensures Life(b.orders, b.log + [r], b.used, id) {
      assert Life(b.orders, b.log, b.used, id);
      LifeRefused(b.orders, b.log, b.used, r, id);
    }
  }

  lemma NumberedStored(orders: Orders, nextRef: int, nextId: int, o: Order)
    requires Numbered(orders, nextRef, nextId) && 0 <= nextRef && 0 <= nextId
    requires o.insertId == nextId + 1 && o.cancelId == 0
    ensures Numbered(orders[nextRef + 1 := o], nextRef + 1, nextId + 1)
  {
  }

  lemma OneOpenStored(orders: Orders, net: int, ref: nat, o: Order)
    requires OneOpenOrder(orders, net) && (forall q :: q in orders ==> orders[q].done) && FitsPosition(o, net)
    ensures OneOpenOrder(orders[ref := o], net)
  {
  }

  lemma LivesStored(b: Book, o: Order, nextRef: nat)
    requires Lives(b) && b.used[o.request.id] > 0 && b.nextRef + 1 !in b.orders
    requires b.used[o.request.id] == 1 ==> OrderlyLife(o, Of(b.log, o.request.id)) && NoOrderOf(b.orders, o.request.id)
    ensures Lives(b.(orders := b.orders[b.nextRef + 1 := o], nextRef := nextRef))
  {
    hide OrderlyLife, Of, Unheard;
    var after := b.orders[b.nextRef + 1 := o];
    forall id ensures Life(after, b.log, b.used, id) {
      assert Life(b.orders, b.log, b.used, id);
    }
  }

  lemma LedgerStored(b: Book, nextId: int, o: Order)
    requires Ledger(b, nextId) && 0 <= nextId
    requires b.used[o.request.id] > 0
    requires b.used[o.request.id] == 1 ==> Unheard(b.log, o.request.id) && NoOrderOf(b.orders, o.request.id)
    requires o.insertId == nextId + 1 && o.cancelId == 0
    requires (forall q :: q in b.orders ==> b.orders[q].done) && FitsPosition(o, b.net)
    requires !o.done && !o.accepted && o.fills == 0
    ensures Ledger(b.(orders := b.orders[b.nextRef + 1 := o], nextRef := b.nextRef + 1), nextId + 1)
  {
    hide Lives, Accounted, OneOpenOrder, NoOrderOf, FitsPosition, OrderlyLife, Of;
    assert b.nextRef + 1 !in b.orders;
    hide Numbered;
    if b.used[o.request.id] == 1 { UnheardLife(o, Of(b.log, o.request.id)); }
    hide Unheard;
    NumberedStored(b.orders, b.nextRef, nextId, o);
    LivesStored(b, o, b.nextRef + 1);
    OneOpenStored(b.orders, b.net, b.nextRef + 1, o);
  }

  lemma AcceptableFits(s: State, sub: Submission)
    requires Acceptable(s, sub)
    ensures s.ready && sub.request.kind == NEW && FitsPosition(NewlyStored(sub.request, s.nextId + 1), s.book.net)
    ensures forall q :: q in s.book.orders ==> s.book.orders[q].done
  {
  }

  /** Accepting a request opens the only open order. */
  lemma StoredKeeps(s: State, sub: Submission)
    requires Inv(s) && Acceptable(s, sub) && Fresh(s.book, sub.request)
    ensures Inv(Stored(s, sub.request))
  {
    hide Acceptable, Ledger, FitsPosition, Unheard, NoOrderOf;
    AcceptableFits(s, sub);
    var o := NewlyStored(sub.request, s.nextId + 1);
    assert s.nextId >= 0;
    hide Started;
    LedgerStored(s.book, s.nextId, o);
    StartedAfter(s.link, s.ready, s.nextId, s.book.orders, s.ready, s.nextId + 1,
                 s.book.orders[s.book.nextRef + 1 := o]);
  }

  lemma InsertedKeeps(s: State, sub: Submission, rc: int)
    requires Inv(s) && Acceptable(s, sub) && Fresh(s.book, sub.request)
    ensures Inv(Inserted(s, sub.request, rc))
  {
    hide Inv, Say, Acceptable, Fresh;
    StoredKeeps(s, sub);
    var o := NewlyStored(sub.request, s.nextId + 1).(done := true);
    SayKindKeeps(Stored(s, sub.request), s.book.nextRef + 1, o, REJECTED);
  }

  /** A request that is not stored and names no stored order. */
  lemma RefusedKeeps(s: State, r: Request)
    requires Inv(s) && Fresh(s.book, r) && (r.kind == NEW || OrdersOf(s.book, r.id) == {})
    ensures Inv(Refused(s, r))
  {
    hide Inv, Unheard;
    assert forall ref :: ref in s.book.orders && s.book.orders[ref].request.id == r.id ==>
      ref in OrdersOf(s.book, r.id);
    RefusalKeeps(s, Answer(r, 0, if r.kind == NEW then REJECTED else CANCEL_REJECTED, 0, PRICE_INVALID));
  }

  lemma SubmissionKeeps(s: State, sub: Submission, rc: int)
    requires Inv(s)
    ensures Inv(Submitted(s, sub, rc))
  {
    hide Inv, CancelSent, Stored, Inserted, Refused, Failed, Fresh, Acceptable;
    var r := sub.request;
    NotedKeeps(s, r);
    var noted := Noted(s, r);
    hide Noted;
    if !sub.ours {
      FailedKeeps(noted);
    } else if r.kind == CANCEL_ORDER && OrdersOf(noted.book, r.id) != {} {
      CancelKeeps(noted, First(OrdersOf(noted.book, r.id)), rc);
    } else if !Acceptable(noted, sub) {
      RefusedKeeps(noted, r);
    } else {
      AcceptableFits(noted, sub);
      InsertedKeeps(noted, sub, rc);
    }
  }

  // ----- start-up and queries --------------------------------------------------------------------------------

  lemma LedgerNumbers(b: Book, nextId: int, nextId': int)
    requires Ledger(b, nextId) && nextId <= nextId'
    ensures Ledger(b, nextId')
  {
    hide Lives, OneOpenOrder, Accounted;
  }

  /** A link that goes on with the same login. */
  predicate GoesOn(l: Link, l': Link) {
    && l'.connected == l.connected && l'.requests == l.requests
    && (l.queries == [] && l.queryId == 0 && !l.startupDone ==> l'.queries == [] && l'.queryId == 0 && !l'.startupDone)
    && (l.startupDone ==> l'.startupDone)
  }

  /** A link that answers no login and stays quiet early on. */
  lemma StartedLink(l: Link, ready: bool, nextId: int, orders: Orders, l': Link, ready': bool, nextId': int)
    requires Started(l, ready, nextId, orders) && nextId <= nextId' && GoesOn(l, l') && (ready' ==> l'.startupDone)
    ensures Started(l', ready', nextId', orders)
  {
    hide Early, OneRequest;
  }

  lemma PayloadGoesOn(l: Link, instrument: string, p: Payload)
    ensures var l' := OnQueryPayload(l, instrument, p).0;
      && l'.connected == l.connected && l'.requests == l.requests && l'.startupDone == l.startupDone
      && l'.queries == l.queries && l'.queryId == l.queryId
  {
  }

  lemma QueryGoesOn(l: Link, instrument: string, e: Event)
    ensures GoesOn(l, OnQuery(l, instrument, e).0)
  {
    hide OnQueryPayload;
    PayloadGoesOn(l, instrument, e.payload);
  }

  lemma QueryKeeps(s: State, e: Event)
    requires Inv(s)
    ensures Inv(s.(link := OnQuery(s.link, s.instrument, e).0))
  {
    hide Ledger, OnQuery;
    assert s.ready ==> s.link.startupDone;
    hide Started;
    QueryGoesOn(s.link, s.instrument, e);
    StartedLink(s.link, s.ready, s.nextId, s.book.orders, OnQuery(s.link, s.instrument, e).0, s.ready, s.nextId);
  }

  lemma QueuedGoesOn(l: Link, poll: Poll)
    ensures GoesOn(l, AccountQueued(l, poll))
  {
  }

  lemma QueriedGoesOn(l: Link, number: int, poll: Poll)
    requires l.queries != []
    ensures GoesOn(l, Queried(l, number, poll).0)
  {
  }

  lemma GoesOnTwice(a: Link, b: Link, c: Link)
    requires GoesOn(a, b) && GoesOn(b, c)
    ensures GoesOn(a, c)
  {
  }

  lemma PollGoesOn(s: State, poll: Poll)
    requires s.ready ==> s.link.startupDone
    ensures var s' := Polled(s, poll);
      && s'.book == s.book && s.nextId <= s'.nextId && GoesOn(s.link, s'.link) && (s'.ready ==> s'.link.startupDone)
  {
    hide AccountQueued, Queried;
    QueuedGoesOn(s.link, poll);
    var l := AccountQueued(s.link, poll);
    if l.queries != [] {
      QueriedGoesOn(l, s.nextId + 1, poll);
      GoesOnTwice(s.link, l, Queried(l, s.nextId + 1, poll).0);
    }
  }

  lemma PollKeeps(s: State, poll: Poll)
    requires Inv(s)
    ensures Inv(Polled(s, poll))
  {
    hide Ledger, Polled;
    assert s.ready ==> s.link.startupDone;
    hide Started;
    PollGoesOn(s, poll);
    var s' := Polled(s, poll);
    LedgerNumbers(s.book, s.nextId, s'.nextId);
    StartedLink(s.link, s.ready, s.nextId, s.book.orders, s'.link, s'.ready, s'.nextId);
  }

  lemma ConnectKeeps(s: State, rc: int)
    requires Inv(s) && !s.link.connected
    ensures Inv(Requested(s.(link := s.link.(connected := true)), AUTH, rc).0)
  {
    hide Ledger;
    LedgerNumbers(s.book, s.nextId, s.nextId + 1);
  }

  /** Only the answer to a pending login changes the reference counter, and then no order is stored. */
  lemma LoginKeeps(b: Book, nextId: int, nextRef: nat)
    requires Ledger(b, nextId) && forall ref :: ref !in b.orders
    ensures Ledger(b.(nextRef := nextRef), nextId)
  {
    hide Lives, Accounted;
    LivesIgnoreRef(b, nextRef);
  }

  lemma LivesIgnoreRef(b: Book, nextRef: nat)
    requires Lives(b)
    ensures Lives(b.(nextRef := nextRef))
  {
    hide Life;
  }

  lemma LoggedInKeeps(s: State, p: Payload, rc: int, marketDay: string)
    requires Ledger(s.book, s.nextId) && s.nextId >= 0 && !s.ready
    requires s.link.connected && s.link.requests == map[] && forall ref :: ref !in s.book.orders
    requires s.link.queries == [] && s.link.queryId == 0 && !s.link.startupDone
    ensures Inv(LoggedIn(s, p, rc, marketDay).0)
  {
    hide Ledger;
    LedgerNumbers(s.book, s.nextId, s.nextId + 1);
    if p.LoginField? && p.maxRef.Some? { LoginKeeps(s.book, s.nextId + 1, p.maxRef.value); }
  }

  /** The login may go on with one request once its last one is answered. */
  lemma AnsweredKeeps(s: State, e: Event, rc: int, marketDay: string)
    requires Ledger(s.book, s.nextId) && s.nextId >= 0 && s.link.connected && s.link.requests == map[]
    requires s.ready ==> s.link.startupDone
    requires e.kind != SETTLEMENT ==> s.link.queries == [] && s.link.queryId == 0 && !s.link.startupDone
    requires e.kind != SETTLEMENT ==> forall ref :: ref !in s.book.orders
    ensures e.kind == AUTH ==> Inv(Requested(s, LOGIN, rc).0)
    ensures e.kind == LOGIN ==> Inv(LoggedIn(s, e.payload, rc, marketDay).0)
    ensures e.kind == SETTLEMENT ==> Inv(s.(link := s.link.(queries := [INSTRUMENT, ACCOUNT, POSITION, ORDER_QUERY])))
  {
    hide Ledger, LoggedIn;
    LedgerNumbers(s.book, s.nextId, s.nextId + 1);
    if e.kind == LOGIN { LoggedInKeeps(s, e.payload, rc, marketDay); }
  }

  lemma StageKeeps(s: State, e: Event, rc: int, marketDay: string)
    requires Inv(s) && (e.kind == AUTH || e.kind == LOGIN || e.kind == SETTLEMENT)
    ensures Inv(OnStage(s, e, rc, marketDay).0)
  {
    hide Ledger, LoggedIn, Requested;
    if e.requestId in s.link.requests && s.link.requests[e.requestId] == e.kind {
      assert forall a :: a in s.link.requests ==> a == e.requestId;
      assert forall a :: a !in s.link.requests - {e.requestId};
      assert s.link.requests - {e.requestId} == map[];
      assert e.kind != SETTLEMENT ==> Early(s.link.connected, s.link.requests);
      var s' := s.(link := s.link.(requests := s.link.requests - {e.requestId}));
      hide Early, OneRequest;
      AnsweredKeeps(s', e, rc, marketDay);
    }
  }

  lemma EventKeeps(s: State, e: Event, rc: int, marketDay: string)
    requires Inv(s)
    ensures Inv(OnEvent(s, e, rc, marketDay).0)
  {
    hide OnOrder, OnTrade, OnError, OnQuery, OnStage, Requested, Inv;
    if e.payload.OrderPayload? { OrderKeeps(s, e.payload.order); }
    if e.payload.TradePayload? { TradeKeeps(s, e.payload.trade); }
    ErrorKeeps(s, e);
    if e.kind == AUTH || e.kind == LOGIN || e.kind == SETTLEMENT { StageKeeps(s, e, rc, marketDay); }
    if !s.link.connected { ConnectKeeps(s, rc); }
    QueryKeeps(s, e);
    PausedKeeps(s);
  }

  /** Losing the connection, or an account query that failed. */
  lemma PausedKeeps(s: State)
    requires Inv(s)
    ensures Inv(s.(disconnected := true))
    ensures Inv(s.(link := s.link.(queryId := 0, accountUsable := false), ready := false))
  {
    hide Ledger, Early, OneRequest;
  }

  // ----- runs ------------------------------------------------------------------------------------------------

  lemma FlagsKeep(s: State)
    requires Inv(s)
    ensures Inv(s.(stopping := true)) && Inv(s.(fatal := true)) && Inv(s.(ready := false))
  {
    hide Ledger, Early, OneRequest;
  }

  lemma StepKeeps(s: State, a: Action)
    requires Inv(s)
    ensures Inv(Step(s, a))
  {
    hide Inv, Submitted, OnEvent, Polled, CancelSent, Failed;
    match a {
      case Submit(sub, rc) => SubmissionKeeps(s, sub, rc);
      case Callback(e, rc, marketDay) =>
        EventKeeps(s, e, rc, marketDay);
        FailedKeeps(OnEvent(s, e, rc, marketDay).0);
      case PollTail(poll) =>
        PollKeeps(s, poll);
        FlagsKeep(s);
      case CancelForStop(ref, rc) => if ref in s.book.orders { CancelKeeps(s, ref, rc); }
      case Overflow => FailedKeeps(s);
      case _ => FlagsKeep(s);
    }
  }

  lemma InitialInv(instrument: string)
    ensures Inv(Initial(instrument))
  {
    hide Filled;
  }

  /** Whatever the participant asks and the CTP library calls back, every reachable state keeps the invariant. */
  lemma {:induction false} RunKeeps(instrument: string, acts: seq<Action>)
    ensures Inv(Run(instrument, acts))
  {
    hide Inv, Step, Initial;
    if acts == [] {
      InitialInv(instrument);
    } else {
      RunKeeps(instrument, acts[..|acts| - 1]);
      StepKeeps(Run(instrument, acts[..|acts| - 1]), acts[|acts| - 1]);
    }
  }
}
