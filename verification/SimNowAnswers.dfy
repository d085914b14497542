/** What the SimNow adapter publishes on requests, status callbacks and error callbacks, and when it ends an order. */
module SimNowAnswers {
  import opened Common
  import opened PositionKeeper
  import opened OrderManager
  import opened SimNowSpec
  import opened SimNowSafety
  import opened SimNowLifecycle

  /** A response about a request without an execution: it repeats the request, with its whole quantity left. */
  function Plainly(kind: ResponseType, r: Request): Response {
    Response(kind, 0, r.id, Fill(r.side, r.offset, r.price, 0), r.qty)
  }

  function If(condition: bool, r: Response): seq<Response> { if condition then [r] else [] }

  /** Only this order has changed, to `o`, and these responses were published. */
  predicate Published(b: Book, b': Book, ref: nat, o: Order, said: seq<Response>) {
    b' == b.(orders := b.orders[ref := o], log := b.log + said)
  }

  lemma Puts(s: State, ref: nat, o: Order)
    ensures Published(s.book, Put(s, ref, o).book, ref, o, [])
  {
    assert s.book.log + [] == s.book.log;
  }

  lemma Says(s: State, ref: nat, o: Order, kind: ResponseType)
    requires o.fills == 0
    ensures Published(s.book, Say(s, ref, o, kind).book, ref, o, [Plainly(kind, o.request)])
  {
  }

  lemma PublishedTwice(a: Book, b: Book, c: Book, ref: nat, o: Order, said: seq<Response>, o': Order,
                       said': seq<Response>)
    requires Published(a, b, ref, o, said) && Published(b, c, ref, o', said')
    ensures Published(a, c, ref, o', said + said')
  {
    assert a.log + said + said' == a.log + (said + said');
  }

  /** The last word on an order without executions: REJECTED or CANCELED, unless an execution has been reported. */
  lemma FinishedExact(s: State, ref: nat, o: Order)
    requires !o.done && o.hasTerminal && o.fills == 0 && o.request.qty == 1
    ensures Finished(s, ref, o).1
    ensures Published(s.book, Finished(s, ref, o).0.book, ref, o.(done := o.reported == 0),
                      If(o.reported == 0, Plainly(if o.rejected then REJECTED else CANCELED, o.request)))
  {
    hide Published, Put, Say;
    Puts(s, ref, o);
    Says(s, ref, o.(done := true), if o.rejected then REJECTED else CANCELED);
  }

  // ----- status callbacks ------------------------------------------------------------------------------------

  /** The status is the exchange's last word on the order. */
  predicate Final(p: OrderField) {
    || p.submit == INSERT_REJECTED || p.status == ALL_TRADED || p.status == CANCELED_STATUS
    || p.status == PART_TRADED_NOT_QUEUEING || p.status == NO_TRADE_NOT_QUEUEING
  }

  predicate Queueing(p: OrderField) { p.status == NO_TRADE_QUEUEING || p.status == PART_TRADED_QUEUEING }

  /** The order after a status that is taken. */
  function AfterStatus(o: Order, p: OrderField): Order {
    var reported := if p.traded > o.reported then p.traded as nat else o.reported;
    o.(sys := if p.sys == "" then o.sys else p.sys, reported := reported,
       cancelRejected := o.cancelRejected || p.submit == CANCEL_REJECTED_STATUS,
       hasTerminal := o.hasTerminal || Final(p),
       rejected := if Final(p) then p.submit == INSERT_REJECTED else o.rejected,
       done := Final(p) && reported == 0,
       accepted := o.accepted || (Queueing(p) && !Final(p)))
  }

  /** A status of an open order of this session: a refused cancellation is published once, an acceptance once, and
      a last word ends the order as REJECTED or CANCELED, unless an execution has been reported, whose trade is then
      still to come. */
  lemma StatusExact(s: State, p: OrderField)
    requires Inv(s) && KnownOrder(s, p) && !s.book.orders[p.ref].done && 0 <= p.traded <= 1
    ensures var (s', ok) := OnOrder(s, p); var o := s.book.orders[p.ref];
      && ok
      && Published(s.book, s'.book, p.ref, AfterStatus(o, p),
                   If(p.submit == CANCEL_REJECTED_STATUS && !o.cancelRejected, Plainly(CANCEL_REJECTED, o.request))
                   + If(Final(p) && o.reported == 0 && p.traded == 0,
                        Plainly(if p.submit == INSERT_REJECTED then REJECTED else CANCELED, o.request))
                   + If(!Final(p) && Queueing(p) && !o.accepted, Plainly(ACCEPTED, o.request)))
  {
    hide Inv, Published, Progressed;
    Waiting(s, p.ref);
    var o := s.book.orders[p.ref];
    var o1 := if p.sys != "" then o.(sys := p.sys) else o;
    ProgressExact(s, p, o1.(reported := Max(o.reported, p.traded)));
    hide Put;
  }

  lemma ProgressExact(s: State, p: OrderField, o: Order)
    requires p.ref in s.book.orders && !o.done && o.fills == 0 && o.request.qty == 1
    ensures Progressed(s, p, o).1
    ensures Published(s.book, Progressed(s, p, o).0.book, p.ref,
                      o.(cancelRejected := o.cancelRejected || p.submit == CANCEL_REJECTED_STATUS,
                         hasTerminal := o.hasTerminal || Final(p),
                         rejected := if Final(p) then p.submit == INSERT_REJECTED else o.rejected,
                         done := Final(p) && o.reported == 0, accepted := o.accepted || (Queueing(p) && !Final(p))),
                      If(p.submit == CANCEL_REJECTED_STATUS && !o.cancelRejected, Plainly(CANCEL_REJECTED, o.request))
                      + If(Final(p) && o.reported == 0,
                           Plainly(if p.submit == INSERT_REJECTED then REJECTED else CANCELED, o.request))
                      + If(!Final(p) && Queueing(p) && !o.accepted, Plainly(ACCEPTED, o.request)))
  {
    hide Published, Put, Say, Finished;
    var refuse := p.submit == CANCEL_REJECTED_STATUS && !o.cancelRejected;
    var o1 := if refuse then o.(cancelRejected := true) else o;
    var s1 := if refuse then Say(s, p.ref, o1, CANCEL_REJECTED) else Put(s, p.ref, o1);
    var said := If(refuse, Plainly(CANCEL_REJECTED, o.request));
    if refuse { Says(s, p.ref, o1, CANCEL_REJECTED); } else { Puts(s, p.ref, o1); }
    if Final(p) {
      var o2 := o1.(hasTerminal := true, rejected := p.submit == INSERT_REJECTED);
      FinishedExact(s1, p.ref, o2);
      PublishedTwice(s.book, s1.book, Finished(s1, p.ref, o2).0.book, p.ref, o1, said, o2.(done := o2.reported == 0),
                     If(o2.reported == 0, Plainly(if o2.rejected then REJECTED else CANCELED, o2.request)));
      var news := said + If(o2.reported == 0, Plainly(if o2.rejected then REJECTED else CANCELED, o2.request));
      assert news + [] == news;
    } else if Queueing(p) && !o.accepted {
      Says(s1, p.ref, o1.(accepted := true), ACCEPTED);
      PublishedTwice(s.book, s1.book, Say(s1, p.ref, o1.(accepted := true), ACCEPTED).book, p.ref, o1, said,
                     o1.(accepted := true), [Plainly(ACCEPTED, o1.request)]);
      assert said + [] + [Plainly(ACCEPTED, o1.request)] == said + [Plainly(ACCEPTED, o1.request)];
    } else {
      assert said + [] + [] == said;
    }
  }

  /** Any other status publishes nothing: of a finished order it only adds to what is reported, and of an unknown
      order, or with an impossible quantity, it throws. */
  lemma StatusOtherwise(s: State, p: OrderField)
    requires !(KnownOrder(s, p) && !s.book.orders[p.ref].done && 0 <= p.traded <= 1)
    ensures var (s', ok) := OnOrder(s, p);
      if !(p.ref in s.book.orders && p.front == s.front && p.session == s.session && p.instrument == s.instrument) then
        s' == s && !ok
      else
        var o := s.book.orders[p.ref];
        && ok == (p.traded == 0 || p.traded == 1)
        && Published(s.book, s'.book, p.ref,
                     o.(sys := if p.sys == "" then o.sys else p.sys,
                        reported := if ok && p.traded > o.reported then p.traded as nat else o.reported), [])
  {
    hide Progressed, Published, Put, Final, Queueing;
    if KnownOrder(s, p) {
      var o := s.book.orders[p.ref];
      var o1 := if p.sys != "" then o.(sys := p.sys) else o;
      if p.traded < 0 || p.traded > 1 {
        Puts(s, p.ref, o1);
      } else {
        Puts(s, p.ref, o1.(reported := Max(o.reported, p.traded)));
      }
    }
  }

  // ----- error callbacks -------------------------------------------------------------------------------------

  /** The order an error callback is about: the one it names, else the one whose request it answers. */
  predicate IsAbout(s: State, e: Event, ref: nat) {
    && ref in s.book.orders
    && (if e.payload.InputField? && e.payload.ref in s.book.orders then e.payload.ref == ref
        else e.requestId != 0
             && e.requestId
                  == if e.kind == INSERT_ERROR then s.book.orders[ref].insertId else s.book.orders[ref].cancelId)
  }

  lemma AboutOne(s: State, e: Event, ref: nat)
    requires Inv(s) && IsAbout(s, e, ref)
    ensures ErrorTarget(s, e) == Some(ref)
  {
    if !(e.payload.InputField? && e.payload.ref in s.book.orders) { assert ErrorNames(s, e, ref); }
  }

  lemma AboutNone(s: State, e: Event)
    requires forall ref :: !IsAbout(s, e, ref)
    ensures ErrorTarget(s, e) == None
  {
    if e.payload.InputField? && e.payload.ref in s.book.orders { assert IsAbout(s, e, e.payload.ref); }
    forall ref ensures !ErrorNames(s, e, ref) {
      assert !IsAbout(s, e, ref);
    }
  }

  /** An error of an open order: a failed insertion ends it as REJECTED unless an execution has been reported, a
      failed cancellation is published once. */
  lemma ErrorExact(s: State, e: Event, ref: nat)
    requires Inv(s) && e.error != 0 && IsAbout(s, e, ref) && !s.book.orders[ref].done
    ensures var (s', ok) := OnError(s, e); var o := s.book.orders[ref];
      && ok
      && if e.kind == INSERT_ERROR then
           Published(s.book, s'.book, ref, o.(rejected := true, hasTerminal := true, done := o.reported == 0),
                     If(o.reported == 0, Plainly(REJECTED, o.request)))
         else
           Published(s.book, s'.book, ref, o.(cancelRejected := true),
                     If(!o.cancelRejected, Plainly(CANCEL_REJECTED, o.request)))
  {
    AboutOne(s, e, ref);
    Waiting(s, ref);
    hide Inv, Published, ErrorTarget, Say, Finished, IsAbout;
    var o := s.book.orders[ref];
    FinishedExact(s, ref, o.(rejected := true, hasTerminal := true));
    Says(s, ref, o.(cancelRejected := true), CANCEL_REJECTED);
    NothingPublished(s.book, ref);
  }

  lemma NothingPublished(b: Book, ref: nat)
    requires ref in b.orders
    ensures Published(b, b, ref, b.orders[ref], [])
  {
    assert b.orders[ref := b.orders[ref]] == b.orders && b.log + [] == b.log;
  }

  /** Any other error callback changes nothing, and throws exactly when it is an error about no order. */
  lemma ErrorOtherwise(s: State, e: Event)
    requires Inv(s) && forall ref :: !(e.error != 0 && IsAbout(s, e, ref) && !s.book.orders[ref].done)
    ensures OnError(s, e) == (s, e.error == 0 || exists ref :: IsAbout(s, e, ref))
  {
    if ref :| IsAbout(s, e, ref) {
      AboutOne(s, e, ref);
    } else {
      AboutNone(s, e);
    }
    hide Inv, IsAbout, ErrorTarget, Finished, Say;
  }

  // ----- requests --------------------------------------------------------------------------------------------

  /** The adapter takes a new order: it is ready and not about to stop, the order is a limit order for one lot at a
      price of the instrument's tick, no other order is open, and it opens from a flat position or closes the whole
      position. */
  predicate Takes(s: State, sub: Submission) {
    var r := sub.request;
    && s.ready && !s.stopping && !s.fatal && sub.ours && sub.plain && r.kind == NEW && r.qty == 1
    && (forall ref :: ref in s.book.orders ==> s.book.orders[ref].done)
    && 0 < r.price && r.price != PRICE_INVALID && s.link.tick.Some? && r.price % s.link.tick.value == 0
    && ((r.offset == OPEN && s.book.net == 0)
        || (r.offset == CLOSE_TODAY && (if r.side == BUY then s.book.net == -1 else s.book.net == 1)))
  }

  /** A new order that is taken rests under the next reference and request number, open unless the transport refuses
      it; one that is not taken is rejected, and nothing else happens to the orders. */
  lemma NewOrderExact(s: State, sub: Submission, rc: int)
    requires Inv(s) && sub.ours && sub.request.kind == NEW
    ensures var b, b', r := s.book, Submitted(s, sub, rc).book, sub.request;
      if Takes(s, sub) then
        && b'.orders == b.orders[b.nextRef + 1 :=
                          Order(r, "", s.nextId + 1, 0, 0, 0, false, rc != 0, false, false, false, false, {})]
        && b'.log == b.log + If(rc != 0, Plainly(REJECTED, r)) && b'.net == b.net && b'.nextRef == b.nextRef + 1
      else b'.orders == b.orders && b'.log == b.log + [Plainly(REJECTED, r)] && b'.net == b.net
  {
    hide Inv;
  }
}
