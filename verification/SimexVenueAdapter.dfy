/** The Simex adapter object (src/trading/venue/simex/simex_venue_adapter.cpp): order ledger, market book and
    published depth, updated in place. An exception ends the process and is returned as false. */
module SimexVenueAdapters {
  import opened Common
  import opened PositionKeeper
  import opened OrderManager
  import opened TopFive
  import opened LevelAggregates
  import L = SimexLedger
  import S = SimexSync

  // ----- what is published -----------------------------------------------------------------------------------

  /** Identifiers of a book, each once. */
  ghost predicate Enumerates(ids: seq<int>, book: S.Book) {
    multiset(ids) == multiset(book.Keys)
  }

  /** The contributions of one side, in the order of the identifiers. */
  function PartsOf(book: S.Book, ids: seq<int>, side: Side): seq<Part> {
    if ids == [] then []
    else
      var id := ids[|ids| - 1];
      PartsOf(book, ids[..|ids| - 1], side) + if id in book
          && book[id].side == side then [Part(book[id].price, book[id].qty)] else []
  }

  /** The levels are the five best of a side of the book fully aggregated, whatever the order of iteration. */
  ghost predicate IsDepthOf(levels: seq<Level>, book: S.Book, side: Side) {
    forall ids :: Enumerates(ids, book) ==>
      IsTopOf(side, levels, Total(PartsOf(book, ids, side)), DEPTH_SNAPSHOT_LEVELS)
  }

  lemma {:induction false} PartsConcat(book: S.Book, a: seq<int>, b: seq<int>, side: Side)
    ensures PartsOf(book, a + b, side) == PartsOf(book, a, side) + PartsOf(book, b, side)
  {
    if b == [] {
      assert a + b == a;
    } else {
      assert (a + b)[..|a| + |b| - 1] == a + b[..|b| - 1];
      PartsConcat(book, a, b[..|b| - 1], side);
    }
  }

  lemma PartsWithout(book: S.Book, ids: seq<int>, i: nat, side: Side)
    requires i < |ids|
    ensures multiset(ids[..i] + ids[i + 1..]) == multiset(ids) - multiset{ids[i]}
    ensures multiset(PartsOf(book, ids, side))
              == multiset(PartsOf(book, ids[..i] + ids[i + 1..], side)) + multiset(PartsOf(book, [ids[i]], side))
  {
    assert ids == ids[..i] + [ids[i]] + ids[i + 1..];
    PartsConcat(book, ids[..i] + [ids[i]], ids[i + 1..], side);
    PartsConcat(book, ids[..i], [ids[i]], side);
    PartsConcat(book, ids[..i], ids[i + 1..], side);
    hide PartsOf;
  }

  lemma {:induction false} PartsIgnoreOrder(book: S.Book, a: seq<int>, b: seq<int>, side: Side)
    requires multiset(a) == multiset(b)
    ensures multiset(PartsOf(book, a, side)) == multiset(PartsOf(book, b, side))
    decreases |a|
  {
    hide PartsOf;
    if a == [] {
      assert |b| == |multiset(a)|;
      assert a == b;
    } else {
      assert a[0] in multiset(a);
      var i :| 0 <= i < |b| && b[i] == a[0];
      PartsWithout(book, a, 0, side);
      PartsWithout(book, b, i, side);
      PartsIgnoreOrder(book, a[..0] + a[1..], b[..i] + b[i + 1..], side);
    }
  }

  /** One enumeration decides for all. */
  lemma FoldedIsDepth(levels: seq<Level>, book: S.Book, ids: seq<int>, side: Side)
    requires Enumerates(ids, book) && levels == Folded(side, PartsOf(book, ids, side), DEPTH_SNAPSHOT_LEVELS)
    ensures IsDepthOf(levels, book, side)
  {
    forall other | Enumerates(other, book)
      ensures IsTopOf(side, levels, Total(PartsOf(book, other, side)), DEPTH_SNAPSHOT_LEVELS)
    {
      PartsIgnoreOrder(book, ids, other, side);
      TotalIgnoresOrder(PartsOf(book, ids, side), PartsOf(book, other, side));
      FoldedIsTop(side, PartsOf(book, ids, side), DEPTH_SNAPSHOT_LEVELS);
    }
  }

  /** A side has one depth. */
  lemma DepthIsUnique(book: S.Book, ids: seq<int>, side: Side, a: seq<Level>, b: seq<Level>)
    requires Enumerates(ids, book) && IsDepthOf(a, book, side) && IsDepthOf(b, book, side)
    ensures a == b
  {
    TopIsUnique(side, a, b, Total(PartsOf(book, ids, side)), DEPTH_SNAPSHOT_LEVELS);
  }

  predicate Fits(levels: seq<Level>) { forall k: nat :: k < |levels| ==> levels[k].qty < QTY_INVALID }

  /** The five best levels of both sides fit published quantities. */
  ghost predicate Publishable(book: S.Book) {
    forall side: Side, levels: seq<Level> :: IsDepthOf(levels, book, side) ==> Fits(levels)
  }

  lemma PublishableExactly(book: S.Book, ids: seq<int>, bids: seq<Level>, asks: seq<Level>)
    requires Enumerates(ids, book) && IsDepthOf(bids, book, BUY) && IsDepthOf(asks, book, SELL)
    ensures Publishable(book) <==> Fits(bids) && Fits(asks)
  {
    forall side: Side, levels: seq<Level> | IsDepthOf(levels, book, side)
      ensures levels == if side == BUY then bids else asks
    {
      DepthIsUnique(book, ids, side, levels, if side == BUY then bids else asks);
    }
    hide IsDepthOf, Fits;
  }

  /** The published depth snapshot, as far as the adapter knows it. */
  datatype Depth = Depth(bids: seq<Level>, asks: seq<Level>, lastPrice: int)

  class SimexVenueAdapter {
    const capacity: nat
    const bidLevels: LevelAggregate
    const askLevels: LevelAggregate

    var orders: map<int, L.Order>
    var netPosition: int
    var outgoing: seq<L.Frame>
    var responses: seq<Response>
    ghost var trace: seq<L.Mark>

    var synchronized: bool
    var book: S.Book
    var pending: map<nat, S.MarketUpdate>
    var marketSequence: nat
    var snapshotSequence: nat
    var advertisedSequence: nat
    var lastTrade: int

    var usable: bool
    var published: seq<Depth>

    ghost predicate Valid()
      reads this, bidLevels, askLevels, bidLevels.levels, askLevels.levels
    {
      && bidLevels.Valid() && askLevels.Valid() && bidLevels.side == BUY && askLevels.side == SELL
      && bidLevels != askLevels && bidLevels.levels != askLevels.levels
    }

    ghost function Ledger(): L.Ledger
      reads this
    {
      L.Ledger(orders, netPosition, trace)
    }

    ghost function Market(): S.State
      reads this
    {
      S.State(synchronized, book, pending, marketSequence, snapshotSequence, advertisedSequence, lastTrade)
    }

    ghost function Whole(): Both
      reads this
    {
      Both(Ledger(), Market(), outgoing, responses)
    }

    constructor (capacity: nat)
      ensures Valid() && fresh(bidLevels) && fresh(askLevels) && fresh(bidLevels.levels) && fresh(askLevels.levels)
      ensures Ledger() == L.EMPTY_LEDGER && Market() == S.START
      ensures published == [] && !usable && this.capacity == capacity && outgoing == [] && responses == []
    {
      this.capacity := capacity;
      bidLevels := new LevelAggregate(BUY);
      askLevels := new LevelAggregate(SELL);
      orders, netPosition, trace := map[], 0, [];
      synchronized, book, pending, lastTrade := false, map[], map[], PRICE_INVALID;
      marketSequence, snapshotSequence, advertisedSequence := 0, 0, 0;
      usable, published, outgoing, responses := false, [], [], [];
    }

    // ----- orders --------------------------------------------------------------------------------------------

    method Refuse(r: Request)
      modifies this`trace, this`responses
      ensures responses == old(responses) + [L.Rejected(r)]
      ensures trace == old(trace) + [L.Refused(r.id, if r.kind == CANCEL_ORDER then CANCEL_REJECTED else REJECTED)]
    {
      responses := responses + [L.Rejected(r)];
      trace := trace + [L.Refused(r.id, if r.kind == CANCEL_ORDER then CANCEL_REJECTED else REJECTED)];
    }

    /** The checks of `submit`, in its order. */
    method Passes(sub: L.Submission) returns (passes: bool)
      ensures passes == L.Passes(Ledger(), sub)
    {
      var r := sub.request;
      if !sub.ours {
        return false;
      }
      if r.kind == NEW && (!ValidQty(r.qty) || r.qty > INT32_MAX || sub.orderType == L.OTHER_TYPE
                           || (sub.orderType == L.LIMIT && !ValidPrice(r.price))) {
        return false;
      }
      if r.kind == CANCEL_ORDER && (r.id !in orders || orders[r.id].terminal || orders[r.id].cancelPending) {
        return false;
      }
      if r.kind == NEW && r.id in orders {
        return false;
      }
      if r.kind == NEW && r.offset == OPEN {
        var opposite := (r.side == BUY && netPosition < 0) || (r.side == SELL && netPosition > 0);
        opposite := opposite || exists id :: id in orders && !orders[id].terminal
                                             && orders[id].request.offset == OPEN && orders[id].request.side != r.side;
        assert opposite == L.OppositeExposure(Ledger(), r);
        if opposite {
          return false;
        }
      }
      return L.ExplicitOffset(if r.kind == CANCEL_ORDER then orders[r.id].request.offset else r.offset);
    }

    /** The purge of `submit`: finished orders without a pending cancel go. */
    method Purge()
      modifies this`orders
      ensures orders == L.Purged(old(orders))
    {
      ghost var was := orders;
      var left := orders.Keys;
      while exists id :: id in left
        invariant left <= was.Keys
        invariant forall id :: id in orders ==> id in was && orders[id] == was[id]
        invariant forall id :: id in left ==> id in orders
        invariant forall id :: id in was && id !in left ==> (id in orders <==> !L.Purgeable(was[id]))
        decreases left
      {
        var id :| id in left;
        if L.Purgeable(orders[id]) {
          orders := orders - {id};
        }
        left := left - {id};
      }
      forall id ensures id in orders <==> id in L.Purged(was) {
        assert id !in left;
      }
      forall id | id in orders ensures orders[id] == L.Purged(was)[id] {
        assert orders[id] == was[id];
      }
    }

    /** `submit`. */
    method Submit(sub: L.Submission, full: bool) returns (ok: bool)
      requires Valid()
      modifies this`orders, this`trace, this`outgoing, this`responses
      ensures Valid()
      ensures outgoing == old(outgoing) + if ok then L.Queued(old(Ledger()), sub) else []
      ensures responses == old(responses) + if ok then L.Refusals(old(Ledger()), sub) else []
      ensures var s := L.Submitted(old(Ledger()), sub, full, capacity); ok == s.Some? && (ok ==> Ledger() == s.value)
    {
      hide L.Passes, L.Purged;
      var r := sub.request;
      var passes := Passes(sub);
      if !passes {
        Refuse(r);
        return true;
      }
      if full {
        return false;
      }
      var frame := L.FrameOf(orders, sub);
      ghost var was := orders;
      if |orders| >= capacity {
        Purge();
      }
      if r.kind == CANCEL_ORDER {
        PassingCancel(old(Ledger()), sub);
        assert r.id in L.Purged(was) && L.Purged(was)[r.id] == was[r.id] by { PurgeKeeps(was, r.id); }
        orders := orders[r.id := orders[r.id].(cancelPending := true)];
        outgoing := outgoing + [frame];
        trace := trace + [L.Asked(r.id)];
        return true;
      }
      if |orders| >= capacity {
        return false;
      }
      orders := orders[r.id := L.Order(r, sub.orderType, r.qty, false, false)];
      outgoing := outgoing + [frame];
      trace := trace + [L.Opened(r.id)];
      return true;
    }

    /** `response`. */
    method Response(w: L.Wire) returns (ok: bool)
      requires Valid()
      modifies this`orders, this`netPosition, this`trace, this`responses
      ensures Valid()
      ensures responses == old(responses) + if ok then [L.Forwarded(w)] else []
      ensures var s := L.Responded(old(Ledger()), w); ok == s.Some? && (ok ==> Ledger() == s.value)
    {
      if !w.framed || !w.ours || w.id !in orders {
        return false;
      }
      var order := orders[w.id];
      if w.side != order.request.side || w.offset != order.request.offset {
        return false;
      }
      match w.kind {
        case ACCEPTED =>
        case REJECTED => order := order.(terminal := true);
        case CANCELED => order := order.(terminal := true, cancelPending := false);
        case CANCEL_REJECTED => order := order.(cancelPending := false);
        case FILLED =>
          if !L.GoodExecution(order, w) {
            return false;
          }
          order := order.(remaining := w.leaves, terminal := w.leaves == 0);
          netPosition := netPosition + SideToValue(w.side) * w.exec;
          if netPosition < -0x8000_0000 || netPosition > INT32_MAX {
            return false;
          }
        case OTHER => return false;
      }
      orders := orders[w.id := order];
      responses := responses + [L.Forwarded(w)];
      trace := trace + [L.Replied(w.id, w.kind, w.side, w.exec, w.leaves)];
      return true;
    }

    // ----- market data ---------------------------------------------------------------------------------------

    /** `apply` of an increment. */
    method Apply(u: S.MarketUpdate) returns (ok: bool)
      modifies this`book, this`lastTrade
      ensures var b := S.Applied(old(book), u, capacity);
        ok == b.Some? && (ok ==> book == b.value && lastTrade == S.TradeOf(old(lastTrade), u))
    {
      if !u.sound || !ValidPrice(u.price) {
        return false;
      }
      match u.kind {
        case ADD =>
          if !ValidQty(u.qty) || u.id in book {
            return false;
          }
          book := book[u.id := S.Resting(u.side, u.price, u.qty)];
        case MODIFY =>
          if u.id !in book || !ValidQty(u.leaves) {
            return false;
          }
          book := book[u.id := S.Resting(u.side, u.price, u.leaves)];
        case CANCEL =>
          if u.id !in book {
            return false;
          }
          book := book - {u.id};
        case TRADE =>
          if !ValidQty(u.qty) {
            return false;
          }
          lastTrade := u.price;
        case OTHER => return false;
      }
      return |book| <= capacity;
    }

    /** The orders of the first snapshot. */
    method InstallAll(orders: seq<S.SnapshotOrder>, watermark: nat) returns (ok: bool)
      modifies this`book
      ensures var b := S.InstalledAll(old(book), orders, watermark, capacity); ok == b.Some? && (ok ==> book == b.value)
    {
      var i := 0;
      while i < |orders|
        invariant i <= |orders|
        invariant S.InstalledAll(old(book), orders, watermark, capacity)
               == S.InstalledAll(book, orders[i..], watermark, capacity)
      {
        assert orders[i..][0] == orders[i] && orders[i..][1..] == orders[i + 1..];
        var b := S.Installed(book, orders[i], watermark, capacity);
        if b == None {
          return false;
        }
        book := b.value;
        i := i + 1;
      }
      return true;
    }

    /** The buffered increments beyond the watermark, ascending. */
    method Drain() returns (ok: bool)
      modifies this`book, this`lastTrade, this`marketSequence
      ensures var s := S.Drained(old(Market()), capacity); ok == s.Some? && (ok ==> Market() == s.value)
    {
      hide S.Applied, S.TradeOf;
      while exists n :: n in pending && n > marketSequence
        invariant S.Drained(old(Market()), capacity) == S.Drained(Market(), capacity)
        invariant pending == old(pending)
        decreases S.Ahead(pending, marketSequence)
      {
        var n :| n in pending && n > marketSequence;
        assert n in S.Ahead(pending, marketSequence);
        if marketSequence + 1 !in pending {
          return false;
        }
        assert marketSequence + 1 in S.Ahead(pending, marketSequence);
        ok := Apply(pending[marketSequence + 1]);
        if !ok {
          return;
        }
        marketSequence := marketSequence + 1;
      }
      assert S.Ahead(pending, marketSequence) == {};
      return true;
    }

    /** `publishBook`: the five best levels of each side; false when a level's quantity does not fit. */
    method PublishBook() returns (ok: bool)
      requires Valid()
      modifies this`usable, this`published, bidLevels`count, bidLevels.levels, askLevels`count, askLevels.levels
      ensures Valid()
      ensures ok <==> Publishable(book)
      ensures !ok ==> published == old(published) && usable == old(usable)
      ensures ok ==> |published| == |old(published)| + 1 && published[..|old(published)|] == old(published)
      ensures ok ==> var d := published[|published| - 1];
        && IsDepthOf(d.bids, book, BUY) && IsDepthOf(d.asks, book, SELL) && d.lastPrice == lastTrade
        && Fits(d.bids) && Fits(d.asks)
        && (usable <==> d.bids != [] && d.asks != [] && d.bids[0].price < d.asks[0].price)
    {
      hide IsDepthOf, Publishable, Enumerates;
      ghost var ids := Aggregate();
      PublishableExactly(book, ids, bidLevels.View(), askLevels.View());
      if exists k: nat :: k < bidLevels.count && bidLevels.levels[k].qty >= QTY_INVALID {
        return false;
      }
      if exists k: nat :: k < askLevels.count && askLevels.levels[k].qty >= QTY_INVALID {
        return false;
      }
      var bids, asks := bidLevels.levels[..bidLevels.count], askLevels.levels[..askLevels.count];
      usable := bids != [] && asks != [] && bids[0].price < asks[0].price;
      published := published + [Depth(bids, asks, lastTrade)];
      return true;
    }

    /** The levels are the contributions of these orders, one after the other. */
    ghost predicate Aggregated(ids: seq<int>)
      reads this, bidLevels, bidLevels.levels, askLevels, askLevels.levels
    {
      && Valid()
      && bidLevels.View() == Folded(BUY, PartsOf(book, ids, BUY), DEPTH_SNAPSHOT_LEVELS)
      && askLevels.View() == Folded(SELL, PartsOf(book, ids, SELL), DEPTH_SNAPSHOT_LEVELS)
    }

    /** One resting order contributes to its side. */
    method AggregateOrder(id: int, ghost ids: seq<int>)
      requires Aggregated(ids) && id in book
      modifies bidLevels`count, bidLevels.levels, askLevels`count, askLevels.levels
      ensures Aggregated(ids + [id])
    {
      hide Folded, PartsOf, Placed, LowerBoundOf;
      FoldedMore(book, ids, id);
      var o := book[id];
      if o.side == BUY {
        bidLevels.Aggregate(Part(o.price, o.qty));
      } else {
        askLevels.Aggregate(Part(o.price, o.qty));
      }
    }

    /** Every resting order contributes to its side, in whatever order the book is walked. */
    method Aggregate() returns (ghost ids: seq<int>)
      requires Valid()
      modifies bidLevels`count, bidLevels.levels, askLevels`count, askLevels.levels
      ensures Enumerates(ids, book)
      ensures Valid() && IsDepthOf(bidLevels.View(), book, BUY) && IsDepthOf(askLevels.View(), book, SELL)
    {
      hide IsDepthOf, Enumerates;
      bidLevels.Clear();
      askLevels.Clear();
      ids := [];
      var left := book.Keys;
      assert Aggregated(ids) && Visited(ids, left, book);
      while exists id :: id in left
        invariant Aggregated(ids) && left <= book.Keys && Visited(ids, left, book)
        decreases left
      {
        hide Visited, Aggregated;
        var id :| id in left;
        AggregateOrder(id, ids);
        VisitedMore(ids, left, book, id);
        ids := ids + [id];
        left := left - {id};
      }
      assert left == {};
      VisitedAll(ids, book);
      FoldedIsDepth(bidLevels.View(), book, ids, BUY);
      FoldedIsDepth(askLevels.View(), book, ids, SELL);
    }

    /** `datagram`, an increment. */
    method Increment(n: nat, u: S.MarketUpdate) returns (ok: bool)
      requires Valid()
      modifies this`book, this`lastTrade, this`pending, this`marketSequence, this`usable, this`published,
        bidLevels`count, bidLevels.levels, askLevels`count, askLevels.levels
      ensures Valid()
      ensures var s := S.OnIncrement(old(Market()), n, u, capacity);
        && (ok <==> s.Some? && (old(synchronized) && n > old(snapshotSequence) ==> Publishable(s.value.book)))
        && (ok ==> Market() == s.value)
    {
      hide S.Applied, S.TradeOf, Publishable;
      if !synchronized {
        if |pending| >= capacity || n in pending {
          return false;
        }
        pending := pending[n := u];
        return true;
      }
      if n <= snapshotSequence {
        return true;
      }
      if n != marketSequence + 1 {
        return false;
      }
      ok := Apply(u);
      if !ok {
        return;
      }
      marketSequence := n;
      ok := PublishBook();
    }

    /** `datagram`, a snapshot: the first one synchronises, later ones only advertise how far the venue is. */
    method Snapshot(watermark: nat, orders: seq<S.SnapshotOrder>) returns (ok: bool)
      requires Valid()
      modifies this`book, this`lastTrade, this`pending, this`marketSequence, this`snapshotSequence,
        this`advertisedSequence, this`synchronized, this`usable, this`published,
        bidLevels`count, bidLevels.levels, askLevels`count, askLevels.levels
      ensures Valid()
      ensures var s := S.OnSnapshot(old(Market()), watermark, orders, capacity);
        && (ok <==> s.Some? && (!old(synchronized) ==> Publishable(s.value.book)))
        && (ok ==> Market() == s.value)
    {
      hide S.InstalledAll, S.Drained, Publishable;
      if |orders| > capacity {
        return false;
      }
      if synchronized {
        advertisedSequence := Max(advertisedSequence, watermark);
        return true;
      }
      ok := InstallAll(orders, watermark);
      if !ok {
        return;
      }
      snapshotSequence, marketSequence := watermark, watermark;
      ok := Drain();
      if !ok {
        return;
      }
      pending, synchronized := map[], true;
      ok := PublishBook();
    }
  }

  /** The walk so far, and what is left of the book. */
  ghost predicate Visited(ids: seq<int>, left: set<int>, book: S.Book) {
    multiset(ids) + multiset(left) == multiset(book.Keys)
  }

  lemma VisitedMore(ids: seq<int>, left: set<int>, book: S.Book, id: int)
    requires Visited(ids, left, book) && id in left
    ensures Visited(ids + [id], left - {id}, book)
  {
  }

  lemma VisitedAll(ids: seq<int>, book: S.Book)
    requires Visited(ids, {}, book)
    ensures Enumerates(ids, book)
  {
  }

  /** One more order contributes to its own side only. */
  lemma FoldedMore(book: S.Book, ids: seq<int>, id: int)
    requires id in book
    ensures forall side ::
      PartsOf(book, ids + [id], side)
        == (if book[id].side == side then PartsOf(book, ids, side) + [Part(book[id].price, book[id].qty)]
            else PartsOf(book, ids, side))
    ensures var p := Part(book[id].price, book[id].qty);
      var side, parts := book[id].side, PartsOf(book, ids, book[id].side);
      var s := Folded(side, parts, DEPTH_SNAPSHOT_LEVELS);
      Folded(side, parts + [p], DEPTH_SNAPSHOT_LEVELS)
        == Placed(s, LowerBoundOf(side, s, p.price), p, DEPTH_SNAPSHOT_LEVELS)
  {
    assert (ids + [id])[..|ids|] == ids;
    var parts, p := PartsOf(book, ids, book[id].side), Part(book[id].price, book[id].qty);
    assert (parts + [p])[..|parts|] == parts;
  }

  lemma PassingCancel(s: L.Ledger, sub: L.Submission)
    requires L.Passes(s, sub) && sub.request.kind == CANCEL_ORDER
    ensures sub.request.id in s.orders && !L.Purgeable(s.orders[sub.request.id])
  {
  }

  lemma PurgeKeeps(orders: L.Orders, id: int)
    requires id in orders && !L.Purgeable(orders[id])
    ensures id in L.Purged(orders) && L.Purged(orders)[id] == orders[id]
  {
  }

  // ----- the adapter from its construction on ----------------------------------------------------------------

  /** A request from the gateway, a response frame, or a market datagram. */
  datatype Input = Requested(sub: L.Submission, full: bool) | Framed(w: L.Wire) | Told(d: S.Datagram)

  /** The ledger and the market side, with what was queued for the venue and published to the engine. */
  datatype Both = Both(ledger: L.Ledger, market: S.State, outgoing: seq<L.Frame>, responses: seq<Response>)

  const NEW_ADAPTER: Both := Both(L.EMPTY_LEDGER, S.START, [], [])

  /** The datagram makes the adapter publish its book. */
  predicate Publishes(s: S.State, d: S.Datagram) {
    match d
    case Increment(n, _) => s.synchronized && n > s.snapshotSeq
    case Snapshot(_, _) => !s.synchronized
  }

  /** One input; None for an exception. */
  ghost function Handled(b: Both, x: Input, capacity: nat): Option<Both> {
    match x
    case Requested(sub, full) =>
      var l := L.Submitted(b.ledger, sub, full, capacity);
      if l == None then None
      else Some(b.(ledger := l.value, outgoing := b.outgoing + L.Queued(b.ledger, sub),
                   responses := b.responses + L.Refusals(b.ledger, sub)))
    case Framed(w) =>
      var l := L.Responded(b.ledger, w);
      if l == None then None else Some(b.(ledger := l.value, responses := b.responses + [L.Forwarded(w)]))
    case Told(d) =>
      var s := S.Step(b.market, d, capacity);
      if s == None || (Publishes(b.market, d) && !Publishable(s.value.book)) then None else Some(b.(market := s.value))
  }

  /** A run of inputs; None once something was thrown. */
  ghost function Ran(xs: seq<Input>, capacity: nat): Option<Both> {
    if xs == [] then Some(NEW_ADAPTER)
    else
      var b := Ran(xs[..|xs| - 1], capacity);
      if b == None then None else Handled(b.value, xs[|xs| - 1], capacity)
  }

  function OrderEvents(xs: seq<Input>): seq<L.Event> {
    if xs == [] then []
    else
      OrderEvents(xs[..|xs| - 1]) +
        match xs[|xs| - 1]
        case Requested(sub, full) => [L.Submit(sub, full)]
        case Framed(w) => [L.Receive(w)]
        case Told(_) => []
  }

  function Datagrams(xs: seq<Input>): seq<S.Datagram> {
    if xs == [] then []
    else Datagrams(xs[..|xs| - 1]) + if xs[|xs| - 1].Told? then [xs[|xs| - 1].d] else []
  }

  lemma HandledSides(b: Both, x: Input, capacity: nat)
    requires Handled(b, x, capacity).Some?
    ensures var b' := Handled(b, x, capacity).value;
      && (x.Requested? ==>
            L.Step(b.ledger, L.Submit(x.sub, x.full), capacity) == Some(b'.ledger) && b'.market == b.market)
      && (x.Framed? ==> L.Step(b.ledger, L.Receive(x.w), capacity) == Some(b'.ledger) && b'.market == b.market)
      && (x.Told? ==> S.Step(b.market, x.d, capacity) == Some(b'.market) && b'.ledger == b.ledger)
  {
    hide L.Submitted, L.Responded, S.Step, Publishable;
  }

  lemma MarketMore(ds: seq<S.Datagram>, d: S.Datagram, capacity: nat)
    requires S.Run(ds, capacity).Some?
    ensures S.Run(ds + [d], capacity) == S.Step(S.Run(ds, capacity).value, d, capacity)
  {
    hide S.Step;
    assert (ds + [d])[..|ds|] == ds;
  }

  /** The two sides run independently of each other. */
  lemma {:induction false} RanIsBoth(xs: seq<Input>, capacity: nat)
    requires Ran(xs, capacity).Some?
    ensures L.Run(OrderEvents(xs), capacity) == Some(Ran(xs, capacity).value.ledger)
    ensures S.Run(Datagrams(xs), capacity) == Some(Ran(xs, capacity).value.market)
  {
    hide Handled, L.Step, S.Step, L.Run, S.Run;
    if xs == [] {
      NothingRan(capacity);
    } else {
      var before, x := xs[..|xs| - 1], xs[|xs| - 1];
      RanIsBoth(before, capacity);
      HandledSides(Ran(before, capacity).value, x, capacity);
      assert Ran(xs, capacity) == Handled(Ran(before, capacity).value, x, capacity);
      EventsMore(xs);
      hide Ran, OrderEvents, Datagrams;
      match x {
        case Requested(sub, full) => L.RunOneMore(OrderEvents(before), L.Submit(sub, full), capacity);
        case Framed(w) => L.RunOneMore(OrderEvents(before), L.Receive(w), capacity);
        case Told(d) => MarketMore(Datagrams(before), d, capacity);
      }
    }
  }

  lemma NothingRan(capacity: nat)
    ensures L.Run([], capacity) == Some(L.EMPTY_LEDGER) && S.Run([], capacity) == Some(S.START)
  {
  }

  lemma EventsMore(xs: seq<Input>)
    requires xs != []
    ensures var before, x := xs[..|xs| - 1], xs[|xs| - 1];
      && (x.Requested? ==> OrderEvents(xs) == OrderEvents(before) + [L.Submit(x.sub, x.full)])
      && (x.Framed? ==> OrderEvents(xs) == OrderEvents(before) + [L.Receive(x.w)])
      && (x.Told? ==> OrderEvents(xs) == OrderEvents(before) && Datagrams(xs) == Datagrams(before) + [x.d])
      && (!x.Told? ==> Datagrams(xs) == Datagrams(before))
  {
  }

  lemma {:induction false} ThrownIsFinal(xs: seq<Input>, k: nat, capacity: nat)
    requires k <= |xs| && Ran(xs[..k], capacity) == None
    ensures Ran(xs, capacity) == None
  {
    hide Handled;
    if k < |xs| {
      assert xs[..|xs| - 1][..k] == xs[..k];
      ThrownIsFinal(xs[..|xs| - 1], k, capacity);
    } else {
      assert xs[..k] == xs;
    }
  }

  /** One input. */
  method Handle(adapter: SimexVenueAdapter, x: Input) returns (ok: bool)
    requires adapter.Valid()
    modifies adapter, adapter.bidLevels`count, adapter.askLevels`count
    modifies adapter.bidLevels.levels, adapter.askLevels.levels
    ensures adapter.Valid()
    ensures var b := Handled(old(adapter.Whole()), x, adapter.capacity);
      ok == b.Some? && (ok ==> adapter.Whole() == b.value)
  {
    hide SimexVenueAdapter.Valid, Publishable, L.Submitted, L.Responded, S.OnIncrement, S.OnSnapshot;
    match x {
      case Requested(sub, full) => ok := adapter.Submit(sub, full);
      case Framed(w) => ok := adapter.Response(w);
      case Told(Increment(n, u)) => ok := adapter.Increment(n, u);
      case Told(Snapshot(watermark, orders)) => ok := adapter.Snapshot(watermark, orders);
    }
  }

  /** A fresh adapter through any inputs, up to the first exception, which comes exactly when the values say so.
      Until then the object is the ledger's run over the requests and frames, so that quantities, position and
      sides are accounted for, and the market's run over the datagrams. */
  method Operate(capacity: nat, xs: seq<Input>) returns (adapter: SimexVenueAdapter, ok: bool)
    ensures fresh(adapter) && adapter.Valid() && (ok <==> Ran(xs, capacity).Some?)
    ensures ok ==> Ran(xs, capacity) == Some(adapter.Whole())
    ensures ok ==> L.Run(OrderEvents(xs), capacity) == Some(adapter.Ledger()) && L.Inv(adapter.Ledger())
    ensures ok ==> S.Run(Datagrams(xs), capacity) == Some(adapter.Market())
  {
    hide SimexVenueAdapter.Valid, Handled, L.Inv;
    adapter := new SimexVenueAdapter(capacity);
    ok := true;
    var i := 0;
    while i < |xs| && ok
      invariant i <= |xs| && fresh(adapter) && fresh(adapter.bidLevels) && fresh(adapter.askLevels)
      invariant fresh(adapter.bidLevels.levels) && fresh(adapter.askLevels.levels)
      invariant adapter.Valid() && adapter.capacity == capacity
      invariant ok <==> Ran(xs[..i], capacity).Some?
      invariant ok ==> Ran(xs[..i], capacity) == Some(adapter.Whole())
    {
      assert xs[..i + 1][..i] == xs[..i];
      ok := Handle(adapter, xs[i]);
      i := i + 1;
    }
    if ok {
      assert xs[..i] == xs;
      RanIsBoth(xs, capacity);
      L.RunKeeps(OrderEvents(xs), capacity);
    } else {
      ThrownIsFinal(xs, i, capacity);
    }
  }
}
