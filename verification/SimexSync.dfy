/** Market synchronisation of the Simex adapter: a snapshot and numbered increments (`apply` and `datagram` in
    src/trading/venue/simex/simex_venue_adapter.cpp). */
module SimexSync {
  import opened Common

  datatype UpdateKind = ADD | MODIFY | CANCEL | TRADE | OTHER

  /** A market update of the one instrument; `sound` covers the instrument, the side and the order identifier. */
  datatype MarketUpdate = MarketUpdate(kind: UpdateKind, id: int, side: Side, price: int, qty: Qty, leaves: Qty,
                                       sound: bool)

  /** What the book keeps of an order. */
  datatype Resting = Resting(side: Side, price: int, qty: Qty)

  type Book = map<int, Resting>

  // ----- the venue's log -------------------------------------------------------------------------------------

  /** What an update does to the venue's own book. */
  function Effect(book: Book, u: MarketUpdate): Book {
    match u.kind
    case ADD => book[u.id := Resting(u.side, u.price, u.qty)]
    case MODIFY => book[u.id := Resting(u.side, u.price, u.leaves)]
    case CANCEL => book - {u.id}
    case _ => book
  }

  /** The venue's book after the first n updates of its log, which carry the numbers 1 to n. */
  function Replay(log: seq<MarketUpdate>, n: nat): Book
    requires n <= |log|
  {
    if n == 0 then map[] else Effect(Replay(log, n - 1), log[n - 1])
  }

  // ----- the adapter -----------------------------------------------------------------------------------------

  datatype State = State(synchronized: bool, book: Book, pending: map<nat, MarketUpdate>,
                         marketSeq: nat, snapshotSeq: nat, advertised: nat, lastTrade: int)

  const START: State := State(false, map[], map[], 0, 0, 0, PRICE_INVALID)

  /** `apply` of an increment; None for an exception. */
  function Applied(book: Book, u: MarketUpdate, capacity: nat): Option<Book> {
    var good := u.sound && ValidPrice(u.price) &&
      match u.kind
      case ADD => ValidQty(u.qty) && u.id !in book
      case MODIFY => u.id in book && ValidQty(u.leaves)
      case CANCEL => u.id in book
      case TRADE => ValidQty(u.qty)
      case OTHER => false;
    if good && |Effect(book, u)| <= capacity then Some(Effect(book, u)) else None
  }

  /** An order of a snapshot, with the number of the update it comes from. */
  datatype SnapshotOrder = SnapshotOrder(number: nat, update: MarketUpdate)

  /** `apply` of a snapshot order. */
  function Installed(book: Book, o: SnapshotOrder, watermark: nat, capacity: nat): Option<Book> {
    var u := o.update;
    if 0 < o.number <= watermark && u.sound && ValidPrice(u.price) && (u.kind == ADD || u.kind == MODIFY)
       && ValidQty(u.qty) && u.id !in book && |book| + 1 <= capacity
    then Some(book[u.id := Resting(u.side, u.price, u.qty)]) else None
  }

  /** All orders of a snapshot in turn. */
  function InstalledAll(book: Book, orders: seq<SnapshotOrder>, watermark: nat, capacity: nat): Option<Book>
    decreases |orders|
  {
    if orders == [] then Some(book)
    else
      var b := Installed(book, orders[0], watermark, capacity);
      if b == None then None else InstalledAll(b.value, orders[1..], watermark, capacity)
  }

  function TradeOf(last: int, u: MarketUpdate): int { if u.kind == TRADE then u.price else last }

  /** The buffered numbers beyond the current one. */
  function Ahead(pending: map<nat, MarketUpdate>, n: nat): set<nat> {
    set k | k in pending && k > n
  }

  /** The buffered increments beyond the watermark in ascending order: they must be contiguous. */
  function Drained(s: State, capacity: nat): Option<State>
    decreases Ahead(s.pending, s.marketSeq)
  {
    if Ahead(s.pending, s.marketSeq) == {} then Some(s)
    else if s.marketSeq + 1 !in s.pending then None
    else
      var next: nat := s.marketSeq + 1;
      var u := s.pending[next];
      var b := Applied(s.book, u, capacity);
      if b == None then None
      else
        assert next in Ahead(s.pending, s.marketSeq);
        Drained(s.(book := b.value, marketSeq := next, lastTrade := TradeOf(s.lastTrade, u)), capacity)
  }

  /** A well-framed datagram; others are exceptions and not part of a run. */
  datatype Datagram = Increment(n: nat, update: MarketUpdate) | Snapshot(watermark: nat, orders: seq<SnapshotOrder>)

  function OnIncrement(s: State, n: nat, u: MarketUpdate, capacity: nat): Option<State> {
    if !s.synchronized then
      if |s.pending| >= capacity || n in s.pending then None else Some(s.(pending := s.pending[n := u]))
    else if n <= s.snapshotSeq then Some(s)
    else if n != s.marketSeq + 1 then None
    else
      var b := Applied(s.book, u, capacity);
      if b == None then None else Some(s.(book := b.value, marketSeq := n, lastTrade := TradeOf(s.lastTrade, u)))
  }

  function OnSnapshot(s: State, watermark: nat, orders: seq<SnapshotOrder>, capacity: nat): Option<State> {
    if |orders| > capacity then None
    else if s.synchronized then Some(s.(advertised := Max(s.advertised, watermark)))
    else
      var b := InstalledAll(s.book, orders, watermark, capacity);
      if b == None then None
      else
        var d := Drained(s.(book := b.value, snapshotSeq := watermark, marketSeq := watermark), capacity);
        if d == None then None else Some(d.value.(pending := map[], synchronized := true))
  }

  /** `datagram`; None for an exception. */
  function Step(s: State, d: Datagram, capacity: nat): Option<State> {
    match d
    case Increment(n, u) => OnIncrement(s, n, u, capacity)
    case Snapshot(w, orders) => OnSnapshot(s, w, orders, capacity)
  }

  function Run(ds: seq<Datagram>, capacity: nat): Option<State> {
    if ds == [] then Some(START)
    else
      var s := Run(ds[..|ds| - 1], capacity);
      if s == None then None else Step(s.value, ds[|ds| - 1], capacity)
  }

  // ----- convergence -----------------------------------------------------------------------------------------

  /** An increment with its number in the log, or a snapshot listing the log's book at its watermark. */
  ghost predicate Genuine(log: seq<MarketUpdate>, d: Datagram) {
    match d
    case Increment(n, u) => 1 <= n <= |log| && u == log[n - 1]
    case Snapshot(w, orders) => w <= |log| && Lists(orders, Replay(log, w))
  }

  ghost predicate Listed(orders: seq<SnapshotOrder>, id: int) {
    exists i :: 0 <= i < |orders| && orders[i].update.id == id
  }

  /** The orders enumerate the book. */
  ghost predicate Lists(orders: seq<SnapshotOrder>, book: Book) {
    && (forall i :: 0 <= i < |orders| ==>
          var u := orders[i].update; u.id in book && book[u.id] == Resting(u.side, u.price, u.qty))
    && (forall id :: id in book ==> Listed(orders, id))
  }

  /** What holds between datagrams: buffered increments are the log's; a synchronised book is the log's. */
  ghost predicate Inv(log: seq<MarketUpdate>, s: State) {
    if s.synchronized then s.snapshotSeq <= s.marketSeq <= |log| && s.book == Replay(log, s.marketSeq)
    else s.book == map[] && FromLog(log, s.pending)
  }

  lemma ListedFirst(orders: seq<SnapshotOrder>, id: int)
    requires orders != []
    ensures Listed(orders, id) <==> orders[0].update.id == id || Listed(orders[1..], id)
  {
    if i :| 0 <= i < |orders| && orders[i].update.id == id {
      if i > 0 { assert orders[1..][i - 1].update.id == id; }
    }
    if i :| 0 <= i < |orders[1..]| && orders[1..][i].update.id == id { assert orders[i + 1].update.id == id; }
  }

  /** Installing adds each listed order, and nothing else. */
  lemma {:induction false} InstallsListed(book: Book, orders: seq<SnapshotOrder>, watermark: nat, capacity: nat)
    requires InstalledAll(book, orders, watermark, capacity).Some?
    ensures var b := InstalledAll(book, orders, watermark, capacity).value;
      && (forall id :: id in b <==> id in book || Listed(orders, id))
      && (forall id :: id in book ==> b[id] == book[id])
      && (forall i :: 0 <= i < |orders| ==>
            var u := orders[i].update; u.id in b && b[u.id] == Resting(u.side, u.price, u.qty))
    decreases |orders|
  {
    if orders != [] {
      var b := Installed(book, orders[0], watermark, capacity).value;
      InstallsListed(b, orders[1..], watermark, capacity);
      assert forall i :: 1 <= i < |orders| ==> orders[i] == orders[1..][i - 1];
      forall id ensures Listed(orders, id) <==> orders[0].update.id == id || Listed(orders[1..], id) {
        ListedFirst(orders, id);
      }
    }
  }

  /** A snapshot of the log installs the log's book. */
  lemma SnapshotInstalls(orders: seq<SnapshotOrder>, watermark: nat, capacity: nat, book: Book)
    requires Lists(orders, book) && InstalledAll(map[], orders, watermark, capacity).Some?
    ensures InstalledAll(map[], orders, watermark, capacity).value == book
  {
    InstallsListed(map[], orders, watermark, capacity);
    var b := InstalledAll(map[], orders, watermark, capacity).value;
    hide InstalledAll;
    forall id | id in b ensures id in book && b[id] == book[id] {
      assert Listed(orders, id);
      var i :| 0 <= i < |orders| && orders[i].update.id == id;
    }
    forall id | id in book ensures id in b {
      assert Listed(orders, id);
    }
    assert b == book;
  }

  /** Buffered increments carry the log's updates under their numbers. */
  ghost predicate FromLog(log: seq<MarketUpdate>, pending: map<nat, MarketUpdate>) {
    forall n :: n in pending ==> 1 <= n <= |log| && pending[n] == log[n - 1]
  }

  lemma AppliedIsEffect(book: Book, u: MarketUpdate, capacity: nat)
    requires Applied(book, u, capacity).Some?
    ensures Applied(book, u, capacity).value == Effect(book, u)
  {
  }

  /** Draining follows the log. */
  lemma {:induction false} DrainFollowsLog(log: seq<MarketUpdate>, s: State, capacity: nat)
    requires s.marketSeq <= |log| && s.book == Replay(log, s.marketSeq) && FromLog(log, s.pending)
    requires Drained(s, capacity).Some?
    ensures var d := Drained(s, capacity).value;
      s.marketSeq <= d.marketSeq <= |log| && d.book == Replay(log, d.marketSeq)
      && d.snapshotSeq == s.snapshotSeq && d.advertised == s.advertised
    decreases Ahead(s.pending, s.marketSeq)
  {
    hide Applied, Effect;
    if Ahead(s.pending, s.marketSeq) != {} {
      var next: nat := s.marketSeq + 1;
      var u := s.pending[next];
      assert next in Ahead(s.pending, s.marketSeq) && next <= |log| && u == log[next - 1];
      hide FromLog;
      AppliedIsEffect(s.book, u, capacity);
      assert Effect(s.book, u) == Replay(log, next);
      var s' := s.(book := Effect(s.book, u), marketSeq := next, lastTrade := TradeOf(s.lastTrade, u));
      DrainFollowsLog(log, s', capacity);
    }
  }

  lemma StepFollowsLog(log: seq<MarketUpdate>, s: State, d: Datagram, capacity: nat)
    requires Inv(log, s) && Genuine(log, d) && Step(s, d, capacity).Some?
    ensures Inv(log, Step(s, d, capacity).value)
  {
    hide Lists, InstalledAll, Drained;
    if d.Snapshot? && !s.synchronized {
      SnapshotInstalls(d.orders, d.watermark, capacity, Replay(log, d.watermark));
      var installed := s.(book := Replay(log, d.watermark), snapshotSeq := d.watermark, marketSeq := d.watermark);
      DrainFollowsLog(log, installed, capacity);
    }
  }

  /** Every run of genuine datagrams without exceptions: once synchronised, the book is the venue's log replayed
      to the sequence number reached. */
  lemma {:induction false} RunFollowsLog(log: seq<MarketUpdate>, ds: seq<Datagram>, capacity: nat)
    requires (forall d :: d in ds ==> Genuine(log, d)) && Run(ds, capacity).Some?
    ensures var s := Run(ds, capacity).value;
      Inv(log, s) && (s.synchronized ==> s.marketSeq <= |log| && s.book == Replay(log, s.marketSeq))
  {
    hide Genuine, Step;
    if ds != [] {
      RunFollowsLog(log, ds[..|ds| - 1], capacity);
      StepFollowsLog(log, Run(ds[..|ds| - 1], capacity).value, ds[|ds| - 1], capacity);
    }
  }

  // ----- arrival order ---------------------------------------------------------------------------------------

  /** The increments received before any snapshot. */
  predicate AllIncrements(ds: seq<Datagram>) { forall d :: d in ds ==> d.Increment? }

  /** No datagram arrives twice. */
  ghost predicate Once(ds: seq<Datagram>) { forall d :: d in ds ==> multiset(ds)[d] == 1 }

  lemma OnceGrows(ds: seq<Datagram>, d: Datagram)
    ensures Once(ds + [d]) <==> Once(ds) && d !in ds
  {
    assert multiset(ds + [d]) == multiset(ds) + multiset{d};
    if Once(ds + [d]) {
      assert d in ds + [d];
      forall e | e in ds ensures multiset(ds)[e] == 1 && e != d {
        assert e in multiset(ds) && e in ds + [d];
      }
    }
  }

  /** The buffer holds exactly the received increments. */
  ghost predicate Holds(log: seq<MarketUpdate>, ds: seq<Datagram>, s: State) {
    && s == START.(pending := s.pending) && |s.pending| == |ds|
    && (forall n :: n in s.pending <==> 1 <= n <= |log| && Increment(n, log[n - 1]) in ds)
    && (forall n :: n in s.pending ==> s.pending[n] == log[n - 1])
  }

  lemma HoldsMore(log: seq<MarketUpdate>, ds: seq<Datagram>, s: State, d: Datagram, capacity: nat)
    requires Holds(log, ds, s) && Genuine(log, d) && d.Increment?
    ensures Step(s, d, capacity).Some? <==> |ds| < capacity && d !in ds
    ensures Step(s, d, capacity).Some? ==> Holds(log, ds + [d], Step(s, d, capacity).value)
  {
    assert d.n in s.pending <==> d in ds;
    if Step(s, d, capacity).Some? {
      var s' := Step(s, d, capacity).value;
      assert forall e :: e in ds + [d] <==> e in ds || e == d;
    }
  }

  /** Genuine increments are buffered as long as none comes twice and there is room. */
  lemma {:induction false} Buffered(log: seq<MarketUpdate>, ds: seq<Datagram>, capacity: nat)
    requires AllIncrements(ds) && forall d :: d in ds ==> Genuine(log, d)
    ensures Run(ds, capacity).Some? <==> |ds| <= capacity && Once(ds)
    ensures Run(ds, capacity).Some? ==> Holds(log, ds, Run(ds, capacity).value)
  {
    if ds != [] {
      var before, d := ds[..|ds| - 1], ds[|ds| - 1];
      assert ds == before + [d];
      Buffered(log, before, capacity);
      OnceGrows(before, d);
      if Run(before, capacity).Some? { HoldsMore(log, before, Run(before, capacity).value, d, capacity); }
      hide Step, Holds, Once, Genuine;
    }
  }

  /** Increments that arrive before the snapshot may come in any order: the adapter ends in the same state, or
      fails, all the same. */
  lemma BufferIgnoresOrder(log: seq<MarketUpdate>, a: seq<Datagram>, b: seq<Datagram>, capacity: nat)
    requires AllIncrements(a) && (forall d :: d in a ==> Genuine(log, d)) && multiset(a) == multiset(b)
    ensures Run(a, capacity) == Run(b, capacity)
  {
    assert |a| == |multiset(a)| == |b|;
    assert forall d :: d in a <==> d in multiset(a);
    assert forall d :: d in b <==> d in multiset(b);
    Buffered(log, a, capacity);
    Buffered(log, b, capacity);
    hide Run, Genuine;
    if Run(a, capacity).Some? {
      assert Run(a, capacity).value.pending == Run(b, capacity).value.pending;
    }
  }

  lemma RunOneMore(ds: seq<Datagram>, d: Datagram, capacity: nat)
    ensures Run(ds + [d], capacity) ==
      if Run(ds, capacity) == None then None else Step(Run(ds, capacity).value, d, capacity)
  {
    hide Step;
    assert (ds + [d])[..|ds|] == ds;
  }

  lemma {:induction false} SameFuture(a: seq<Datagram>, b: seq<Datagram>, rest: seq<Datagram>, capacity: nat)
    requires Run(a, capacity) == Run(b, capacity)
    ensures Run(a + rest, capacity) == Run(b + rest, capacity)
    decreases |rest|
  {
    hide Step, Run;
    if rest == [] {
      assert a + rest == a && b + rest == b;
    } else {
      var d := rest[0];
      RunOneMore(a, d, capacity);
      RunOneMore(b, d, capacity);
      SameFuture(a + [d], b + [d], rest[1..], capacity);
      assert a + rest == a + [d] + rest[1..] && b + rest == b + [d] + rest[1..];
    }
  }

  /** Whatever follows, the order of arrival before it does not matter. */
  lemma ArrivalOrderIsIrrelevant(log: seq<MarketUpdate>, a: seq<Datagram>, b: seq<Datagram>, rest: seq<Datagram>,
                                 capacity: nat)
    requires AllIncrements(a) && (forall d :: d in a ==> Genuine(log, d)) && multiset(a) == multiset(b)
    ensures Run(a + rest, capacity) == Run(b + rest, capacity)
  {
    BufferIgnoresOrder(log, a, b, capacity);
    SameFuture(a, b, rest, capacity);
  }
}
