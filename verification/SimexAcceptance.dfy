/** Which datagrams the Simex adapter takes, said by the venue's log and sequence numbers alone. */
module SimexAcceptance {
  import opened Common
  import opened SimexSync

  // ----- the venue's log -------------------------------------------------------------------------------------

  /** An update that makes sense at a book: additions are new, modifications and cancellations are of resting orders,
      and what rests or trades has a price and a quantity. */
  predicate Legal(book: Book, u: MarketUpdate) {
    && u.sound && u.price > 0 && u.price != PRICE_INVALID
    && (u.kind == ADD ==> u.id !in book && u.qty !in {0, QTY_INVALID})
    && (u.kind == MODIFY ==> u.id in book && u.leaves !in {0, QTY_INVALID})
    && (u.kind == CANCEL ==> u.id in book)
    && (u.kind == TRADE ==> u.qty !in {0, QTY_INVALID})
    && u.kind != OTHER
  }

  /** The update after the first n of the log is legal there, and the book it leaves fits. */
  predicate Takes(log: seq<MarketUpdate>, n: nat, capacity: nat) {
    n < |log| && Legal(Replay(log, n), log[n]) && |Replay(log, n + 1)| <= capacity
  }

  /** The price of the last trade among the updates numbered lo + 1 to n of the log, if any. */
  function LastTrade(log: seq<MarketUpdate>, lo: nat, n: nat): int
    requires n <= |log|
  {
    if n <= lo then PRICE_INVALID
    else if log[n - 1].kind == TRADE then log[n - 1].price
    else LastTrade(log, lo, n - 1)
  }

  lemma AppliedExact(log: seq<MarketUpdate>, n: nat, capacity: nat)
    requires n < |log|
    ensures Applied(Replay(log, n), log[n], capacity)
         == if Takes(log, n, capacity) then Some(Replay(log, n + 1)) else None
  {
  }

  // ----- increments ------------------------------------------------------------------------------------------

  /** A synchronised state after the first n updates of the log, the snapshot having held the first w. */
  ghost predicate Live(log: seq<MarketUpdate>, s: State, w: nat, n: nat) {
    && s.synchronized && w <= n <= |log| && s.snapshotSeq == w && s.marketSeq == n
    && s.book == Replay(log, n) && s.lastTrade == LastTrade(log, w, n)
  }

  /** A genuine increment at a synchronised state: one the snapshot held is skipped, the next one is taken exactly when
      it is legal and what it leaves fits, and any other is refused. */
  lemma IncrementExact(log: seq<MarketUpdate>, s: State, w: nat, n: nat, k: nat, u: MarketUpdate, capacity: nat)
    requires Live(log, s, w, n) && Genuine(log, Increment(k, u))
    ensures var r := OnIncrement(s, k, u, capacity);
      if k <= w then r == Some(s)
      else if k == n + 1 && Takes(log, n, capacity) then r.Some? && Live(log, r.value, w, n + 1)
      else r == None
  {
    hide Takes, Applied, Replay;
    if k == n + 1 { AppliedExact(log, n, capacity); }
  }

  // ----- the buffer ------------------------------------------------------------------------------------------

  /** The number the buffer reaches up to from w. */
  ghost predicate IsTop(numbers: set<nat>, w: nat, top: nat) {
    w <= top && (top == w || top in numbers) && forall k :: k in numbers ==> k <= top
  }

  lemma {:induction false} TopExists(numbers: set<nat>, w: nat) returns (top: nat)
    ensures IsTop(numbers, w, top)
  {
    if k :| k in numbers {
      var rest := TopExists(numbers - {k}, w);
      top := if k > rest then k else rest;
      assert forall j :: j in numbers ==> j == k || j in numbers - {k};
    } else {
      top := w;
    }
  }

  /** From w the buffered increments leave no gap, and each is taken in its turn. */
  ghost predicate DrainsUp(log: seq<MarketUpdate>, numbers: set<nat>, w: nat, top: nat, capacity: nat) {
    forall k: nat :: w <= k < top ==> GoesOn(log, numbers, k, capacity)
  }

  /** The next increment after the first k is there, and is taken. */
  predicate GoesOn(log: seq<MarketUpdate>, numbers: set<nat>, k: nat, capacity: nat) {
    k + 1 in numbers && Takes(log, k, capacity)
  }

  lemma DrainsUpFirst(log: seq<MarketUpdate>, numbers: set<nat>, w: nat, top: nat, capacity: nat)
    requires w < top
    ensures DrainsUp(log, numbers, w, top, capacity) <==>
      w + 1 in numbers && Takes(log, w, capacity) && DrainsUp(log, numbers, w + 1, top, capacity)
  {
    hide Takes;
    assert GoesOn(log, numbers, w, capacity) <==> w + 1 in numbers && Takes(log, w, capacity);
    hide GoesOn;
  }

  /** The buffer drains exactly if it leaves no gap and all its increments beyond the snapshot are taken, and then up to
      its highest number. */
  lemma {:induction false} DrainExact(log: seq<MarketUpdate>, s: State, w: nat, n: nat, top: nat, capacity: nat)
    requires FromLog(log, s.pending) && IsTop(s.pending.Keys, n, top) && w <= n <= |log|
    requires s.marketSeq == n && s.book == Replay(log, n) && s.lastTrade == LastTrade(log, w, n)
    ensures var r := Drained(s, capacity);
      && (r.Some? <==> DrainsUp(log, s.pending.Keys, n, top, capacity))
      && (r.Some? ==> top <= |log| && r.value == s.(book := Replay(log, top), marketSeq := top,
                                                    lastTrade := LastTrade(log, w, top)))
    decreases top - n
  {
    hide Takes, Applied, Replay, DrainsUp;
    if top > n {
      DrainsUpFirst(log, s.pending.Keys, n, top, capacity);
      assert top in Ahead(s.pending, n);
      if n + 1 in s.pending {
        var u := s.pending[n + 1];
        assert n < |log| && u == log[n];
        AppliedExact(log, n, capacity);
        if Takes(log, n, capacity) {
          var s' := s.(book := Replay(log, n + 1), marketSeq := n + 1, lastTrade := TradeOf(s.lastTrade, u));
          assert n + 1 in Ahead(s.pending, n);
          DrainExact(log, s', w, n + 1, top, capacity);
          assert Drained(s, capacity) == Drained(s', capacity);
        }
      }
    } else {
      assert Ahead(s.pending, n) == {};
      NothingToDrain(log, s.pending.Keys, n, capacity);
    }
  }

  lemma NothingToDrain(log: seq<MarketUpdate>, numbers: set<nat>, n: nat, capacity: nat)
    ensures DrainsUp(log, numbers, n, n, capacity)
  {
  }

  // ----- snapshots -------------------------------------------------------------------------------------------

  /** One order of a snapshot is in order. */
  predicate WellFormed(o: SnapshotOrder, watermark: nat) {
    && 0 < o.number <= watermark && o.update.sound && o.update.price > 0 && o.update.price != PRICE_INVALID
    && (o.update.kind == ADD || o.update.kind == MODIFY) && o.update.qty !in {0, QTY_INVALID}
  }

  /** A snapshot that fits, its orders well-formed and each there once. */
  ghost predicate WellListed(orders: seq<SnapshotOrder>, watermark: nat, capacity: nat) {
    && |orders| <= capacity
    && (forall i :: 0 <= i < |orders| ==> WellFormed(orders[i], watermark))
    && (forall i, j :: 0 <= i < j < |orders| ==> orders[i].update.id != orders[j].update.id)
  }

  /** Orders are installed exactly if they are well-formed, new, and told apart, as long as all fit. */
  lemma {:induction false} InstallExact(book: Book, orders: seq<SnapshotOrder>, watermark: nat, capacity: nat)
    requires |book| + |orders| <= capacity
    ensures InstalledAll(book, orders, watermark, capacity).Some? <==>
      && (forall i :: 0 <= i < |orders| ==> WellFormed(orders[i], watermark) && orders[i].update.id !in book)
      && (forall i, j :: 0 <= i < j < |orders| ==> orders[i].update.id != orders[j].update.id)
    decreases |orders|
  {
    hide WellFormed;
    if orders != [] {
      FirstInstalled(book, orders[0], watermark, capacity);
      var b := Installed(book, orders[0], watermark, capacity);
      hide Installed;
      if b.Some? {
        InstallExact(b.value, orders[1..], watermark, capacity);
        assert forall i :: 1 <= i < |orders| ==> orders[i] == orders[1..][i - 1];
        assert forall i :: 0 <= i < |orders[1..]| ==> orders[1..][i] == orders[i + 1];
      }
    }
  }

  lemma FirstInstalled(book: Book, o: SnapshotOrder, watermark: nat, capacity: nat)
    requires |book| < capacity
    ensures var b := Installed(book, o, watermark, capacity); var u := o.update;
      && (b.Some? <==> WellFormed(o, watermark) && u.id !in book)
      && (b.Some? ==> b.value == book[u.id := Resting(u.side, u.price, u.qty)] && |b.value| == |book| + 1)
  {
  }

  /** The buffered increments of a state that waits for its snapshot. */
  ghost predicate Waits(log: seq<MarketUpdate>, s: State) {
    !s.synchronized && s.book == map[] && s.lastTrade == PRICE_INVALID && FromLog(log, s.pending)
  }

  /** A genuine snapshot at a state that waits for one: it is taken exactly when it is well-formed and the buffer
      drains up from it, and then the state is live at the highest number buffered. */
  lemma SnapshotExact(log: seq<MarketUpdate>, s: State, w: nat, orders: seq<SnapshotOrder>, top: nat, capacity: nat)
    requires Waits(log, s) && Genuine(log, Snapshot(w, orders)) && IsTop(s.pending.Keys, w, top)
    ensures var r := OnSnapshot(s, w, orders, capacity);
      && (r.Some? <==> WellListed(orders, w, capacity) && DrainsUp(log, s.pending.Keys, w, top, capacity))
      && (r.Some? ==> Live(log, r.value, w, top))
  {
    hide Takes, Applied, Replay, Drained, InstalledAll, WellFormed, Lists, IsTop;
    if |orders| <= capacity {
      InstallExact(map[], orders, w, capacity);
      if InstalledAll(s.book, orders, w, capacity).Some? {
        SnapshotInstalls(orders, w, capacity, Replay(log, w));
        NoTrade(log, w);
        var installed := s.(book := Replay(log, w), snapshotSeq := w, marketSeq := w);
        DrainExact(log, installed, w, w, top, capacity);
        TopIsAbove(s.pending.Keys, w, top);
      }
    }
  }

  lemma NoTrade(log: seq<MarketUpdate>, w: nat)
    requires w <= |log|
    ensures LastTrade(log, w, w) == PRICE_INVALID
  {
  }

  lemma TopIsAbove(numbers: set<nat>, w: nat, top: nat)
    requires IsTop(numbers, w, top)
    ensures w <= top
  {
  }

  // ----- runs ------------------------------------------------------------------------------------------------

  /** How far a run of genuine datagrams has come, told by numbers alone: the increments buffered, or the snapshot's
      and the last number. */
  datatype Track = Early(numbers: set<nat>) | Synced(w: nat, n: nat)

  ghost function Top(numbers: set<nat>, w: nat): (top: nat)
    ensures IsTop(numbers, w, top)
  {
    assert exists top :: IsTop(numbers, w, top) by { var top := TopExists(numbers, w); }
    var top :| IsTop(numbers, w, top);
    top
  }

  ghost function Tracked(log: seq<MarketUpdate>, t: Track, d: Datagram, capacity: nat): Option<Track> {
    match d
    case Increment(k, _) =>
      if t.Early? then if |t.numbers| < capacity && k !in t.numbers then Some(Early(t.numbers + {k})) else None
      else if k <= t.w then Some(t)
      else if k == t.n + 1 && Takes(log, t.n, capacity) then Some(Synced(t.w, t.n + 1))
      else None
    case Snapshot(w, orders) =>
      if t.Synced? then if |orders| <= capacity then Some(t) else None
      else if WellListed(orders, w, capacity) && DrainsUp(log, t.numbers, w, Top(t.numbers, w), capacity) then
        Some(Synced(w, Top(t.numbers, w)))
      else None
  }

  ghost function TrackedRun(log: seq<MarketUpdate>, ds: seq<Datagram>, capacity: nat): Option<Track> {
    if ds == [] then Some(Early({}))
    else
      var before := TrackedRun(log, ds[..|ds| - 1], capacity);
      if before == None then None else Tracked(log, before.value, ds[|ds| - 1], capacity)
  }

  /** The state of an adapter that has come this far. */
  ghost predicate At(log: seq<MarketUpdate>, s: State, t: Track) {
    if t.Early? then Waits(log, s) && s.pending.Keys == t.numbers else Live(log, s, t.w, t.n)
  }

  lemma IncrementTracked(log: seq<MarketUpdate>, s: State, t: Track, k: nat, u: MarketUpdate, capacity: nat)
    requires At(log, s, t) && Genuine(log, Increment(k, u))
    ensures var r, t' := Step(s, Increment(k, u), capacity), Tracked(log, t, Increment(k, u), capacity);
      (r.Some? <==> t'.Some?) && (r.Some? ==> At(log, r.value, t'.value))
  {
    hide Takes, Live, Waits, OnIncrement;
    if t.Synced? {
      IncrementExact(log, s, t.w, t.n, k, u, capacity);
    } else {
      IncrementBuffered(log, s, k, u, capacity);
    }
  }

  /** Before the snapshot an increment is kept exactly if there is room and its number is new. */
  lemma IncrementBuffered(log: seq<MarketUpdate>, s: State, k: nat, u: MarketUpdate, capacity: nat)
    requires Waits(log, s) && Genuine(log, Increment(k, u))
    ensures var r := OnIncrement(s, k, u, capacity);
      && (r.Some? <==> |s.pending.Keys| < capacity && k !in s.pending)
      && (r.Some? ==> Waits(log, r.value) && r.value.pending.Keys == s.pending.Keys + {k})
  {
    hide Applied;
    assert |s.pending| == |s.pending.Keys|;
  }

  lemma SnapshotTracked(log: seq<MarketUpdate>, s: State, t: Track, w: nat, orders: seq<SnapshotOrder>, capacity: nat)
    requires At(log, s, t) && Genuine(log, Snapshot(w, orders))
    ensures var r, t' := Step(s, Snapshot(w, orders), capacity), Tracked(log, t, Snapshot(w, orders), capacity);
      (r.Some? <==> t'.Some?) && (r.Some? ==> At(log, r.value, t'.value))
  {
    hide Takes, Applied, Replay, WellListed, DrainsUp, Lists, InstalledAll, Drained;
    if t.Early? {
      SnapshotExact(log, s, w, orders, Top(t.numbers, w), capacity);
      hide OnSnapshot, Live;
    }
  }

  /** A run of genuine datagrams fails exactly when the log and the sequence numbers say so; once synchronised, it
      stands at the log's book, and its last price is that of the last trade since the snapshot. */
  lemma {:induction false} RunExact(log: seq<MarketUpdate>, ds: seq<Datagram>, capacity: nat)
    requires forall d :: d in ds ==> Genuine(log, d)
    ensures Run(ds, capacity).Some? <==> TrackedRun(log, ds, capacity).Some?
    ensures Run(ds, capacity).Some? ==> At(log, Run(ds, capacity).value, TrackedRun(log, ds, capacity).value)
  {
    hide Step, Tracked, Genuine;
    if ds != [] {
      hide At;
      var before, d := ds[..|ds| - 1], ds[|ds| - 1];
      RunExact(log, before, capacity);
      if Run(before, capacity).Some? {
        match d {
          case Increment(k, u) =>
            IncrementTracked(log, Run(before, capacity).value, TrackedRun(log, before, capacity).value, k, u, capacity);
          case Snapshot(w, orders) =>
            SnapshotTracked(log, Run(before, capacity).value, TrackedRun(log, before, capacity).value, w, orders,
                            capacity);
        }
      }
    }
  }
}
