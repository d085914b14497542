/** The Binance depth book with its pre-snapshot ring (src/trading/venue/binance/binance_depth_book.cpp). */
module DepthBooks {
  import opened Common
  import opened DepthSpec
  import opened DepthSides
  import opened DepthConvergence
  import opened DepthAcceptance
  import DepthTables

  class DepthBook {
    const bids: DepthSide
    const asks: DepthSide
    const ring: array<Event>
    var last: nat
    var ready: bool
    var head: nat
    var size: nat

    ghost function Repr(): set<object> { {this, ring, bids, asks} + bids.Repr + asks.Repr }

    ghost predicate Valid()
      reads Repr()
    {
      && this !in bids.Repr && this !in asks.Repr && ring !in bids.Repr && ring !in asks.Repr
      && bids in bids.Repr && asks in asks.Repr && bids.Repr !! asks.Repr
      && bids.Valid() && asks.Valid() && bids.isBid && !asks.isBid
      && bids.pool.store.Length == asks.pool.store.Length == MAX_PRICE_LEVELS_PER_SIDE
      && ring.Length == PENDING_EVENT_CAPACITY && head < ring.Length && size <= ring.Length
    }

    /** The buffered events, oldest first. */
    ghost function Pending(): seq<Event>
      reads this, ring
    {
      if size <= ring.Length && head < ring.Length then Buffered(ring[..], head, size) else []
    }

    /** The abstract book. */
    ghost function View(): Depth
      reads this, ring, bids, asks
    {
      Depth(bids.contents, asks.contents, last, ready, Pending())
    }

    constructor (hash: DepthTables.Hash)
      ensures Valid() && fresh(Repr()) && View() == INITIAL
    {
      hide DepthSide.Valid;
      var bidSide := new DepthSide(true, MAX_PRICE_LEVELS_PER_SIDE, PRICE_SLOT_COUNT, MAX_TOMBSTONES_PER_SIDE, hash);
      var askSide := new DepthSide(false, MAX_PRICE_LEVELS_PER_SIDE, PRICE_SLOT_COUNT, MAX_TOMBSTONES_PER_SIDE, hash);
      var slots := new Event[PENDING_EVENT_CAPACITY](_ => Malformed);
      bids, asks, ring := bidSide, askSide, slots;
      last, ready, head, size := 0, false, 0, 0;
    }

    /** `onDepthEvent`: the event goes into the ring until a snapshot is installed. */
    method OnDepthEvent(e: Event) returns (out: Outcome)
      requires Valid()
      modifies Repr()
      ensures Valid() && (View(), out) == OnEvent(old(View()), e)
    {
      hide DepthSide.Valid, Applied;
      if ready {
        out := ApplyDepthEvent(e);
        return;
      }
      if size == ring.Length {
        return Fatal;
      }
      hide Buffered;
      Pushed(ring[..], head, size, e);
      var slot := RingPosition(size);
      ring[slot] := e;
      assert ring[..] == old(ring[..])[slot := e];
      size := size + 1;
      out := Done;
    }

    /** `applyDepthEvent`. */
    method ApplyDepthEvent(e: Event) returns (out: Outcome)
      requires Valid()
      modifies this`last, bids.Repr, asks.Repr
      ensures Valid() && (View(), out) == Applied(old(View()), e)
    {
      hide DepthSide.Valid, AllChanged;
      if e.Malformed? {
        return Threw;
      }
      if e.final <= last {
        return Done;
      }
      if last != 0 && e.previous != last && !(e.first <= last + 1 && e.final >= last + 1) {
        return Threw;
      }
      out := ChangeSide(bids, e.bids);
      if out != Done {
        return;
      }
      out := ChangeSide(asks, e.asks);
      if out != Done {
        return;
      }
      last := e.final;
    }

    /** The entries of one side of an event. */
    method ChangeSide(side: DepthSide, entries: seq<Entry>) returns (out: Outcome)
      requires Valid() && (side == bids || side == asks)
      modifies side.Repr
      ensures Valid()
      ensures (side.contents, out) == AllChanged(old(side.contents), entries)
    {
      hide DepthSide.Valid, Changed;
      for i := 0 to |entries|
        invariant Valid()
        invariant AllChanged(old(side.contents), entries) == AllChanged(side.contents, entries[i..])
      {
        assert entries[i..][0] == entries[i] && entries[i..][1..] == entries[i + 1..];
        out := ChangeLevel(side, entries[i]);
        if out != Done {
          return;
        }
      }
      out := Done;
    }

    /** One entry of an event: a zero quantity removes the price. */
    method ChangeLevel(side: DepthSide, entry: Entry) returns (out: Outcome)
      requires Valid() && (side == bids || side == asks)
      modifies side.Repr
      ensures Valid()
      ensures (side.contents, out) == Changed(old(side.contents), entry)
    {
      hide DepthSide.Valid;
      if entry.BadLevel? {
        return Threw;
      }
      out := Done;
      if entry.qty == 0.0 {
        side.Remove(entry.price);
      } else {
        var ok := side.Upsert(entry.price, entry.qty);
        if !ok {
          return Fatal;
        }
      }
    }

    /** The entries of one side of a snapshot. */
    method ListSide(side: DepthSide, entries: seq<Entry>) returns (out: Outcome)
      requires Valid() && (side == bids || side == asks)
      modifies side.Repr
      ensures Valid()
      ensures (side.contents, out) == AllListed(old(side.contents), entries)
    {
      hide DepthSide.Valid;
      for i := 0 to |entries|
        invariant Valid()
        invariant AllListed(old(side.contents), entries) == AllListed(side.contents, entries[i..])
      {
        assert entries[i..][0] == entries[i] && entries[i..][1..] == entries[i + 1..];
        if entries[i].BadLevel? {
          return Threw;
        }
        var ok := side.Upsert(entries[i].price, entries[i].qty);
        if !ok {
          return Fatal;
        }
      }
      out := Done;
    }

    /** `installSnapshot`. */
    method InstallSnapshot(s: Snapshot) returns (out: Outcome)
      requires Valid()
      modifies Repr()
      ensures Valid() && (View(), out) == Installed(old(View()), s)
    {
      hide DepthSide.Valid, AllListed, Drained;
      bids.Clear();
      asks.Clear();
      out := ListSide(bids, s.bids);
      if out != Done {
        return;
      }
      out := ListSide(asks, s.asks);
      if out != Done {
        return;
      }
      if s.lastUpdateId == None {
        return Threw;
      }
      last := s.lastUpdateId.value;
      out := DrainPendingEvents();
      if out == Done {
        ready := true;
      }
    }

    /** `drainPendingEvents`: an event leaves the ring only after it has been applied. */
    method DrainPendingEvents() returns (out: Outcome)
      requires Valid()
      modifies this`last, this`head, this`size, ring, bids.Repr, asks.Repr
      ensures Valid() && ready == old(ready) && (View(), out) == Drained(old(View()))
    {
      hide DepthSide.Valid, Applied, Buffered;
      while size > 0
        invariant Valid() && ready == old(ready)
        invariant Drained(old(View())) == Drained(View())
        decreases size
      {
        Popped(ring[..], head, size);
        out := ApplyDepthEvent(ring[head]);
        if out != Done {
          return;
        }
        PopHead();
      }
      assert |Pending()| == 0 by { NothingBuffered(); }
      out := Done;
    }

    lemma NothingBuffered()
      requires Valid() && size == 0
      ensures Pending() == []
    {
    }

    /** The head event leaves the ring. */
    method PopHead()
      requires Valid() && size > 0
      modifies this`head, this`size, ring
      ensures Valid() && size == old(size) - 1
      ensures old(View()).pending != [] && View() == old(View()).(pending := old(View()).pending[1..])
    {
      hide DepthSide.Valid, Buffered, RingSlot;
      Popped(ring[..], head, size);
      var next := RingPosition(1);
      ring[head] := Malformed;
      assert ring[..] == old(ring[..])[head := Malformed];
      head := next;
      size := size - 1;
    }

    /** `(head + i) % capacity`. */
    method RingPosition(i: nat) returns (slot: nat)
      requires ring.Length == PENDING_EVENT_CAPACITY && head < ring.Length && i <= ring.Length
      ensures slot == RingSlot(head, i, ring.Length) < ring.Length
    {
      slot := (head + i) % PENDING_EVENT_CAPACITY;
    }

    /** The depth levels `buildMarketUpdate` publishes: the best ones, converted to integers. */
    method Publish() returns (bidLevels: seq<(int, int)>, askLevels: seq<(int, int)>)
      requires Valid()
      ensures exists top :: IsTop(true, View().bids, DEPTH_SNAPSHOT_LEVELS, top) && bidLevels == Published(top)
      ensures exists top :: IsTop(false, View().asks, DEPTH_SNAPSHOT_LEVELS, top) && askLevels == Published(top)
    {
      hide DepthSide.Valid, IsTop;
      var bidTop := bids.Top(DEPTH_SNAPSHOT_LEVELS);
      var askTop := asks.Top(DEPTH_SNAPSHOT_LEVELS);
      bidLevels, askLevels := Published(bidTop), Published(askTop);
    }
  }

  /** Conversion of a double to an integer type, towards zero; the value is assumed to fit. */
  function Truncated(x: real): int { if x >= 0.0 then x.Floor else -(-x).Floor }

  /** Levels as published: prices in units of 1e-8, quantities in whole units. */
  function Published(levels: seq<(real, real)>): seq<(int, int)> {
    seq(|levels|, i requires 0 <= i < |levels| => (Truncated(levels[i].0 * 100000000.0), Truncated(levels[i].1)))
  }

  /** A fresh book fed inputs up to the first failure. */
  method Feed(hash: DepthTables.Hash, inputs: seq<Input>) returns (book: DepthBook, out: Outcome)
    ensures book.Valid() && out == Run(inputs).1
    ensures out == Done ==> book.View() == Run(inputs).0
  {
    hide DepthBook.Valid, OnEvent, Installed;
    book := new DepthBook(hash);
    out := Done;
    for i := 0 to |inputs|
      invariant book.Valid() && fresh(book.Repr())
      invariant out == Done && Run(inputs[..i]) == (book.View(), Done)
    {
      assert inputs[..i + 1][..i] == inputs[..i];
      match inputs[i] {
        case Stream(e) => out := book.OnDepthEvent(e);
        case Rest(s) => out := book.InstallSnapshot(s);
      }
      assert Run(inputs[..i + 1]) == (book.View(), out);
      if out != Done {
        FailurePersists(inputs, i + 1);
        return;
      }
    }
    assert inputs[..|inputs|] == inputs;
  }

  /** A fresh book fed faithful inputs follows the exchange as long as nothing fails, which the update ids and the
      numbers of levels decide. */
  method Follow(hash: DepthTables.Hash, inputs: seq<Input>, ghost h: History) returns (book: DepthBook, out: Outcome)
    requires WellFormed(h) && forall x :: x in inputs ==> FaithfulInput(x, h)
    ensures book.Valid()
    ensures out == Run(inputs).1
    ensures out == Done ==> book.View() == Run(inputs).0
    ensures out == Done <==> TrackedRun(inputs, h).Some?
    ensures out == Done ==> At(book.View(), TrackedRun(inputs, h).value, h)
    ensures out == Done && book.ready ==> Synced(book.View(), h)
  {
    hide DepthBook.Valid, Run, TrackedRun, FaithfulInput, WellFormed, Synced, RunInvariant;
    book, out := Feed(hash, inputs);
    RunExact(inputs, h);
  }

  /** A failure ends the run. */
  lemma {:induction false} FailurePersists(inputs: seq<Input>, k: nat)
    requires k <= |inputs| && Run(inputs[..k]).1 != Done
    ensures Run(inputs).1 == Run(inputs[..k]).1
    decreases |inputs|
  {
    if k == |inputs| {
      assert inputs[..k] == inputs;
    } else {
      var n := |inputs| - 1;
      assert inputs[..n][..k] == inputs[..k];
      FailurePersists(inputs[..n], k);
    }
  }

  /** The ring slot of the i-th buffered event. */
  function RingSlot(head: nat, i: nat, n: nat): nat
    requires head < n && i <= n
  {
    if head + i < n then head + i else head + i - n
  }

  /** The contents of a ring from `head`. */
  ghost function Buffered(slots: seq<Event>, head: nat, size: nat): seq<Event>
    requires head < |slots| && size <= |slots|
  {
    seq(size, i requires 0 <= i < size => slots[RingSlot(head, i, |slots|)])
  }

  lemma Pushed(slots: seq<Event>, head: nat, size: nat, e: Event)
    requires head < |slots| && size < |slots|
    ensures Buffered(slots[RingSlot(head, size, |slots|) := e], head, size + 1) == Buffered(slots, head, size) + [e]
  {
  }

  lemma Popped(slots: seq<Event>, head: nat, size: nat)
    requires head < |slots| && 0 < size <= |slots|
    ensures |Buffered(slots, head, size)| == size && Buffered(slots, head, size)[0] == slots[head]
    ensures Buffered(slots[head := Malformed], RingSlot(head, 1, |slots|), size - 1) == Buffered(slots, head, size)[1..]
  {
    var n := |slots|;
    var next := RingSlot(head, 1, n);
    forall i: nat | i < size - 1 ensures RingSlot(next, i, n) == RingSlot(head, i + 1, n) != head {
    }
  }
}
