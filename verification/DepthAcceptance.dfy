/** Which events and snapshots the Binance depth book takes, said by update ids and numbers of levels alone. */
module DepthAcceptance {
  import opened Common
  import opened DepthSpec
  import opened DepthConvergence

  // ----- numbers of levels -----------------------------------------------------------------------------------

  /** The prices of a side after entries, quantity zero taking its price away. */
  function PricesAfter(prices: set<real>, entries: seq<Entry>): set<real> {
    if entries == [] then prices
    else
      var before, e := PricesAfter(prices, entries[..|entries| - 1]), entries[|entries| - 1];
      if e.BadLevel? then before
      else if e.qty == 0.0 then before - {e.price}
      else before + {e.price}
  }

  /** The entries never need more levels than a side has. */
  ghost predicate Roomy(prices: set<real>, entries: seq<Entry>) {
    forall k: nat :: k <= |entries| ==> |PricesAfter(prices, entries[..k])| <= MAX_PRICE_LEVELS_PER_SIDE
  }

  predicate Readable(entries: seq<Entry>) { forall e :: e in entries ==> e.Level? }

  lemma {:induction false} PricesFirst(prices: set<real>, entries: seq<Entry>)
    requires entries != []
    ensures PricesAfter(prices, entries) == PricesAfter(PricesAfter(prices, entries[..1]), entries[1..])
  {
    if |entries| == 1 {
      assert entries[..1] == entries;
    } else {
      var n := |entries| - 1;
      assert entries[..n][..1] == entries[..1] && entries[..n][1..] == entries[1..][..n - 1];
      PricesFirst(prices, entries[..n]);
      assert entries[1..][n - 1] == entries[n];
    }
  }

  lemma RoomyFirst(prices: set<real>, entries: seq<Entry>)
    requires entries != [] && |prices| <= MAX_PRICE_LEVELS_PER_SIDE
    ensures var first := PricesAfter(prices, entries[..1]);
      Roomy(prices, entries) <==> |first| <= MAX_PRICE_LEVELS_PER_SIDE && Roomy(first, entries[1..])
  {
    var first := PricesAfter(prices, entries[..1]);
    forall k: nat | 0 < k <= |entries|
      ensures PricesAfter(prices, entries[..k]) == PricesAfter(first, entries[1..][..k - 1])
    {
      assert entries[..k][..1] == entries[..1] && entries[..k][1..] == entries[1..][..k - 1];
      PricesFirst(prices, entries[..k]);
    }
    hide PricesAfter;
    if Roomy(prices, entries) {
      forall k: nat | k <= |entries| - 1 ensures |PricesAfter(first, entries[1..][..k])| <= MAX_PRICE_LEVELS_PER_SIDE {
        assert |PricesAfter(prices, entries[..k + 1])| <= MAX_PRICE_LEVELS_PER_SIDE;
      }
      assert |PricesAfter(prices, entries[..1])| <= MAX_PRICE_LEVELS_PER_SIDE;
    }
    if |first| <= MAX_PRICE_LEVELS_PER_SIDE && Roomy(first, entries[1..]) {
      forall k: nat | k <= |entries| ensures |PricesAfter(prices, entries[..k])| <= MAX_PRICE_LEVELS_PER_SIDE {
        if k == 0 {
          NoEntries(prices);
        } else {
          assert |PricesAfter(first, entries[1..][..k - 1])| <= MAX_PRICE_LEVELS_PER_SIDE;
        }
      }
    }
  }

  lemma NoEntries(prices: set<real>)
    ensures forall entries: seq<Entry> :: entries == [] ==> PricesAfter(prices, entries) == prices
  {
  }

  lemma OneEntry(prices: set<real>, e: Entry)
    ensures PricesAfter(prices, [e]) ==
      if e.BadLevel? then prices else if e.qty == 0.0 then prices - {e.price} else prices + {e.price}
  {
    assert [e][..0] == [];
  }

  /** One entry is taken exactly when its prices fit. */
  lemma OneChange(levels: Levels, e: Entry)
    requires e.Level? && |levels| <= MAX_PRICE_LEVELS_PER_SIDE
    ensures var r := Changed(levels, e); var prices := PricesAfter(levels.Keys, [e]);
      && (r.1 == Done <==> |prices| <= MAX_PRICE_LEVELS_PER_SIDE) && (r.1 != Done ==> r.1 == Fatal)
      && (r.1 == Done ==> r.0.Keys == prices && |r.0| == |prices|)
  {
    OneEntry(levels.Keys, e);
    hide PricesAfter;
    var after := Changed(levels, e).0;
    assert |levels| == |levels.Keys| && |after| == |after.Keys|;
    if e.qty == 0.0 {
      SubsetSize(levels.Keys - {e.price}, levels.Keys);
    } else if e.price in levels {
      assert levels.Keys + {e.price} == levels.Keys;
    }
  }

  /** Readable entries are all taken exactly when they never need more levels than there are; otherwise the
      process ends. */
  lemma {:induction false} ChangesTaken(levels: Levels, entries: seq<Entry>)
    requires Readable(entries) && |levels| <= MAX_PRICE_LEVELS_PER_SIDE
    ensures AllChanged(levels, entries).1 == if Roomy(levels.Keys, entries) then Done else Fatal
    decreases |entries|
  {
    hide Roomy, PricesAfter, Changed;
    assert |levels| == |levels.Keys|;
    if entries == [] {
      NothingIsRoomy(levels.Keys);
    } else {
      var e := entries[0];
      assert e in entries && entries[..1] == [e];
      RoomyFirst(levels.Keys, entries);
      OneChange(levels, e);
      var step := Changed(levels, e);
      if step.1 == Done { ChangesTaken(step.0, entries[1..]); }
    }
  }

  lemma NothingIsRoomy(prices: set<real>)
    requires |prices| <= MAX_PRICE_LEVELS_PER_SIDE
    ensures Roomy(prices, [])
  {
    NoEntries(prices);
  }

  lemma {:induction false} SidesStayBounded(levels: Levels, entries: seq<Entry>)
    requires |levels| <= MAX_PRICE_LEVELS_PER_SIDE
    ensures |AllChanged(levels, entries).0| <= MAX_PRICE_LEVELS_PER_SIDE
    decreases |entries|
  {
    if entries != [] {
      var step := Changed(levels, entries[0]);
      assert |step.0| <= MAX_PRICE_LEVELS_PER_SIDE by { OneStaysBounded(levels, entries[0]); }
      if step.1 == Done { SidesStayBounded(step.0, entries[1..]); }
    }
  }

  lemma OneStaysBounded(levels: Levels, e: Entry)
    requires |levels| <= MAX_PRICE_LEVELS_PER_SIDE
    ensures |Changed(levels, e).0| <= MAX_PRICE_LEVELS_PER_SIDE
  {
    var after := Changed(levels, e).0;
    assert |after| == |after.Keys| && |levels| == |levels.Keys|;
    if after.Keys <= levels.Keys { SubsetSize(after.Keys, levels.Keys); }
  }

  // ----- events ----------------------------------------------------------------------------------------------

  /** The event names the last update as its predecessor, or its range holds the next one. */
  predicate Continues(last: nat, e: Event)
    requires e.DepthEvent?
  {
    e.previous == last || e.first <= last + 1 <= e.final
  }

  predicate Bounded(d: Depth) {
    |d.bids| <= MAX_PRICE_LEVELS_PER_SIDE && |d.asks| <= MAX_PRICE_LEVELS_PER_SIDE
  }

  ghost predicate RoomyEvent(bids: Levels, asks: Levels, e: Event)
    requires e.DepthEvent?
  {
    Roomy(bids.Keys, e.bids) && Roomy(asks.Keys, e.asks)
  }

  /** Every readable event: a stale one is skipped, one that does not continue the last update is refused with the
      book unchanged (but for a book whose last update id is 0), and any other is taken if there is room. */
  lemma EventExact(d: Depth, e: Event)
    requires e.DepthEvent? && Readable(e.bids) && Readable(e.asks) && Bounded(d)
    ensures var r := Applied(d, e);
      if e.final <= d.last then r == (d, Done)
      else if d.last != 0 && !Continues(d.last, e) then r == (d, Threw)
      else if RoomyEvent(d.bids, d.asks, e) then r.1 == Done && r.0.last == e.final
      else r.1 == Fatal
  {
    hide Roomy;
    ChangesTaken(d.bids, e.bids);
    ChangesTaken(d.asks, e.asks);
    hide AllChanged;
  }

  /** A faithful event at a book that is the exchange's: taken, it makes the book the exchange's at the event's end;
      it is refused, with the book unchanged, exactly when it is newer and does not continue the last update. */
  lemma FaithfulEventExact(d: Depth, e: Event, h: History)
    requires WellFormed(h) && Synced(d, h) && Faithful(e, h) && Bounded(d)
    ensures var r := Applied(d, e);
      if e.final <= d.last then r == (d, Done)
      else if !Continues(d.last, e) then r == (d, Threw)
      else if RoomyEvent(d.bids, d.asks, e) then
        r == (d.(bids := h(e.final).bids, asks := h(e.final).asks, last := e.final), Done)
      else r.1 == Fatal
  {
    FaithfulIsReadable(e, h);
    EventExact(d, e);
    hide RoomyEvent;
    if Applied(d, e).1 == Done { EventConverges(d, e, h); }
  }

  lemma FaithfulIsReadable(e: Event, h: History)
    requires Faithful(e, h)
    ensures Readable(e.bids) && Readable(e.asks)
  {
    assert forall x :: x in e.bids ==> x.Level? by {
      forall x | x in e.bids ensures x.Level? { var i: nat :| i < |e.bids| && e.bids[i] == x; }
    }
    assert forall x :: x in e.asks ==> x.Level? by {
      forall x | x in e.asks ensures x.Level? { var i: nat :| i < |e.asks| && e.asks[i] == x; }
    }
  }

  // ----- draining after a snapshot ---------------------------------------------------------------------------

  ghost predicate AllFaithful(es: seq<Event>, h: History) { forall i: nat :: i < |es| ==> Faithful(es[i], h) }

  /** The last update id after events, stale ones skipped. */
  function LastAfter(last: nat, es: seq<Event>): nat
    decreases |es|
  {
    if es == [] then last
    else
      var e := es[0];
      LastAfter(if e.DepthEvent? && e.final > last then e.final else last, es[1..])
  }

  /** Each event in turn is stale, or continues the last update and has room in the exchange's book there. */
  ghost predicate Chains(h: History, last: nat, es: seq<Event>)
    requires AllFaithful(es, h)
    decreases |es|
  {
    es == [] || (
      var e := es[0];
      assert Faithful(e, h);
      assert AllFaithful(es[1..], h);
      if e.final <= last then Chains(h, last, es[1..])
      else Continues(last, e) && RoomyEvent(h(last).bids, h(last).asks, e) && Chains(h, e.final, es[1..]))
  }

  /** The buffered events are all taken exactly when they chain up from the snapshot. */
  lemma {:induction false} DrainExact(d: Depth, h: History)
    requires WellFormed(h) && Synced(d, h) && Bounded(d) && AllFaithful(d.pending, h)
    ensures Drained(d).1 == Done <==> Chains(h, d.last, d.pending)
    ensures Drained(d).1 == Done ==> Drained(d).0.last == LastAfter(d.last, d.pending)
    decreases |d.pending|
  {
    if d.pending != [] {
      var e, rest := d.pending[0], d.pending[1..];
      assert Faithful(e, h) && AllFaithful(rest, h);
      FaithfulEventExact(d, e, h);
      var r := Applied(d, e);
      assert Applied(d, e).0.pending == d.pending;
      if r.1 == Done {
        if e.final > d.last {
          SidesStayBounded(d.bids, e.bids);
          SidesStayBounded(d.asks, e.asks);
          EventConverges(d, e, h);
        }
        hide RoomyEvent, Faithful, Continues, AllFaithful, WellFormed;
        DrainExact(r.0.(pending := rest), h);
      }
    }
  }

  // ----- snapshots -------------------------------------------------------------------------------------------

  /** One price more fits exactly when it is there or another level fits. */
  lemma OneListed(levels: Levels, e: Entry)
    requires e.Level? && |levels| <= MAX_PRICE_LEVELS_PER_SIDE
    ensures var r := Listed(levels, e); var prices := levels.Keys + {e.price};
      && (r.1 == Done <==> |prices| <= MAX_PRICE_LEVELS_PER_SIDE) && (r.1 != Done ==> r.1 == Fatal)
      && (r.1 == Done ==> r.0.Keys == prices && |r.0| == |prices|)
  {
    assert |levels| == |levels.Keys|;
    if e.price in levels {
      assert levels.Keys + {e.price} == levels.Keys;
    } else {
      assert |levels.Keys + {e.price}| == |levels| + 1;
    }
    var after := Listed(levels, e).0;
    assert |after| == |after.Keys|;
  }

  /** The prices listed. */
  function Listing(entries: seq<Entry>): set<real> {
    set e | e in entries && e.Level? :: e.price
  }

  lemma ListingFirst(entries: seq<Entry>)
    requires Readable(entries) && entries != []
    ensures Listing(entries) == {entries[0].price} + Listing(entries[1..])
    ensures entries[0].Level? && Readable(entries[1..])
  {
    assert entries[0] in entries;
  }

  /** A listing fits exactly when all its prices do. */
  lemma {:induction false} ListingTaken(levels: Levels, entries: seq<Entry>, prices: set<real>)
    requires Readable(entries) && |levels| <= MAX_PRICE_LEVELS_PER_SIDE
    requires levels.Keys + Listing(entries) == prices
    ensures AllListed(levels, entries).1 == if |prices| <= MAX_PRICE_LEVELS_PER_SIDE then Done else Fatal
    decreases |entries|
  {
    hide Listed;
    if entries == [] {
      assert levels.Keys == prices && |levels| == |levels.Keys|;
    } else {
      var e := entries[0];
      ListingFirst(entries);
      hide Listing;
      OneListed(levels, e);
      var step := Listed(levels, e);
      if step.1 == Done {
        ListingTaken(step.0, entries[1..], prices);
      } else {
        SubsetSize(levels.Keys + {e.price}, prices);
      }
    }
  }

  lemma CompleteListing(entries: seq<Entry>, book: Levels)
    requires Complete(entries, book)
    ensures Readable(entries) && Listing(entries) == book.Keys
  {
    forall x | x in entries ensures x.Level? && x.price in book { var i: nat :| i < |entries| && entries[i] == x; }
    forall p | p in book ensures p in Listing(entries) {
      assert Mentions(entries, p);
      var i: nat :| i < |entries| && entries[i].Level? && entries[i].price == p;
      assert entries[i] in entries;
    }
  }

  ghost predicate SnapshotFits(h: History, u: nat) {
    |h(u).bids| <= MAX_PRICE_LEVELS_PER_SIDE && |h(u).asks| <= MAX_PRICE_LEVELS_PER_SIDE
  }

  /** A faithful snapshot is taken exactly when the exchange's book at its update id fits and the buffered events
      chain up from there. */
  lemma InstallExact(d: Depth, s: Snapshot, h: History)
    requires WellFormed(h) && FaithfulSnapshot(s, h) && AllFaithful(d.pending, h)
    ensures var u, r := s.lastUpdateId.value, Installed(d, s);
      && (r.1 == Done <==> SnapshotFits(h, u) && Chains(h, u, d.pending))
      && (r.1 == Done ==> r.0.last == LastAfter(u, d.pending) && r.0.ready && r.0.pending == [] && Synced(r.0, h))
  {
    hide Complete, AllListed, Chains, WellFormed, Drained, AllFaithful;
    var u := s.lastUpdateId.value;
    SideListed(s.bids, h(u).bids);
    SideListed(s.asks, h(u).asks);
    if SnapshotFits(h, u) {
      var at := d.(bids := h(u).bids, asks := h(u).asks, last := u);
      DrainExact(at, h);
      if Drained(at).1 == Done { DrainsAll(at, h); }
    }
  }

  lemma SideListed(entries: seq<Entry>, book: Levels)
    requires Complete(entries, book)
    ensures var r := AllListed(map[], entries);
      && r.1 == (if |book| <= MAX_PRICE_LEVELS_PER_SIDE then Done else Fatal) && (r.1 == Done ==> r.0 == book)
  {
    CompleteListing(entries, book);
    if AllListed(map[], entries).1 == Done { ListedIsBook(entries, book); }
    hide Complete, Listing, Readable, AllListed;
    assert |book.Keys| == |book|;
    ListingTaken(map[], entries, book.Keys);
  }

  lemma DrainsAll(d: Depth, h: History)
    requires WellFormed(h) && Synced(d, h) && AllFaithful(d.pending, h) && Drained(d).1 == Done
    ensures Synced(Drained(d).0, h) && Drained(d).0.pending == []
  {
    DrainConverges(d, h);
  }

  // ----- runs ------------------------------------------------------------------------------------------------

  /** How far a run of faithful inputs has come, told by numbers alone. */
  datatype Track = Track(last: nat, ready: bool, pending: seq<Event>)

  ghost function Tracked(t: Track, x: Input, h: History): (r: Option<Track>)
    requires FaithfulInput(x, h) && AllFaithful(t.pending, h)
    ensures r.Some? ==> AllFaithful(r.value.pending, h)
  {
    match x
    case Stream(e) =>
      if !t.ready then
        if |t.pending| < PENDING_EVENT_CAPACITY then Some(t.(pending := t.pending + [e])) else None
      else if e.final <= t.last then Some(t)
      else if Continues(t.last, e) && RoomyEvent(h(t.last).bids, h(t.last).asks, e) then Some(t.(last := e.final))
      else None
    case Rest(s) =>
      var u := s.lastUpdateId.value;
      if SnapshotFits(h, u) && Chains(h, u, t.pending) then Some(Track(LastAfter(u, t.pending), true, [])) else None
  }

  /** The state of a book that has come this far. */
  ghost predicate At(d: Depth, t: Track, h: History) {
    && d.last == t.last && d.ready == t.ready && d.pending == t.pending
    && AllFaithful(d.pending, h) && Bounded(d)
    && (d.ready ==> Synced(d, h) && d.pending == [])
  }

  lemma SnapshotExact(d: Depth, t: Track, s: Snapshot, h: History)
    requires WellFormed(h) && At(d, t, h) && FaithfulSnapshot(s, h)
    ensures var r, t' := Installed(d, s), Tracked(t, Rest(s), h);
      (r.1 == Done <==> t'.Some?) && (r.1 == Done ==> At(r.0, t'.value, h))
  {
    hide Faithful, Complete, WellFormed, Installed, Chains, Synced;
    InstallExact(d, s, h);
    if Installed(d, s).1 == Done { InstalledIsBounded(d, s); }
  }

  lemma InstalledIsBounded(d: Depth, s: Snapshot)
    requires Installed(d, s).1 == Done
    ensures Bounded(Installed(d, s).0)
  {
    var b, a := AllListed(map[], s.bids).0, AllListed(map[], s.asks).0;
    ListedIsBounded(map[], s.bids);
    ListedIsBounded(map[], s.asks);
    hide AllListed;
    DrainStaysBounded(d.(bids := b, asks := a, last := s.lastUpdateId.value));
    hide Drained;
  }

  lemma {:induction false} ListedIsBounded(levels: Levels, entries: seq<Entry>)
    requires |levels| <= MAX_PRICE_LEVELS_PER_SIDE
    ensures |AllListed(levels, entries).0| <= MAX_PRICE_LEVELS_PER_SIDE
    decreases |entries|
  {
    if entries != [] {
      if entries[0].Level? { OneListed(levels, entries[0]); }
      var step := Listed(levels, entries[0]);
      assert |step.0| <= MAX_PRICE_LEVELS_PER_SIDE;
      hide Listed;
      if step.1 == Done { ListedIsBounded(step.0, entries[1..]); }
    }
  }

  lemma AppliedStaysBounded(d: Depth, e: Event)
    requires Bounded(d)
    ensures Bounded(Applied(d, e).0)
  {
    hide AllChanged, Gap;
    if e.DepthEvent? {
      SidesStayBounded(d.bids, e.bids);
      SidesStayBounded(d.asks, e.asks);
    }
  }

  lemma {:induction false} DrainStaysBounded(d: Depth)
    requires Bounded(d)
    ensures Bounded(Drained(d).0)
    decreases |d.pending|
  {
    if d.pending != [] {
      AppliedStaysBounded(d, d.pending[0]);
      var r := Applied(d, d.pending[0]);
      hide Applied, Bounded;
      if r.1 == Done {
        SameBounds(r.0, r.0.(pending := d.pending[1..]));
        DrainStaysBounded(r.0.(pending := d.pending[1..]));
      }
    }
  }

  lemma SameBounds(d: Depth, d': Depth)
    requires Bounded(d) && d'.bids == d.bids && d'.asks == d.asks
    ensures Bounded(d')
  {
  }

  lemma StreamExact(d: Depth, t: Track, e: Event, h: History)
    requires WellFormed(h) && At(d, t, h) && Faithful(e, h)
    ensures var r, t' := OnEvent(d, e), Tracked(t, Stream(e), h);
      (r.1 == Done <==> t'.Some?) && (r.1 == Done ==> At(r.0, t'.value, h))
  {
    if d.ready {
      FaithfulEventExact(d, e, h);
      AppliedStaysBounded(d, e);
      if Applied(d, e).1 == Done { EventConverges(d, e, h); }
      hide Applied;
    }
    hide Faithful, WellFormed, RoomyEvent;
  }

  /** Where a run of faithful inputs stands; None once one of them is refused. */
  ghost function TrackedRun(inputs: seq<Input>, h: History): (r: Option<Track>)
    requires forall x :: x in inputs ==> FaithfulInput(x, h)
    ensures r.Some? ==> AllFaithful(r.value.pending, h)
  {
    if inputs == [] then Some(Track(0, false, []))
    else
      var before := TrackedRun(inputs[..|inputs| - 1], h);
      assert inputs[|inputs| - 1] in inputs;
      if before == None then None else Tracked(before.value, inputs[|inputs| - 1], h)
  }

  /** A run of faithful inputs fails exactly when its update ids or its number of levels say so, and stands where
      they say, with the exchange's book once it is ready. */
  lemma {:induction false} RunExact(inputs: seq<Input>, h: History)
    requires WellFormed(h) && forall x :: x in inputs ==> FaithfulInput(x, h)
    ensures Run(inputs).1 == Done <==> TrackedRun(inputs, h).Some?
    ensures Run(inputs).1 == Done ==> At(Run(inputs).0, TrackedRun(inputs, h).value, h)
  {
    hide Step, Tracked, At, FaithfulInput, WellFormed;
    if inputs == [] {
      StartsAt(h);
    } else {
      var before, x := inputs[..|inputs| - 1], inputs[|inputs| - 1];
      assert x in inputs;
      RunExact(before, h);
      if Run(before).1 == Done { StepExact(Run(before).0, TrackedRun(before, h).value, x, h); }
    }
  }

  lemma StartsAt(h: History)
    ensures At(INITIAL, Track(0, false, []), h)
  {
  }

  lemma StepExact(d: Depth, t: Track, x: Input, h: History)
    requires WellFormed(h) && At(d, t, h) && FaithfulInput(x, h)
    ensures AllFaithful(t.pending, h)
    ensures var r, t' := Step(d, x), Tracked(t, x, h);
      (r.1 == Done <==> t'.Some?) && (r.1 == Done ==> At(r.0, t'.value, h))
  {
    assert AllFaithful(t.pending, h);
    hide Faithful, FaithfulSnapshot, WellFormed, At, OnEvent, Installed, Tracked, AllFaithful;
    match x {
      case Stream(e) => StreamExact(d, t, e, h);
      case Rest(s) => SnapshotExact(d, t, s, h);
    }
  }
}
