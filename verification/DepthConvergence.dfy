/** The local Binance depth book against the exchange's book
    (src/trading/venue/binance/binance_depth_book.cpp). */
module DepthConvergence {
  import opened Common
  import opened DepthSpec

  /** The exchange's book at each update id. */
  datatype Exchange = Exchange(bids: Levels, asks: Levels)
  type History = nat -> Exchange

  /** A book holds no zero quantities. */
  ghost predicate NoZero(levels: Levels) {
    forall p :: p in levels ==> levels[p] != 0.0
  }

  ghost predicate WellFormed(h: History) {
    forall u: nat :: NoZero(h(u).bids) && NoZero(h(u).asks)
  }

  function QtyAt(levels: Levels, p: real): real {
    if p in levels then levels[p] else 0.0
  }

  ghost predicate Mentions(entries: seq<Entry>, p: real) {
    exists i: nat :: i < |entries| && entries[i].Level? && entries[i].price == p
  }

  /** Every entry gives the absolute quantity of its price in `after`. */
  ghost predicate Truthful(entries: seq<Entry>, after: Levels) {
    forall i: nat :: i < |entries| ==> entries[i].Level? && entries[i].qty == QtyAt(after, entries[i].price)
  }

  /** Every price whose quantity differs is mentioned. */
  ghost predicate Covers(entries: seq<Entry>, before: Levels, after: Levels) {
    forall p :: QtyAt(before, p) != QtyAt(after, p) ==> Mentions(entries, p)
  }

  /** An event that lists, with its quantity at u, every price that changed over (pu, u]. */
  ghost predicate Faithful(e: Event, h: History) {
    && e.DepthEvent?
    && e.previous < e.first <= e.final
    && Truthful(e.bids, h(e.final).bids) && Truthful(e.asks, h(e.final).asks)
    && forall j: nat :: e.previous <= j < e.final ==>
         Covers(e.bids, h(j).bids, h(e.final).bids) && Covers(e.asks, h(j).asks, h(e.final).asks)
  }

  /** A snapshot entry list that is exactly a book. */
  ghost predicate Complete(entries: seq<Entry>, book: Levels) {
    && (forall i: nat :: i < |entries| ==>
          entries[i].Level? && entries[i].price in book && entries[i].qty == book[entries[i].price])
    && (forall p :: p in book ==> Mentions(entries, p))
  }

  ghost predicate FaithfulSnapshot(s: Snapshot, h: History) {
    && s.lastUpdateId.Some? && s.lastUpdateId.value > 0
    && Complete(s.bids, h(s.lastUpdateId.value).bids) && Complete(s.asks, h(s.lastUpdateId.value).asks)
  }

  /** The local book is the exchange's book at the last update id. */
  ghost predicate Synced(d: Depth, h: History) {
    d.last > 0 && d.bids == h(d.last).bids && d.asks == h(d.last).asks
  }

  lemma MentionsTail(entries: seq<Entry>, p: real)
    requires entries != []
    ensures Mentions(entries, p) <==> Mentions(entries[1..], p) || (entries[0].Level? && entries[0].price == p)
  {
    if Mentions(entries[1..], p) {
      var i: nat :| i < |entries[1..]| && entries[1..][i].Level? && entries[1..][i].price == p;
      assert entries[i + 1] == entries[1..][i];
    }
    if Mentions(entries, p) {
      var i: nat :| i < |entries| && entries[i].Level? && entries[i].price == p;
      assert i > 0 ==> entries[1..][i - 1] == entries[i];
    }
  }

  /** Applied truthful entries: the mentioned prices are as in `after`, the others untouched. */
  lemma {:induction false} ChangedPointwise(levels: Levels, entries: seq<Entry>, after: Levels, p: real)
    requires Truthful(entries, after) && NoZero(after)
    requires AllChanged(levels, entries).1 == Done
    ensures var r := AllChanged(levels, entries).0; var like := if Mentions(entries, p) then after else levels;
      (p in r <==> p in like) && (p in r ==> r[p] == like[p])
    decreases |entries|
  {
    if entries != [] {
      var step := Changed(levels, entries[0]).0;
      MentionsTail(entries, p);
      ChangedPointwise(step, entries[1..], after, p);
    }
  }

  lemma ChangedReaches(levels: Levels, entries: seq<Entry>, after: Levels)
    requires Truthful(entries, after) && NoZero(levels) && NoZero(after) && Covers(entries, levels, after)
    requires AllChanged(levels, entries).1 == Done
    ensures AllChanged(levels, entries).0 == after
  {
    var r := AllChanged(levels, entries).0;
    forall p ensures (p in r <==> p in after) && (p in r ==> r[p] == after[p]) {
      ChangedPointwise(levels, entries, after, p);
      assert QtyAt(levels, p) != QtyAt(after, p) ==> Mentions(entries, p);
    }
  }

  /** A faithful event that is not rejected takes the book from the exchange's state to its state. */
  lemma EventConverges(d: Depth, e: Event, h: History)
    requires WellFormed(h) && Synced(d, h) && Faithful(e, h) && Applied(d, e).1 == Done
    ensures Synced(Applied(d, e).0, h)
  {
    if e.final > d.last {
      assert e.previous <= d.last < e.final;
      assert NoZero(h(d.last).bids) && NoZero(h(e.final).bids);
      ChangedReaches(d.bids, e.bids, h(e.final).bids);
      ChangedReaches(d.asks, e.asks, h(e.final).asks);
    }
  }

  lemma {:induction false} ListedPointwise(levels: Levels, entries: seq<Entry>, book: Levels, p: real)
    requires forall i: nat :: i < |entries| ==>
      entries[i].Level? && entries[i].price in book && entries[i].qty == book[entries[i].price]
    requires AllListed(levels, entries).1 == Done
    ensures var r := AllListed(levels, entries).0; var like := if Mentions(entries, p) then book else levels;
      (p in r <==> p in like) && (p in r ==> r[p] == like[p])
    decreases |entries|
  {
    if entries != [] {
      var step := Listed(levels, entries[0]).0;
      MentionsTail(entries, p);
      ListedPointwise(step, entries[1..], book, p);
    }
  }

  lemma ListedIsBook(entries: seq<Entry>, book: Levels)
    requires Complete(entries, book) && AllListed(map[], entries).1 == Done
    ensures AllListed(map[], entries).0 == book
  {
    var r := AllListed(map[], entries).0;
    forall p ensures (p in r <==> p in book) && (p in r ==> r[p] == book[p]) {
      ListedPointwise(map[], entries, book, p);
    }
  }

  lemma {:induction false} DrainConverges(d: Depth, h: History)
    requires WellFormed(h) && Synced(d, h) && (forall i: nat :: i < |d.pending| ==> Faithful(d.pending[i], h))
    requires Drained(d).1 == Done
    ensures Synced(Drained(d).0, h) && Drained(d).0.pending == [] && Drained(d).0.ready == d.ready
    decreases |d.pending|
  {
    if d.pending != [] {
      EventConverges(d, d.pending[0], h);
      DrainConverges(Applied(d, d.pending[0]).0.(pending := d.pending[1..]), h);
    }
  }

  datatype Input = Stream(e: Event) | Rest(s: Snapshot)

  function Step(d: Depth, x: Input): (Depth, Outcome) {
    match x
    case Stream(e) => OnEvent(d, e)
    case Rest(s) => Installed(d, s)
  }

  /** A run from a fresh book, up to the first failure. */
  function Run(inputs: seq<Input>): (Depth, Outcome) {
    if inputs == [] then (INITIAL, Done)
    else
      var r := Run(inputs[..|inputs| - 1]);
      if r.1 != Done then r else Step(r.0, inputs[|inputs| - 1])
  }

  /** What every non-failing run of faithful inputs keeps. */
  ghost predicate RunInvariant(d: Depth, h: History) {
    && (d.ready ==> Synced(d, h) && d.pending == [])
    && (forall i: nat :: i < |d.pending| ==> Faithful(d.pending[i], h))
  }

  ghost predicate FaithfulInput(x: Input, h: History) {
    match x
    case Stream(e) => Faithful(e, h)
    case Rest(s) => FaithfulSnapshot(s, h)
  }

  /** Exchange convergence: over every non-failing run that buffers, installs, skips stale events and applies
      overlapping or contiguous ones, a ready book equals the exchange's book at its last update id. */
  lemma {:induction false} RunConverges(inputs: seq<Input>, h: History)
    requires WellFormed(h) && forall x :: x in inputs ==> FaithfulInput(x, h)
    requires Run(inputs).1 == Done
    ensures RunInvariant(Run(inputs).0, h)
  {
    if inputs != [] {
      var n := |inputs| - 1;
      RunConverges(inputs[..n], h);
      var d, x := Run(inputs[..n]).0, inputs[n];
      assert x in inputs;
      match x {
        case Stream(e) =>
          if d.ready { EventConverges(d, e, h); }
        case Rest(s) =>
          var u := s.lastUpdateId.value;
          ListedIsBook(s.bids, h(u).bids);
          ListedIsBook(s.asks, h(u).asks);
          DrainConverges(Depth(h(u).bids, h(u).asks, u, d.ready, d.pending), h);
      }
    }
  }

  /** Events applied one after the other to a ready book, up to the first failure. */
  function AppliedAll(d: Depth, es: seq<Event>): (Depth, Outcome)
    decreases |es|
  {
    if es == [] then (d, Done)
    else
      var r := OnEvent(d, es[0]);
      if r.1 != Done then r else AppliedAll(r.0, es[1..])
  }

  lemma {:induction false} PendingGrows(d: Depth, es: seq<Event>)
    requires !d.ready && |d.pending| + |es| <= PENDING_EVENT_CAPACITY
    ensures AppliedAll(d, es) == (d.(pending := d.pending + es), Done)
    decreases |es|
  {
    if es == [] {
      assert d.pending + es == d.pending;
    } else {
      PendingGrows(d.(pending := d.pending + [es[0]]), es[1..]);
      assert d.pending + [es[0]] + es[1..] == d.pending + es;
    }
  }

  /** Draining does what feeding a ready book does. */
  lemma {:induction false} DrainIsFeed(d: Depth, es: seq<Event>)
    ensures var drained := Drained(d.(pending := es)); var fed := AppliedAll(d.(pending := [], ready := true), es);
      && drained.1 == fed.1
      && drained.0.bids == fed.0.bids && drained.0.asks == fed.0.asks && drained.0.last == fed.0.last
      && (fed.1 == Done ==> drained.0.(ready := true) == fed.0)
    decreases |es|
  {
    if es != [] {
      var r := Applied(d, es[0]);
      assert Applied(d.(pending := es), es[0]) == (r.0.(pending := es), r.1);
      assert Applied(d.(pending := [], ready := true), es[0]) == (r.0.(pending := [], ready := true), r.1);
      if r.1 == Done { DrainIsFeed(r.0, es[1..]); }
    }
  }

  /** Buffering events and then installing a snapshot has the outcome and the book of installing it first and
      then applying the events in order. */
  lemma BufferThenInstall(d: Depth, es: seq<Event>, s: Snapshot)
    requires !d.ready && d.pending == [] && |es| <= PENDING_EVENT_CAPACITY && Installed(d, s).1 == Done
    ensures var late := Installed(AppliedAll(d, es).0, s); var early := AppliedAll(Installed(d, s).0, es);
      && AppliedAll(d, es).1 == Done
      && late.1 == early.1
      && late.0.bids == early.0.bids && late.0.asks == early.0.asks && late.0.last == early.0.last
      && (late.1 == Done ==> late.0 == early.0)
  {
    PendingGrows(d, es);
    assert d.pending + es == es;
    var b, a := AllListed(map[], s.bids).0, AllListed(map[], s.asks).0;
    DrainIsFeed(d.(bids := b, asks := a, last := s.lastUpdateId.value), es);
  }

  /** An event with these sequence numbers, accepted by a book that equals the exchange's book at `last`,
      always leads to the exchange's book at `final`. */
  ghost predicate AlwaysConverges(last: nat, first: nat, final: nat, previous: nat) {
    forall h: History, bids: seq<Entry>, asks: seq<Entry> ::
      Converges(h, DepthEvent(first, final, previous, bids, asks), last)
  }

  ghost predicate Converges(h: History, e: Event, last: nat)
    requires e.DepthEvent?
  {
    WellFormed(h) && Faithful(e, h) ==>
      var r := Applied(Depth(h(last).bids, h(last).asks, last, true, []), e);
      r.1 == Done ==> r.0.bids == h(e.final).bids && r.0.asks == h(e.final).asks
  }

  /** Of the events that are accepted, all are safe unless the update id is 0, which turns the gap check off: then
      only an event whose range starts at 0 is. */
  lemma ConvergenceExact(last: nat, first: nat, final: nat, previous: nat)
    requires previous < first <= final && final > last
    requires last == 0 || previous == last || first <= last + 1
    ensures AlwaysConverges(last, first, final, previous) <==> last != 0 || previous == 0
  {
    if last != 0 || previous == 0 {
      forall h: History, bids: seq<Entry>, asks: seq<Entry>
        ensures Converges(h, DepthEvent(first, final, previous, bids, asks), last)
      {
        var e := DepthEvent(first, final, previous, bids, asks);
        var d := Depth(h(last).bids, h(last).asks, last, true, []);
        if WellFormed(h) && Faithful(e, h) && Applied(d, e).1 == Done {
          assert NoZero(h(last).bids) && NoZero(h(final).bids);
          ChangedReaches(d.bids, bids, h(final).bids);
          ChangedReaches(d.asks, asks, h(final).asks);
        }
      }
    } else {
      var h, e := BidGone(), DepthEvent(first, final, previous, [], []);
      assert WellFormed(h) && Faithful(e, h);
      assert Applied(Depth(ONE_BID, map[], 0, true, []), e) == (Depth(ONE_BID, map[], final, true, []), Done);
      assert 1.0 in ONE_BID;
      assert !Converges(h, e, last);
    }
  }

  const ONE_BID: Levels := map[1.0 := 1.0]

  /** One bid at update id 0, and nothing from then on. */
  function BidGone(): History { (u: nat) => if u == 0 then Exchange(ONE_BID, map[]) else Exchange(map[], map[]) }

  /** The exchange's book at update id 0. */
  const AT_START: Snapshot := Snapshot(Some(0), [Level(1.0, 1.0)], [])

  /** A run with that loss: a true snapshot with update id 0 and a faithful event that starts later, both accepted,
      leave a ready book with a bid that is long gone. */
  lemma SkippedGapLosesBook(first: nat, final: nat, previous: nat)
    requires 0 < previous < first <= final
    ensures var h, e := BidGone(), DepthEvent(first, final, previous, [], []);
      && WellFormed(h) && Faithful(e, h)
      && Complete(AT_START.bids, h(0).bids) && Complete(AT_START.asks, h(0).asks)
      && var r := Run([Rest(AT_START), Stream(e)]);
         r.1 == Done && r.0.ready && r.0.last == final && r.0.bids != h(final).bids
  {
    var e := DepthEvent(first, final, previous, [], []);
    assert AT_START.bids[0].Level? && Mentions(AT_START.bids, 1.0);
    assert AllListed(map[], AT_START.bids) == (ONE_BID, Done);
    var d := Depth(ONE_BID, map[], 0, true, []);
    assert [Rest(AT_START)][..0] == [] && Step(INITIAL, Rest(AT_START)) == (d, Done);
    assert Run([Rest(AT_START)]) == (d, Done);
    assert [Rest(AT_START), Stream(e)][..1] == [Rest(AT_START)];
    assert 1.0 in ONE_BID;
  }
}
