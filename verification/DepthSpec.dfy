/** What the Binance depth book does with its inputs, on maps (src/trading/venue/binance/binance_depth_book.cpp). */
module DepthSpec {
  import opened Common

  /** Quantity by price. Prices and quantities are real numbers: finite doubles without -0.0. */
  type Levels = map<real, real>

  /** One price entry of an event; `BadLevel` is one whose numbers cannot be read. */
  datatype Entry = Level(price: real, qty: real) | BadLevel

  /** `Malformed` lacks one of the fields U, u, pu, b, a. */
  datatype Event =
    | Malformed
    | DepthEvent(first: nat, final: nat, previous: nat, bids: seq<Entry>, asks: seq<Entry>)

  /** A missing `bids` or `asks` throws where its first entry would be read, like a `BadLevel` at its front. */
  datatype Snapshot = Snapshot(lastUpdateId: Option<nat>, bids: seq<Entry>, asks: seq<Entry>)

  /** `Threw` is an exception, `Fatal` a termination (no pool block, or no room in the ring). */
  datatype Outcome = Done | Threw | Fatal

  const MAX_PRICE_LEVELS_PER_SIDE: nat := 4096
  const PRICE_SLOT_COUNT: nat := 8192
  const MAX_TOMBSTONES_PER_SIDE: nat := 2048
  const PENDING_EVENT_CAPACITY: nat := 512

  datatype Depth = Depth(bids: Levels, asks: Levels, last: nat, ready: bool, pending: seq<Event>)

  const INITIAL: Depth := Depth(map[], map[], 0, false, [])

  function Upserted(levels: Levels, price: real, qty: real): (Levels, Outcome) {
    if price in levels || |levels| < MAX_PRICE_LEVELS_PER_SIDE then (levels[price := qty], Done) else (levels, Fatal)
  }

  /** One entry of an event; quantity zero removes the price. */
  function Changed(levels: Levels, entry: Entry): (Levels, Outcome) {
    match entry
    case BadLevel => (levels, Threw)
    case Level(price, qty) => if qty == 0.0 then (levels - {price}, Done) else Upserted(levels, price, qty)
  }

  /** One entry of a snapshot; a zero quantity is stored like any other. */
  function Listed(levels: Levels, entry: Entry): (Levels, Outcome) {
    match entry
    case BadLevel => (levels, Threw)
    case Level(price, qty) => Upserted(levels, price, qty)
  }

  /** The entries in order, up to the first failure; earlier entries stay applied. */
  function AllChanged(levels: Levels, entries: seq<Entry>): (Levels, Outcome)
    decreases |entries|
  {
    if entries == [] then (levels, Done)
    else
      var r := Changed(levels, entries[0]);
      if r.1 != Done then r else AllChanged(r.0, entries[1..])
  }

  function AllListed(levels: Levels, entries: seq<Entry>): (Levels, Outcome)
    decreases |entries|
  {
    if entries == [] then (levels, Done)
    else
      var r := Listed(levels, entries[0]);
      if r.1 != Done then r else AllListed(r.0, entries[1..])
  }

  /** The sequence-gap rule. */
  predicate Gap(last: nat, first: nat, final: nat, previous: nat) {
    last != 0 && previous != last && !(first <= last + 1 && final >= last + 1)
  }

  /** `applyDepthEvent`. */
  function Applied(d: Depth, e: Event): (Depth, Outcome) {
    if e.Malformed? then (d, Threw)
    else if e.final <= d.last then (d, Done)
    else if Gap(d.last, e.first, e.final, e.previous) then (d, Threw)
    else
      var b := AllChanged(d.bids, e.bids);
      if b.1 != Done then (d.(bids := b.0), b.1)
      else
        var a := AllChanged(d.asks, e.asks);
        if a.1 != Done then (d.(bids := b.0, asks := a.0), a.1)
        else (d.(bids := b.0, asks := a.0, last := e.final), Done)
  }

  /** `drainPendingEvents`: a failing event stays at the head of the ring. */
  function Drained(d: Depth): (Depth, Outcome)
    decreases |d.pending|
  {
    if d.pending == [] then (d, Done)
    else
      var r := Applied(d, d.pending[0]);
      if r.1 != Done then r else Drained(r.0.(pending := d.pending[1..]))
  }

  /** `onDepthEvent`. */
  function OnEvent(d: Depth, e: Event): (Depth, Outcome) {
    if d.ready then Applied(d, e)
    else if |d.pending| >= PENDING_EVENT_CAPACITY then (d, Fatal)
    else (d.(pending := d.pending + [e]), Done)
  }

  /** `installSnapshot`. */
  function Installed(d: Depth, s: Snapshot): (Depth, Outcome) {
    var b := AllListed(map[], s.bids);
    if b.1 != Done then (d.(bids := b.0, asks := map[]), b.1)
    else
      var a := AllListed(map[], s.asks);
      if a.1 != Done then (d.(bids := b.0, asks := a.0), a.1)
      else if s.lastUpdateId == None then (d.(bids := b.0, asks := a.0), Threw)
      else
        var r := Drained(d.(bids := b.0, asks := a.0, last := s.lastUpdateId.value));
        if r.1 != Done then r else (r.0.(ready := true), Done)
  }
}
