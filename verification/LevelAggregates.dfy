/** The per-side level arrays of the Simex adapter, updated in place
    (src/trading/venue/simex/simex_venue_adapter.cpp). */
module LevelAggregates {
  import opened Common
  import opened BookSpec
  import opened TopFive

  class LevelAggregate {
    const side: Side
    const levels: array<Level>
    var count: nat

    ghost predicate Valid()
      reads this, levels
    {
      levels.Length == DEPTH_SNAPSHOT_LEVELS && count <= levels.Length && BestFirst(side, levels[..count])
    }

    ghost function View(): seq<Level>
      requires Valid()
      reads this, levels
    {
      levels[..count]
    }

    constructor (side: Side)
      ensures Valid() && fresh(levels) && View() == [] && this.side == side
    {
      this.side := side;
      levels := new Level[DEPTH_SNAPSHOT_LEVELS](_ => Level(0, 0));
      count := 0;
    }

    method Clear()
      requires Valid()
      modifies this`count
      ensures Valid() && View() == []
    {
      count := 0;
    }

    /** `std::lower_bound` by halving. */
    method LowerBound(price: int) returns (k: nat)
      requires Valid()
      ensures k == LowerBoundOf(side, View(), price) && IsLowerBound(side, View(), price, k)
    {
      var lo, hi := 0, count;
      while lo < hi
        invariant lo <= hi <= count
        invariant forall i :: 0 <= i < lo ==> Better(side, levels[i].price, price)
        invariant forall i :: hi <= i < count ==> !Better(side, levels[i].price, price)
      {
        var mid := (lo + hi) / 2;
        if Better(side, levels[mid].price, price) {
          assert forall i :: 0 <= i < mid ==> Better(side, View()[i].price, View()[mid].price);
          lo := mid + 1;
        } else {
          assert forall i :: mid < i < count ==> Better(side, View()[mid].price, View()[i].price);
          hi := mid;
        }
      }
      LowerBoundExists(side, View(), price);
      LowerBoundUnique(side, View(), price, lo, LowerBoundOf(side, View(), price));
      return lo;
    }

    /** Moving the levels from `index` on one place down; the last one falls off a full array. */
    method Shift(index: nat, last: nat)
      requires index <= last < levels.Length
      modifies levels
      ensures levels[..index] == old(levels[..index])
      ensures levels[index + 1..last + 1] == old(levels[index..last])
    {
      var shift := last;
      while shift > index
        invariant index <= shift <= last
        invariant forall i :: 0 <= i <= shift ==> levels[i] == old(levels[i])
        invariant forall i :: shift < i <= last ==> levels[i] == old(levels[i - 1])
      {
        levels[shift] := levels[shift - 1];
        shift := shift - 1;
      }
    }

    /** A new level at `index`, with the levels from there to `last` moved down. */
    method InsertAt(index: nat, last: nat, level: Level)
      requires index <= last < levels.Length
      modifies levels
      ensures levels[..last + 1] == old(levels[..index]) + [level] + old(levels[index..last])
    {
      Shift(index, last);
      levels[index] := level;
      assert levels[..last + 1] == levels[..index] + [level] + levels[index + 1..last + 1];
    }

    /** More quantity at a price that is there. */
    method Merge(index: nat, p: Part)
      requires index < count <= levels.Length && levels[index].price == p.price
      modifies levels
      ensures levels[..count] == Placed(old(levels[..count]), index, p, levels.Length)
    {
      ghost var was := levels[..count];
      levels[index] := Level(p.price, levels[index].qty + p.qty);
      assert levels[..count] == was[index := Level(p.price, was[index].qty + p.qty)];
    }

    /** A new price while there is room. */
    method Grow(index: nat, p: Part)
      requires index <= count < levels.Length && (index < count ==> levels[index].price != p.price)
      modifies this`count, levels
      ensures count == old(count) + 1
      ensures levels[..count] == Placed(old(levels[..count]), index, p, levels.Length)
    {
      ghost var was := levels[..count];
      assert levels[..index] == was[..index] && levels[index..count] == was[index..];
      InsertAt(index, count, Level(p.price, p.qty));
      count := count + 1;
    }

    /** A new price in a full array: the last level goes. */
    method Evict(index: nat, p: Part)
      requires index < count == levels.Length && levels[index].price != p.price
      modifies levels
      ensures levels[..count] == Placed(old(levels[..count]), index, p, levels.Length)
    {
      ghost var was := levels[..count];
      var last := count - 1;
      assert levels[..index] == was[..index] && levels[index..last] == was[index..last];
      InsertAt(index, last, Level(p.price, p.qty));
      assert levels[..last + 1] == levels[..count];
    }

    /** `aggregate`. */
    method Aggregate(p: Part)
      requires Valid()
      modifies this`count, levels
      ensures Valid()
      ensures View() == Placed(old(View()), LowerBoundOf(side, old(View()), p.price), p, DEPTH_SNAPSHOT_LEVELS)
    {
      var index := LowerBound(p.price);
      PlacedIsBestFirst(side, View(), index, p, DEPTH_SNAPSHOT_LEVELS);
      hide BestFirst, IsLowerBound, LowerBoundOf;
      if index < count && levels[index].price == p.price {
        Merge(index, p);
      } else if count < levels.Length {
        Grow(index, p);
      } else if index < levels.Length {
        Evict(index, p);
      }
    }
  }
}
