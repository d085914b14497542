/** The fixed-capacity object pool of src/common/mem_pool.h; a block is named by its index. */
module MemPools {
  import opened Common
  import opened Cyclic

  class MemPool<T(0)> {
    const store: array<T>
    const isFree: array<bool>
    var nextFree: nat
    var exhausted: bool

    /** The blocks in use. */
    ghost function Live(): set<nat>
      reads isFree
    {
      set i: nat | i < isFree.Length && !isFree[i]
    }

    ghost predicate Valid()
      reads this, isFree
    {
      && store as object != isFree
      && store.Length == isFree.Length
      && nextFree < isFree.Length
      && (exhausted <==> Live() == Below(isFree.Length))
      && (!exhausted ==> isFree[nextFree])
    }

    /** A zero capacity throws in the source, so no such pool exists. */
    constructor (capacity: nat, initial: T)
      requires capacity > 0
      ensures Valid() && fresh(store) && fresh(isFree)
      ensures store.Length == capacity && Live() == {}
    {
      store := new T[capacity](_ => initial);
      isFree := new bool[capacity](_ => true);
      nextFree, exhausted := 0, false;
      new;
      assert 0 in Below(isFree.Length) && 0 !in Live();
    }

    /** Placement of `value` in a free block. `None` is the "out of space" termination: it happens
        exactly when every block is in use, so all blocks are usable. */
    method Allocate(value: T) returns (block: Option<nat>)
      requires Valid()
      modifies this, store, isFree
      ensures Valid()
      ensures block == None <==> old(Live()) == Below(store.Length)
      ensures block == None ==> Live() == old(Live()) && store[..] == old(store[..])
      ensures block.Some? ==>
        && block.value < store.Length
        && block.value !in old(Live())
        && Live() == old(Live()) + {block.value}
        && store[block.value] == value
        && forall i :: 0 <= i < store.Length && i != block.value ==> store[i] == old(store[i])
    {
      if exhausted {
        return None;
      }
      var i := nextFree;
      assert i !in Live() && i in Below(isFree.Length);
      store[i] := value;
      isFree[i] := false;
      assert Live() == old(Live()) + {i};
      UpdateNextFreeIndex();
      block := Some(i);
    }

    /** The cyclic scan for the next free block: sets the flag only after a whole cycle of used blocks. */
    method UpdateNextFreeIndex()
      requires store as object != isFree && store.Length == isFree.Length
      requires nextFree < isFree.Length && !exhausted
      modifies this
      ensures Valid()
    {
      var start := nextFree;
      ghost var scanned := 0;
      while true
        invariant !exhausted && nextFree < isFree.Length
        invariant 0 <= scanned < isFree.Length && Dist(start, nextFree, isFree.Length) == scanned
        invariant forall j: nat :: j < isFree.Length && Dist(start, j, isFree.Length) < scanned ==> !isFree[j]
        decreases isFree.Length - scanned
      {
        if isFree[nextFree] {
          assert nextFree in Below(isFree.Length) && nextFree !in Live();
          return;
        }
        nextFree := nextFree + 1;
        if nextFree == isFree.Length {
          nextFree := 0;
        }
        if nextFree == start {
          break;
        }
        scanned := scanned + 1;
      }
      assert forall j: nat :: j < isFree.Length ==> Dist(start, j, isFree.Length) <= scanned && !isFree[j];
      assert Live() == Below(isFree.Length);
      exhausted := true;
    }

    /** Marks the block free again. `false` is the assertion failure on a block that is not in use. */
    method Deallocate(block: nat) returns (ok: bool)
      requires Valid()
      modifies this, isFree
      ensures Valid()
      ensures ok == (block in old(Live()))
      ensures Live() == old(Live()) - {block}
    {
      if block >= isFree.Length || isFree[block] {
        return false;
      }
      isFree[block] := true;
      assert Live() == old(Live()) - {block};
      assert block in Below(isFree.Length) && block !in Live();
      if exhausted {
        exhausted := false;
        nextFree := block;
      } else {
        assert !(old(Live()) == Below(isFree.Length));
      }
      ok := true;
    }
  }
}
