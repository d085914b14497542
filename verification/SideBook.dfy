/** One side of the incremental book: a slot array over pooled price levels that are linked into a
    sorted circular list (src/trading/strategy/market_order_book.h). */
module SideBooks {
  import opened Common
  import opened BookSpec
  import opened MemPools
  import opened SlotArrays
  import opened LevelLists

  /** Price p is found at a block in use that carries it, with its aggregate quantity. */
  ghost predicate Found(nodes: seq<PriceLevel>, m: map<int, nat>, live: set<nat>, contents: Levels, p: int) {
    && p in m && m[p] in live && m[p] < |nodes|
    && nodes[m[p]].price == p
    && p in contents && nodes[m[p]].qty == contents[p]
  }

  /** Block b is the node the slot array finds for its price. */
  ghost predicate InUse(nodes: seq<PriceLevel>, m: map<int, nat>, b: nat) {
    b < |nodes| && nodes[b].price in m && m[nodes[b].price] == b
  }

  /** The pool blocks in use are exactly the nodes the slot array finds, and hold the contents. */
  ghost predicate Stored(nodes: seq<PriceLevel>, m: map<int, nat>, live: set<nat>, contents: Levels) {
    && contents.Keys == m.Keys
    && (forall p {:trigger Found(nodes, m, live, contents, p)} :: p in m ==> Found(nodes, m, live, contents, p))
    && (forall b: nat {:trigger InUse(nodes, m, b)} :: b in live ==> InUse(nodes, m, b))
  }

  /** A side below its load ceiling has free pool blocks, so pool exhaustion is unreachable. */
  lemma PoolNeverFull(nodes: seq<PriceLevel>, m: map<int, nat>, live: set<nat>, contents: Levels, n: nat)
    requires Stored(nodes, m, live, contents) && |m| < n
    ensures live != Below(n)
  {
    forall b: nat | b in live ensures b in m.Values {
      assert InUse(nodes, m, b);
    }
    SubsetSize(live, m.Values);
    ValuesNoMoreThanKeys(m);
  }

  /** Creating an empty level first makes no difference to what is added. */
  lemma AddedViaEmpty(before: Levels, levels: Levels, price: int, qty: Qty)
    requires levels == if price in before then before else before[price := 0]
    ensures levels[price := AddU32(levels[price], qty)] == Added(before, price, qty)
  {
  }

  lemma StoredUpdate(nodes: seq<PriceLevel>, m: map<int, nat>, live: set<nat>, contents: Levels,
                     nodes': seq<PriceLevel>, x: nat, price: int)
    requires Stored(nodes, m, live, contents) && |nodes'| == |nodes| && x < |nodes|
    requires nodes'[x].price == price
    requires x in live ==> nodes[x].price == price
    requires x !in live ==> price !in m
    requires forall b: nat :: b < |nodes| && b != x ==>
      nodes'[b].price == nodes[b].price && nodes'[b].qty == nodes[b].qty
    ensures Stored(nodes', m[price := x], live + {x}, contents[price := nodes'[x].qty])
  {
    var m', live', contents' := m[price := x], live + {x}, contents[price := nodes'[x].qty];
    forall b: nat | b in live' ensures InUse(nodes', m', b) {
      assert x in live ==> InUse(nodes, m, x);
      if b != x { assert InUse(nodes, m, b); }
    }
    forall p | p in m' ensures Found(nodes', m', live', contents', p) {
      if p != price { assert Found(nodes, m, live, contents, p); }
    }
  }

  lemma StoredErase(nodes: seq<PriceLevel>, m: map<int, nat>, live: set<nat>, contents: Levels,
                    nodes': seq<PriceLevel>, x: nat)
    requires Stored(nodes, m, live, contents) && |nodes'| == |nodes| && x in live && x < |nodes|
    requires forall b: nat :: b < |nodes| ==> nodes'[b].price == nodes[b].price && nodes'[b].qty == nodes[b].qty
    ensures Stored(nodes', m - {nodes[x].price}, live - {x}, contents - {nodes[x].price})
  {
    assert InUse(nodes, m, x);
    var m', live', contents' := m - {nodes[x].price}, live - {x}, contents - {nodes[x].price};
    forall b: nat | b in live' ensures InUse(nodes', m', b) {
      assert InUse(nodes, m, b);
    }
    forall p | p in m' ensures Found(nodes', m', live', contents', p) {
      assert Found(nodes, m, live, contents, p);
    }
  }

  /** The objects are embedded in the book, so the references never change. */
  class SideBook {
    const side: Side
    const maxLevels: nat
    const slots: SlotArray
    const pool: MemPool<PriceLevel>
    const levels: LevelList

    /** The aggregate quantity by price. */
    ghost var contents: Levels

    /** The objects of this side. */
    ghost const Repr: set<object>

    ghost predicate Valid()
      reads this, Repr
    {
      && {this, slots, slots.entries, pool, pool.store, pool.isFree, levels} <= Repr
      && levels.nodes == pool.store
      && slots.Valid() && pool.Valid() && levels.Valid()
      && levels.side == side && levels.at == slots.M
      && Stored(pool.store[..], slots.M, pool.Live(), contents)
      && |slots.M| <= maxLevels < pool.store.Length
      && maxLevels + 1 < slots.entries.Length
    }

    /** `capacity` slots and blocks, of which at most `maxLevels` may be used. */
    constructor (side: Side, capacity: nat, maxLevels: nat)
      requires maxLevels + 1 < capacity
      ensures Valid()
      ensures fresh(Repr) && this in Repr
      ensures this.side == side && this.maxLevels == maxLevels && contents == map[]
    {
      hide SlotArray.Valid, MemPool.Valid, LevelList.Valid;
      this.side := side;
      this.maxLevels := maxLevels;
      var table := new SlotArray(capacity);
      var blocks := new MemPool<PriceLevel>(capacity, PriceLevel(PRICE_INVALID, 0, NULL, NULL));
      var list := new LevelList(side, blocks.store);
      slots, pool, levels := table, blocks, list;
      contents := map[];
      Repr := {this, table, table.entries, blocks, blocks.store, blocks.isFree, list};
    }

    /** `requireLevelCapacity`: true when the level exists or there is room for one more. */
    method HasCapacityFor(price: int) returns (ok: bool)
      requires Valid()
      ensures ok == (price in contents || |contents| < maxLevels)
    {
      hide SlotArray.Valid, MemPool.Valid, LevelList.Valid;
      assert |contents| == |contents.Keys| == |slots.M|;
      var found := slots.Find(price);
      var count := slots.LiveCount();
      ok := found.Some? || count < maxLevels;
    }

    /** `addToLevel`; `false` is the capacity exception of `createLevel`, which changes nothing. */
    method AddToLevel(price: int, qty: Qty) returns (ok: bool)
      requires Valid()
      modifies Repr
      ensures Valid()
      ensures ok == (price in old(contents) || |old(contents)| < maxLevels)
      ensures contents == if ok then Added(old(contents), price, qty) else old(contents)
    {
      hide SlotArray.Valid, MemPool.Valid, LevelList.Valid;
      var level := FindOrCreate(price);
      if level == None {
        return false;
      }
      ghost var levels := contents;
      SetQty(level.value, price, AddU32(pool.store[level.value].qty, qty));
      AddedViaEmpty(old(contents), levels, price, qty);
      ok := true;
    }

    /** The level of a price, created empty when it is missing; `None` at the load ceiling. */
    method FindOrCreate(price: int) returns (level: Option<nat>)
      requires Valid()
      modifies Repr
      ensures Valid()
      ensures level.Some? == (price in old(contents) || |old(contents)| < maxLevels)
      ensures level == None ==> contents == old(contents)
      ensures level.Some? ==> contents == if price in old(contents) then old(contents) else old(contents)[price := 0]
      ensures level.Some? ==>
        level.value < pool.store.Length && Found(pool.store[..], slots.M, pool.Live(), contents, price)
      ensures level.Some? ==> slots.M[price] == level.value && pool.store[level.value].qty == contents[price]
    {
      hide SlotArray.Valid, MemPool.Valid, LevelList.Valid;
      level := slots.Find(price);
      if level == None {
        level := CreateLevel(price);
      }
      assert level.Some? ==> Found(pool.store[..], slots.M, pool.Live(), contents, price);
    }

    /** `removeFromLevel`. */
    method RemoveFromLevel(price: int, qty: Qty)
      requires Valid()
      modifies Repr
      ensures Valid()
      ensures contents == Removed(old(contents), price, qty)
    {
      hide SlotArray.Valid, MemPool.Valid, LevelList.Valid;
      var level := slots.Find(price);
      if level == None {
        return;
      }
      assert Found(pool.store[..], slots.M, pool.Live(), contents, price);
      var node := pool.store[level.value];
      if node.qty <= qty {
        DropLevel(level.value);
        return;
      }
      SetQty(level.value, price, node.qty - qty);
    }

    /** `level->qty_ = qty` on the node of a price. */
    method SetQty(block: nat, ghost price: int, qty: Qty)
      requires Valid() && price in slots.M && slots.M[price] == block && block < pool.store.Length
      modifies this, pool.store
      ensures Valid()
      ensures contents == old(contents)[price := qty]
    {
      hide SlotArray.Valid, MemPool.Valid;
      ghost var nodes := pool.store[..];
      assert Found(nodes, slots.M, pool.Live(), contents, price);
      StoredUpdate(nodes, slots.M, pool.Live(), contents, nodes[block := nodes[block].(qty := qty)], block, price);
      assert slots.M[price := block] == slots.M && pool.Live() + {block} == pool.Live();
      contents := contents[price := qty];
      pool.store[block] := pool.store[block].(qty := qty);
      assert pool.store[..] == nodes[block := nodes[block].(qty := qty)];
      SortedFrame(side, nodes, levels.list, levels.head, levels.at, levels.rank, pool.store[..]);
    }

    /** `createLevel`: a new empty level, or `None` at the load ceiling. */
    method CreateLevel(price: int) returns (level: Option<nat>)
      requires Valid() && price !in slots.M
      modifies Repr
      ensures Valid()
      ensures level == None <==> |old(contents)| >= maxLevels
      ensures level == None ==> contents == old(contents)
      ensures level.Some? ==> contents == old(contents)[price := 0]
      ensures level.Some? ==> price in slots.M && slots.M[price] == level.value
    {
      hide SlotArray.Valid, MemPool.Valid, LevelList.Valid;
      assert |contents| == |contents.Keys| == |slots.M|;
      var count := slots.LiveCount();
      if count >= maxLevels {
        return None;
      }
      ghost var nodes, m, live, levels0 := pool.store[..], slots.M, pool.Live(), contents;
      contents := contents[price := 0];
      var x := NewNode(price, levels0);
      slots.Insert(price, x);
      levels.InsertSorted(x);
      StoredUpdate(nodes, m, live, levels0, pool.store[..], x, price);
      level := Some(x);
    }

    /** The pool allocation of a level; it cannot fail below the load ceiling. */
    method NewNode(price: int, ghost levels0: Levels) returns (x: nat)
      requires levels.nodes == pool.store && pool.Valid() && levels.Valid() && levels.at == slots.M
      requires Stored(pool.store[..], slots.M, pool.Live(), levels0) && |slots.M| < pool.store.Length
      modifies pool, pool.store, pool.isFree
      ensures pool.Valid() && levels.Valid()
      ensures x < pool.store.Length && x !in old(pool.Live()) && pool.Live() == old(pool.Live()) + {x}
      ensures pool.store[x] == PriceLevel(price, 0, NULL, NULL)
      ensures forall b: nat :: b < pool.store.Length && b != x ==> pool.store[b] == old(pool.store[b])
    {
      hide SlotArray.Valid, MemPool.Valid;
      ghost var nodes := pool.store[..];
      PoolNeverFull(nodes, slots.M, pool.Live(), levels0, pool.store.Length);
      var block := pool.Allocate(PriceLevel(price, 0, NULL, NULL));
      x := block.value;
      forall b: nat | b < |nodes| && nodes[b].price in levels.at && levels.at[nodes[b].price] == b
        ensures b != x
      {
        assert Found(nodes, slots.M, old(pool.Live()), levels0, nodes[b].price);
      }
      SortedFrame(levels.side, nodes, levels.list, levels.head, levels.at, levels.rank, pool.store[..]);
    }

    /** Unlinking, slot erasure and block release of one level. */
    method DropLevel(x: nat)
      requires Valid() && x in pool.Live()
      modifies Repr
      ensures Valid()
      ensures contents == old(contents) - {old(pool.store[x].price)}
    {
      hide SlotArray.Valid, MemPool.Valid, LevelList.Valid;
      ghost var nodes, m, live, levels0 := pool.store[..], slots.M, pool.Live(), contents;
      assert InUse(nodes, m, x);
      var price := pool.store[x].price;
      contents := contents - {price};
      levels.Remove(x);
      var erased := slots.Erase(price);
      var freed := pool.Deallocate(x);
      StoredErase(nodes, m, live, levels0, pool.store[..], x);
    }

    /** `clearSideLevels`: the walk around the circle ends, and frees every block in use exactly once. */
    method Clear()
      requires Valid()
      modifies Repr
      ensures Valid() && contents == map[] && pool.Live() == {}
    {
      hide SlotArray.Valid, MemPool.Valid, LevelList.Valid;
      FreeCircle();
      levels.Reset();
      slots.Clear();
      contents := map[];
    }

    method FreeCircle()
      requires Valid()
      modifies pool, pool.isFree
      ensures pool.Valid() && pool.Live() == {}
    {
      hide SlotArray.Valid, MemPool.Valid;
      ghost var nodes, list, live := pool.store[..], levels.list, pool.Live();
      NodesAreListed();
      if levels.head == NULL {
        return;
      }
      var head: nat := levels.head;
      assert LinksAt(nodes, list, 0);
      var level := pool.store[head].next;
      ghost var k := 1;
      while level != head
        invariant 1 <= k <= |list| && pool.Valid() && pool.Live() <= live
        invariant level == if k == |list| then head else list[k]
        invariant forall i: nat :: 1 <= i < k ==> list[i] !in pool.Live()
        invariant forall i: nat :: k <= i < |list| ==> list[i] in pool.Live()
        invariant head in pool.Live()
        decreases |list| - k
      {
        assert LinksAt(nodes, list, k);
        var next := pool.store[level].next;
        var freed := pool.Deallocate(level);
        assert freed;
        level := next;
        k := k + 1;
      }
      var freed := pool.Deallocate(head);
      assert freed;
    }

    /** Every block in use has a position in the list, and the other way around. */
    lemma NodesAreListed()
      requires Valid()
      ensures forall i: nat :: i < |levels.list| ==> levels.list[i] in pool.Live()
      ensures forall b: nat :: b in pool.Live() ==> exists i: nat :: i < |levels.list| && levels.list[i] == b
    {
      ghost var nodes, list := pool.store[..], levels.list;
      forall i: nat | i < |list| ensures list[i] in pool.Live() {
        assert Found(nodes, slots.M, pool.Live(), contents, nodes[list[i]].price);
      }
      forall b: nat | b in pool.Live() ensures exists i: nat :: i < |list| && list[i] == b {
        assert InUse(nodes, slots.M, b);
        assert Ranked(nodes, list, levels.at, levels.rank, nodes[b].price);
      }
    }

    /** The head of the list is the best level: what `updateBBOFromIncrementalBook` reads. */
    method Best() returns (best: Option<(int, Qty)>)
      requires Valid()
      ensures best == None <==> contents == map[]
      ensures best.Some? ==> IsBest(side, contents, best.value.0) && contents[best.value.0] == best.value.1
    {
      hide SlotArray.Valid, MemPool.Valid;
      ghost var nodes, list, m := pool.store[..], levels.list, slots.M;
      forall p | p in contents
        ensures list != [] && nodes[list[0]].price in contents
        ensures p == nodes[list[0]].price || Better(side, nodes[list[0]].price, p)
      {
        assert Ranked(nodes, list, levels.at, levels.rank, p);
      }
      if levels.head == NULL {
        assert forall p :: p !in contents;
        return None;
      }
      var node := pool.store[levels.head];
      assert Found(nodes, m, pool.Live(), contents, node.price);
      best := Some((node.price, node.qty));
    }
  }
}
