/** The resting orders of the incremental book: a slot array over pooled order nodes
    (src/trading/strategy/market_order_book.h). */
module OrderTables {
  import opened Common
  import opened BookSpec
  import opened MemPools
  import opened SlotArrays

  /** Order `id` is found at a block in use that holds it. */
  ghost predicate Found(nodes: seq<BookOrder>, m: map<int, nat>, live: set<nat>, contents: Orders, id: int) {
    && id in m && m[id] in live && m[id] < |nodes|
    && id in contents && nodes[m[id]] == contents[id] && contents[id].orderId == id
  }

  /** Block b is the node the slot array finds for its order. */
  ghost predicate InUse(nodes: seq<BookOrder>, m: map<int, nat>, b: nat) {
    b < |nodes| && nodes[b].orderId in m && m[nodes[b].orderId] == b
  }

  ghost predicate Stored(nodes: seq<BookOrder>, m: map<int, nat>, live: set<nat>, contents: Orders) {
    && contents.Keys == m.Keys
    && (forall id {:trigger Found(nodes, m, live, contents, id)} :: id in m ==> Found(nodes, m, live, contents, id))
    && (forall b: nat {:trigger InUse(nodes, m, b)} :: b in live ==> InUse(nodes, m, b))
  }

  lemma StoredKeys(nodes: seq<BookOrder>, m: map<int, nat>, live: set<nat>, contents: Orders)
    requires Stored(nodes, m, live, contents)
    ensures contents.Keys == m.Keys && |contents| == |m|
  {
    assert |contents| == |contents.Keys| && |m| == |m.Keys|;
  }

  /** Below the load ceiling the pool has free blocks. */
  lemma PoolNeverFull(nodes: seq<BookOrder>, m: map<int, nat>, live: set<nat>, contents: Orders, n: nat)
    requires Stored(nodes, m, live, contents) && |m| < n
    ensures live != Below(n)
  {
    forall b: nat | b in live ensures b in m.Values {
      assert InUse(nodes, m, b);
    }
    SubsetSize(live, m.Values);
    ValuesNoMoreThanKeys(m);
  }

  /** Writing the order of block x, a new block or the one of the same order. */
  lemma StoredUpdate(nodes: seq<BookOrder>, m: map<int, nat>, live: set<nat>, contents: Orders,
                     nodes': seq<BookOrder>, x: nat)
    requires Stored(nodes, m, live, contents) && |nodes'| == |nodes| && x < |nodes|
    requires if x in live then nodes'[x].orderId == nodes[x].orderId else nodes'[x].orderId !in m
    requires forall b: nat :: b < |nodes| && b != x ==> nodes'[b] == nodes[b]
    ensures Stored(nodes', m[nodes'[x].orderId := x], live + {x}, contents[nodes'[x].orderId := nodes'[x]])
  {
    var o := nodes'[x];
    var m', live', contents' := m[o.orderId := x], live + {x}, contents[o.orderId := o];
    assert x in live ==> InUse(nodes, m, x);
    forall b: nat | b in live' ensures InUse(nodes', m', b) {
      if b != x { assert InUse(nodes, m, b); }
    }
    forall id | id in m' ensures Found(nodes', m', live', contents', id) {
      if id != o.orderId { assert Found(nodes, m, live, contents, id); }
    }
  }

  lemma StoredErase(nodes: seq<BookOrder>, m: map<int, nat>, live: set<nat>, contents: Orders, id: int)
    requires Stored(nodes, m, live, contents) && id in m
    ensures Stored(nodes, m - {id}, live - {m[id]}, contents - {id})
  {
    assert Found(nodes, m, live, contents, id);
    forall b: nat | b in live - {m[id]} ensures InUse(nodes, m - {id}, b) {
      assert InUse(nodes, m, b);
    }
    forall j | j in m - {id} ensures Found(nodes, m - {id}, live - {m[id]}, contents - {id}, j) {
      assert Found(nodes, m, live, contents, j);
    }
  }

  class OrderTable {
    const maxOrders: nat
    const slots: SlotArray
    const pool: MemPool<BookOrder>

    ghost var contents: Orders

    /** The objects of this table. */
    ghost const Repr: set<object>

    ghost predicate Valid()
      reads this, Repr
    {
      && {this, slots, slots.entries, pool, pool.store, pool.isFree} <= Repr
      && slots.Valid() && pool.Valid()
      && Stored(pool.store[..], slots.M, pool.Live(), contents)
      && |slots.M| <= maxOrders < pool.store.Length
      && maxOrders + 1 < slots.entries.Length
    }

    constructor (capacity: nat, maxOrders: nat)
      requires maxOrders + 1 < capacity
      ensures Valid()
      ensures fresh(Repr) && this in Repr
      ensures this.maxOrders == maxOrders && contents == map[]
    {
      hide SlotArray.Valid, MemPool.Valid;
      this.maxOrders := maxOrders;
      var table := new SlotArray(capacity);
      var blocks := new MemPool<BookOrder>(capacity, BookOrder(-1, PRICE_INVALID, QTY_INVALID, BUY));
      slots, pool := table, blocks;
      contents := map[];
      Repr := {this, table, table.entries, blocks, blocks.store, blocks.isFree};
    }

    /** The order slot load ceiling. */
    method IsFull() returns (full: bool)
      requires Valid()
      ensures full == (|contents| >= maxOrders)
    {
      hide SlotArray.Valid, MemPool.Valid;
      assert |contents| == |contents.Keys| == |slots.M|;
      var count := slots.LiveCount();
      full := count >= maxOrders;
    }

    method Find(id: int) returns (order: Option<BookOrder>)
      requires Valid()
      ensures order == if id in contents then Some(contents[id]) else None
    {
      hide SlotArray.Valid, MemPool.Valid;
      var block := slots.Find(id);
      if block == None {
        return None;
      }
      assert Found(pool.store[..], slots.M, pool.Live(), contents, id);
      order := Some(pool.store[block.value]);
    }

    /** Allocates and indexes an order; below the load ceiling the allocation cannot fail. */
    method Insert(order: BookOrder)
      requires Valid() && order.orderId !in contents && |contents| < maxOrders
      modifies Repr
      ensures Valid()
      ensures contents == old(contents)[order.orderId := order]
    {
      hide SlotArray.Valid, MemPool.Valid, Stored;
      ghost var nodes, m, live, orders := pool.store[..], slots.M, pool.Live(), contents;
      StoredKeys(nodes, m, live, orders);
      PoolNeverFull(nodes, m, live, orders, pool.store.Length);
      ghost var block := Place(order);
      contents := contents[order.orderId := order];
      StoredUpdate(nodes, m, live, orders, pool.store[..], block);
    }

    /** The new node in its block and in the slot array. */
    method Place(order: BookOrder) returns (ghost block: nat)
      requires {this, slots, slots.entries, pool, pool.store, pool.isFree} <= Repr
      requires slots.Valid() && pool.Valid() && pool.Live() != Below(pool.store.Length)
      requires order.orderId !in slots.M && |slots.M| + 1 < slots.entries.Length
      modifies slots, slots.entries, pool, pool.store, pool.isFree
      ensures slots.Valid() && pool.Valid()
      ensures block < pool.store.Length && block !in old(pool.Live()) && pool.Live() == old(pool.Live()) + {block}
      ensures pool.store[..] == old(pool.store[..])[block := order]
      ensures slots.M == old(slots.M)[order.orderId := block]
    {
      hide SlotArray.Valid, MemPool.Valid;
      var free := pool.Allocate(order);
      block := free.value;
      slots.Insert(order.orderId, free.value);
    }

    /** Overwrites the fields of a resting order in place. */
    method Set(order: BookOrder)
      requires Valid() && order.orderId in contents
      modifies Repr
      ensures Valid()
      ensures contents == old(contents)[order.orderId := order]
    {
      hide SlotArray.Valid, MemPool.Valid;
      ghost var nodes := pool.store[..];
      assert Found(nodes, slots.M, pool.Live(), contents, order.orderId);
      var block := slots.Find(order.orderId);
      var x := block.value;
      StoredUpdate(nodes, slots.M, pool.Live(), contents, nodes[x := order], x);
      assert slots.M[order.orderId := x] == slots.M && pool.Live() + {x} == pool.Live();
      contents := contents[order.orderId := order];
      pool.store[x] := order;
      assert pool.store[..] == nodes[x := order];
    }

    /** Unindexes an order and releases its block; the block's memory keeps the order. */
    method Erase(id: int) returns (order: Option<BookOrder>)
      requires Valid()
      modifies Repr
      ensures Valid()
      ensures order == if id in old(contents) then Some(old(contents)[id]) else None
      ensures contents == old(contents) - {id}
      ensures order == None ==> contents == old(contents)
    {
      hide SlotArray.Valid, MemPool.Valid;
      ghost var nodes, m, live, orders := pool.store[..], slots.M, pool.Live(), contents;
      var block := slots.Erase(id);
      if block == None {
        assert slots.M == m && contents - {id} == contents;
        return None;
      }
      assert Found(nodes, m, live, orders, id);
      contents := contents - {id};
      order := Some(pool.store[block.value]);
      var freed := pool.Deallocate(block.value);
      assert freed;
      StoredErase(nodes, m, live, orders, id);
    }

    /** Frees every node the slot array holds, then resets the slot array. */
    method Clear()
      requires Valid()
      modifies Repr
      ensures Valid() && contents == map[] && pool.Live() == {}
    {
      hide SlotArray.Valid, MemPool.Valid;
      FreeAll();
      slots.Clear();
      contents := map[];
    }

    /** `forEachNode(deallocate)`: no block is freed twice, and none is left in use. */
    method FreeAll()
      requires Valid()
      modifies pool, pool.isFree
      ensures pool.Valid() && pool.Live() == {}
    {
      hide MemPool.Valid;
      ghost var t, live := slots.entries[..], pool.Live();
      ghost var at := SlotOfBlock(t, slots.M, slots.pos, pool.store[..], live, contents);
      for i := 0 to slots.entries.Length
        invariant pool.Valid() && pool.Live() <= live
        invariant forall b: nat :: b in live ==> (b in pool.Live() <==> i <= at[b])
      {
        if slots.entries[i].Live? {
          assert t[i].Live?;
          var freed := pool.Deallocate(slots.entries[i].node);
          assert freed;
        }
      }
      assert pool.Live() == {};
    }
  }

  /** The slots and the blocks in use correspond one to one. */
  lemma SlotOfBlock(t: seq<Entry>, m: map<int, nat>, pos: map<int, nat>,
                    nodes: seq<BookOrder>, live: set<nat>, contents: Orders)
    returns (at: map<nat, nat>)
    requires Holds(t, m, pos) && Stored(nodes, m, live, contents)
    ensures at.Keys == live
    ensures forall b: nat :: b in live ==> at[b] < |t| && t[at[b]].Live? && t[at[b]].node == b
    ensures forall i: nat :: i < |t| && t[i].Live? ==> t[i].node in live && at[t[i].node] == i
  {
    forall b: nat | b in live ensures InUse(nodes, m, b) && Placed(t, m, pos, nodes[b].orderId) {
      assert InUse(nodes, m, b);
    }
    at := map b: nat | b in live && b < |nodes| && nodes[b].orderId in pos :: pos[nodes[b].orderId];
    forall b: nat | b in live ensures b in at && at[b] < |t| && t[at[b]].Live? && t[at[b]].node == b {
      assert InUse(nodes, m, b) && Placed(t, m, pos, nodes[b].orderId);
    }
    forall i: nat | i < |t| && t[i].Live? ensures t[i].node in live && at[t[i].node] == i {
      assert Placed(t, m, pos, t[i].key) && Found(nodes, m, live, contents, t[i].key);
    }
  }
}
