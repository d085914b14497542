/** One side of the Binance depth book: a tombstone hash table over pooled nodes in a sorted list
    (src/trading/venue/binance/binance_depth_book.cpp). */
module DepthSides {
  import opened Common
  import opened DepthSpec
  import opened MemPools
  import opened ListEdits
  import opened DepthLists
  import opened DepthTables

  /** Price p is found at a block in use that carries it, its quantity and its slot. */
  ghost predicate Found(nodes: seq<DepthNode>, at: map<real, nat>, slotOf: map<real, nat>, live: set<nat>,
                        contents: Levels, p: real)
  {
    && p in at && at[p] in live && at[p] < |nodes|
    && nodes[at[p]].price == p
    && p in contents && nodes[at[p]].qty == contents[p]
    && p in slotOf && nodes[at[p]].slot == slotOf[p]
  }

  ghost predicate InUse(nodes: seq<DepthNode>, at: map<real, nat>, b: nat) {
    b < |nodes| && nodes[b].price in at && at[nodes[b].price] == b
  }

  /** The pool blocks in use are exactly the nodes of the price map. */
  ghost predicate Stored(nodes: seq<DepthNode>, at: map<real, nat>, slotOf: map<real, nat>, live: set<nat>,
                         contents: Levels) {
    && contents.Keys == at.Keys
    && (forall p {:trigger Found(nodes, at, slotOf, live, contents, p)} :: p in at ==>
        Found(nodes, at, slotOf, live, contents, p))
    && (forall b: nat {:trigger InUse(nodes, at, b)} :: b in live ==> InUse(nodes, at, b))
  }

  /** As many blocks in use as prices. */
  lemma LiveSize(nodes: seq<DepthNode>, at: map<real, nat>, slotOf: map<real, nat>, live: set<nat>, contents: Levels)
    requires Stored(nodes, at, slotOf, live, contents)
    ensures |live| == |contents| == |at| <= |nodes|
    ensures live == Below(|nodes|) <==> |contents| == |nodes|
  {
    forall p, q | p in at && q in at && at[p] == at[q] ensures p == q {
      assert Found(nodes, at, slotOf, live, contents, p) && Found(nodes, at, slotOf, live, contents, q);
    }
    InjectiveSize(at);
    assert live == at.Values by {
      forall b: nat | b in live ensures b in at.Values {
        assert InUse(nodes, at, b);
      }
      assert forall p :: p in at ==> Found(nodes, at, slotOf, live, contents, p);
      ValuesWithin(at, live);
    }
    assert |contents| == |contents.Keys| && |at| == |at.Keys|;
    forall b: nat | b in live ensures b in Below(|nodes|) {
      assert InUse(nodes, at, b);
    }
    SubsetSize(live, Below(|nodes|));
    if |live| == |nodes| { SubsetFull(live, Below(|nodes|)); }
  }

  /** Writing the node of block x, a new block or the one of the same price. */
  lemma StoredUpdate(nodes: seq<DepthNode>, at: map<real, nat>, slotOf: map<real, nat>, live: set<nat>,
                     contents: Levels,
                     nodes': seq<DepthNode>, x: nat)
    requires Stored(nodes, at, slotOf, live, contents) && |nodes'| == |nodes| && x < |nodes|
    requires if x in live then nodes'[x].price == nodes[x].price else nodes'[x].price !in at
    requires forall b: nat :: b < |nodes| && b != x ==>
      nodes'[b].price == nodes[b].price && nodes'[b].qty == nodes[b].qty && nodes'[b].slot == nodes[b].slot
    ensures var n := nodes'[x];
      Stored(nodes', at[n.price := x], slotOf[n.price := n.slot], live + {x}, contents[n.price := n.qty])
  {
    var n := nodes'[x];
    var at', slotOf' := at[n.price := x], slotOf[n.price := n.slot];
    var live', contents' := live + {x}, contents[n.price := n.qty];
    assert x in live ==> InUse(nodes, at, x);
    forall b: nat | b in live' ensures InUse(nodes', at', b) {
      if b != x { assert InUse(nodes, at, b); }
    }
    forall p | p in at' ensures Found(nodes', at', slotOf', live', contents', p) {
      if p != n.price { assert Found(nodes, at, slotOf, live, contents, p); }
    }
  }

  lemma StoredErase(nodes: seq<DepthNode>, at: map<real, nat>, slotOf: map<real, nat>, live: set<nat>, contents: Levels,
                    nodes': seq<DepthNode>, x: nat)
    requires Stored(nodes, at, slotOf, live, contents) && x in live && x < |nodes| && SameData(nodes, nodes')
    ensures var p := nodes[x].price;
      Stored(nodes', at - {p}, slotOf - {p}, live - {x}, contents - {p})
  {
    assert InUse(nodes, at, x);
    var p := nodes[x].price;
    var at', slotOf', live', contents' := at - {p}, slotOf - {p}, live - {x}, contents - {p};
    forall b: nat | b in live' ensures InUse(nodes', at', b) {
      assert InUse(nodes, at, b);
    }
    forall q | q in at' ensures Found(nodes', at', slotOf', live', contents', q) {
      assert Found(nodes, at, slotOf, live, contents, q);
    }
  }

  /** Links play no part in what is stored. */
  lemma StoredFrame(nodes: seq<DepthNode>, at: map<real, nat>, slotOf: map<real, nat>, live: set<nat>, contents: Levels,
                    nodes': seq<DepthNode>)
    requires Stored(nodes, at, slotOf, live, contents) && SameData(nodes, nodes')
    ensures Stored(nodes', at, slotOf, live, contents)
  {
    forall b: nat | b in live ensures InUse(nodes', at, b) {
      assert InUse(nodes, at, b);
    }
    forall p | p in at ensures Found(nodes', at, slotOf, live, contents, p) {
      assert Found(nodes, at, slotOf, live, contents, p);
    }
  }

  /** `out` lists the best levels of a side, best first, at most `limit` of them, and leaves out only
      worse ones when it is full. */
  ghost predicate IsTop(isBid: bool, contents: Levels, limit: nat, out: seq<(real, real)>) {
    && |out| <= limit
    && (forall i: nat :: i < |out| ==> out[i].0 in contents && out[i].1 == contents[out[i].0])
    && (forall i: nat, j: nat :: i < j < |out| ==> Better(isBid, out[i].0, out[j].0))
    && (forall p :: p in contents ==> (exists i: nat :: i < |out| && out[i].0 == p)
                                      || (|out| == limit && forall i: nat :: i < |out| ==> Better(isBid, out[i].0, p)))
  }

  /** The prices and quantities of the first k nodes of a sorted list are the top of the side. */
  lemma PrefixIsTop(isBid: bool, nodes: seq<DepthNode>, chain: seq<nat>, head: int, tail: int,
                    at: map<real, nat>, rank: map<real, nat>, slotOf: map<real, nat>, live: set<nat>, contents: Levels,
                    limit: nat, out: seq<(real, real)>)
    requires Sorted(isBid, nodes, chain, head, tail, at, rank) && Stored(nodes, at, slotOf, live, contents)
    requires |out| == Min(limit, |chain|)
    requires forall i: nat :: i < |out| ==> chain[i] < |nodes| && out[i] == (nodes[chain[i]].price, nodes[chain[i]].qty)
    ensures IsTop(isBid, contents, limit, out)
  {
    forall i: nat | i < |out| ensures out[i].0 in contents && out[i].1 == contents[out[i].0] {
      assert Found(nodes, at, slotOf, live, contents, nodes[chain[i]].price);
    }
    forall p | p in contents
      ensures (exists i: nat :: i < |out| && out[i].0 == p)
           || (|out| == limit && forall i: nat :: i < |out| ==> Better(isBid, out[i].0, p))
    {
      assert Ranked(nodes, chain, at, rank, p);
      if rank[p] < |out| { assert out[rank[p]].0 == p; }
    }
  }

  class DepthSide {
    const isBid: bool
    const maxTombstones: nat
    const pool: MemPool<DepthNode>
    const table: DepthTable
    const list: DepthList
    var levelCount: nat

    ghost var contents: Levels
    ghost const Repr: set<object>

    ghost predicate Valid()
      reads this, Repr
    {
      && {this, pool, pool.store, pool.isFree, table, table.slots, list} <= Repr
      && list.nodes == pool.store && list.isBid == isBid
      && pool.Valid() && table.Valid() && list.Valid()
      && list.at == table.at
      && Stored(pool.store[..], table.at, table.slotOf, pool.Live(), contents)
      && levelCount == |contents|
      && table.tombstones <= maxTombstones
      && pool.store.Length + maxTombstones + 1 < table.slots.Length
    }

    /** `capacity` nodes; the slots outnumber nodes and tombstones together. */
    constructor (isBid: bool, capacity: nat, slots: nat, maxTombstones: nat, hash: Hash)
      requires capacity > 0 && capacity + maxTombstones + 1 < slots
      ensures Valid() && fresh(Repr) && this in Repr
      ensures this.isBid == isBid && pool.store.Length == capacity && contents == map[]
    {
      hide MemPool.Valid, DepthTable.Valid, DepthList.Valid;
      this.isBid, this.maxTombstones := isBid, maxTombstones;
      var blocks := new MemPool<DepthNode>(capacity, DepthNode(0.0, 0.0, NULL, NULL, 0));
      var slotTable := new DepthTable(slots, hash);
      var levels := new DepthList(isBid, blocks.store);
      pool, table, list := blocks, slotTable, levels;
      levelCount, contents := 0, map[];
      Repr := {this, blocks, blocks.store, blocks.isFree, slotTable, slotTable.slots, levels};
    }

    /** `upsertPrice`; `false` is the out-of-space termination of the pool, which strikes only when every
        node is in use by another price. */
    method Upsert(price: real, qty: real) returns (ok: bool)
      requires Valid()
      modifies Repr
      ensures Valid()
      ensures ok == (price in old(contents) || |old(contents)| < pool.store.Length)
      ensures contents == if ok then old(contents)[price := qty] else old(contents)
      ensures table.tombstones == old(table.tombstones)
    {
      hide MemPool.Valid, DepthTable.Valid, DepthList.Valid;
      var node := FindNode(price);
      if node.Some? {
        SetQty(node.value, price, qty);
        return true;
      }
      ok := AddNode(price, qty);
    }

    /** Allocation, `insertSorted` and `insertSlot` of a price that is not in the book. */
    method AddNode(price: real, qty: real) returns (ok: bool)
      requires Valid() && price !in contents
      modifies Repr
      ensures Valid()
      ensures ok == (|old(contents)| < pool.store.Length)
      ensures contents == if ok then old(contents)[price := qty] else old(contents)
      ensures table.tombstones == old(table.tombstones)
    {
      ghost var nodes, live := pool.store[..], pool.Live();
      var block := NewNode(price, qty);
      hide Valid, Linkable;
      ok := block.Some?;
      if ok {
        LinkNode(block.value, nodes, live);
      }
    }

    /** Block x is new: written, but neither linked nor indexed. */
    ghost predicate Linkable(x: nat, nodes: seq<DepthNode>, live: set<nat>)
      reads this, Repr
    {
      && {this, pool, pool.store, pool.isFree, table, table.slots, list} <= Repr
      && list.nodes == pool.store && list.isBid == isBid && list.at == table.at
      && pool.Valid() && table.Valid() && list.Valid()
      && |nodes| == pool.store.Length && x < |nodes| && x !in live && pool.Live() == live + {x}
      && (forall b: nat :: b < |nodes| && b != x ==> pool.store[b] == nodes[b])
      && Stored(nodes, table.at, table.slotOf, live, contents) && pool.store[x].price !in contents
      && levelCount == |contents| == |table.at| < pool.store.Length
      && table.tombstones <= maxTombstones
      && pool.store.Length + maxTombstones + 1 < table.slots.Length
    }

    /** Links and indexes a new block x, whose price is not in the book. */
    method LinkNode(x: nat, ghost nodes: seq<DepthNode>, ghost live: set<nat>)
      requires Linkable(x, nodes, live)
      modifies this, list, table, table.slots, pool.store
      ensures Valid() && table.tombstones == old(table.tombstones)
      ensures contents == old(contents)[old(pool.store[x].price) := old(pool.store[x].qty)]
    {
      hide MemPool.Valid, DepthTable.Valid, DepthList.Valid, Stored;
      ghost var at, slotOf, levels, n1 := table.at, table.slotOf, contents, pool.store[..];
      var node := pool.store[x];
      assert node.price !in at by { AtKeys(nodes, at, slotOf, live, levels); }
      contents, levelCount := contents[node.price := node.qty], levelCount + 1;
      list.InsertSorted(x);
      var slot := table.Insert(node.price, x);
      ghost var n2 := pool.store[..];
      SetSlot(x, slot);
      ghost var n1', n3 := n1[x := n1[x].(slot := slot)], pool.store[..];
      StoredUpdate(nodes, at, slotOf, live, levels, n1', x);
      assert SameData(n1, n2) && SameData(n1', n3);
      StoredFrame(n1', table.at, table.slotOf, pool.Live(), contents, n3);
    }

    static lemma AtKeys(nodes: seq<DepthNode>, at: map<real, nat>, slotOf: map<real, nat>, live: set<nat>,
                        contents: Levels)
      requires Stored(nodes, at, slotOf, live, contents)
      ensures at.Keys == contents.Keys
    {
    }

    /** The pool allocation: it fails exactly when every node is in use. */
    method NewNode(price: real, qty: real) returns (block: Option<nat>)
      requires Valid() && price !in contents
      modifies pool, pool.store, pool.isFree
      ensures block == None <==> |contents| >= pool.store.Length
      ensures block == None ==> Valid()
      ensures block.Some? ==> Linkable(block.value, old(pool.store[..]), old(pool.Live()))
      ensures block.Some? ==> pool.store[block.value].price == price && pool.store[block.value].qty == qty
    {
      hide MemPool.Valid, DepthTable.Valid, DepthList.Valid, Stored;
      ghost var nodes, live := pool.store[..], pool.Live();
      LiveSize(nodes, table.at, table.slotOf, live, contents);
      block := TakeBlock(price, qty);
    }

    /** The pool allocation keeps the list. */
    method TakeBlock(price: real, qty: real) returns (block: Option<nat>)
      requires list.nodes == pool.store && pool.Valid() && list.Valid()
      requires Stored(pool.store[..], list.at, table.slotOf, pool.Live(), contents)
      modifies pool, pool.store, pool.isFree
      ensures pool.Valid() && list.Valid()
      ensures block == None <==> old(pool.Live()) == Below(pool.store.Length)
      ensures block == None ==> pool.Live() == old(pool.Live()) && pool.store[..] == old(pool.store[..])
      ensures block.Some? ==>
        && block.value < pool.store.Length && block.value !in old(pool.Live())
        && pool.Live() == old(pool.Live()) + {block.value}
        && pool.store[block.value].price == price && pool.store[block.value].qty == qty
        && forall b: nat :: b < pool.store.Length && b != block.value ==> pool.store[b] == old(pool.store[b])
    {
      ghost var nodes, live := pool.store[..], pool.Live();
      block := pool.Allocate(DepthNode(price, qty, NULL, NULL, 0));
      forall b: nat | b < |nodes| && nodes[b].price in list.at && list.at[nodes[b].price] == b
        ensures pool.store[b] == nodes[b]
      {
        assert Found(nodes, list.at, table.slotOf, live, contents, nodes[b].price);
      }
      SortedFrame(list.isBid, nodes, list.list, list.head, list.tail, list.at, list.rank, pool.store[..]);
    }

    /** `node->slot = target`. */
    method SetSlot(x: nat, slot: nat)
      requires list.nodes == pool.store && list.Valid() && x < pool.store.Length
      modifies pool.store
      ensures list.Valid()
      ensures pool.store[..] == old(pool.store[..])[x := old(pool.store[x]).(slot := slot)]
    {
      ghost var nodes := pool.store[..];
      pool.store[x] := pool.store[x].(slot := slot);
      assert pool.store[..] == nodes[x := nodes[x].(slot := slot)];
      SortedFrame(list.isBid, nodes, list.list, list.head, list.tail, list.at, list.rank, pool.store[..]);
    }

    /** `findNode` agrees with the price map. */
    method FindNode(price: real) returns (node: Option<nat>)
      requires Valid()
      ensures node == if price in contents then Some(table.at[price]) else None
    {
      hide MemPool.Valid, DepthTable.Valid, DepthList.Valid;
      ghost var nodes := pool.store[..];
      LiveSize(nodes, table.at, table.slotOf, pool.Live(), contents);
      assert forall q :: q in table.at ==> Found(nodes, table.at, table.slotOf, pool.Live(), contents, q);
      node := table.Find(price, pool.store);
    }

    method SetQty(x: nat, ghost price: real, qty: real)
      requires Valid() && price in contents && table.at[price] == x
      modifies this, pool.store
      ensures Valid()
      ensures contents == old(contents)[price := qty]
    {
      hide MemPool.Valid, DepthTable.Valid;
      ghost var nodes := pool.store[..];
      assert Found(nodes, table.at, table.slotOf, pool.Live(), contents, price);
      ghost var nodes' := nodes[x := nodes[x].(qty := qty)];
      StoredUpdate(nodes, table.at, table.slotOf, pool.Live(), contents, nodes', x);
      assert table.at[price := x] == table.at && table.slotOf[price := nodes[x].slot] == table.slotOf;
      assert pool.Live() + {x} == pool.Live() && |contents[price := qty]| == |contents|;
      contents := contents[price := qty];
      pool.store[x] := pool.store[x].(qty := qty);
      assert pool.store[..] == nodes';
      SortedFrame(isBid, nodes, list.list, list.head, list.tail, list.at, list.rank, nodes');
    }

    /** `removePrice`: the slot becomes a tombstone, and too many tombstones trigger a rebuild. */
    method Remove(price: real)
      requires Valid()
      modifies Repr
      ensures Valid()
      ensures contents == old(contents) - {price}
      ensures table.tombstones ==
        if price !in old(contents) then old(table.tombstones)
        else if old(table.tombstones) + 1 > maxTombstones then 0 else old(table.tombstones) + 1
    {
      hide MemPool.Valid, DepthTable.Valid, DepthList.Valid;
      var node := FindNode(price);
      if node == None {
        assert contents - {price} == contents;
        return;
      }
      DropNode(node.value, price);
      if table.tombstones > maxTombstones {
        Rehash();
      }
    }

    /** The invariant between the removal of a node and the rebuild: one tombstone too many is possible. */
    ghost predicate Loose()
      reads this, Repr
    {
      && {this, pool, pool.store, pool.isFree, table, table.slots, list} <= Repr
      && list.nodes == pool.store && list.isBid == isBid
      && pool.Valid() && table.Valid() && list.Valid()
      && list.at == table.at
      && Stored(pool.store[..], table.at, table.slotOf, pool.Live(), contents)
      && levelCount == |contents|
      && pool.store.Length + maxTombstones + 1 < table.slots.Length
    }

    method DropNode(x: nat, price: real)
      requires Valid() && price in contents && table.at[price] == x
      modifies Repr
      ensures Loose() && table.tombstones == old(table.tombstones) + 1
      ensures contents == old(contents) - {price}
    {
      hide MemPool.Valid, DepthTable.Valid, DepthList.Valid;
      ghost var nodes, at, slotOf, live, levels := pool.store[..], table.at, table.slotOf, pool.Live(), contents;
      assert Found(nodes, at, slotOf, live, levels, price);
      StoredErase(nodes, at, slotOf, live, levels, nodes, x);
      assert |contents - {price}| == |contents| - 1;
      hide Stored, Found;
      contents, levelCount := contents - {price}, levelCount - 1;
      KillSlot(price, pool.store[x].slot);
      list.Remove(x);
      StoredFrame(nodes, table.at, table.slotOf, live - {x}, contents, pool.store[..]);
      var freed := pool.Deallocate(x);
      assert freed;
    }

    method KillSlot(price: real, slot: nat)
      requires table.Valid() && price in table.at && price in table.slotOf && table.slotOf[price] == slot
      modifies table, table.slots
      ensures table.Valid() && table.tombstones == old(table.tombstones) + 1
      ensures table.at == old(table.at) - {price} && table.slotOf == old(table.slotOf) - {price}
    {
      assert Placed(table.slots[..], table.at, table.slotOf, table.keys, price);
      table.Kill(price, slot);
    }

    /** Node data apart from the slots, which a rebuild assigns anew. */
    static ghost predicate SameButSlots(nodes: seq<DepthNode>, r: seq<DepthNode>) {
      && |r| == |nodes|
      && (forall i: nat :: i < |nodes| ==> r[i] == nodes[i].(slot := r[i].slot))
    }

    /** The prices of the first k nodes. */
    static ghost function FirstNodes(at: map<real, nat>, rank: map<real, nat>, k: nat): map<real, nat> {
      map p | p in at && p in rank && rank[p] < k :: at[p]
    }

    /** `rehashSlots` preserves the mapping and clears every tombstone. */
    method Rehash()
      requires Loose()
      modifies table, table.slots, pool.store
      ensures Loose() && table.tombstones == 0
    {
      hide MemPool.Valid, DepthTable.Valid, Sorted, Stored;
      ghost var nodes, at, slotOf, live := pool.store[..], table.at, table.slotOf, pool.Live();
      LiveSize(nodes, at, slotOf, live, contents);
      table.Fill();
      Reinsert(nodes, at);
      AllNodes(isBid, nodes, list.list, list.head, list.tail, at, list.rank);
      StoredReslotted(nodes, at, slotOf, live, contents, pool.store[..], table.slotOf);
      SlotsFrame(isBid, nodes, list.list, list.head, list.tail, at, list.rank, pool.store[..]);
    }

    /** The loop of the rebuild: walks the list and inserts every node anew. */
    method Reinsert(ghost nodes: seq<DepthNode>, ghost at: map<real, nat>)
      requires list.nodes == pool.store && nodes == pool.store[..] && table.Valid()
      requires Sorted(isBid, nodes, list.list, list.head, list.tail, at, list.rank)
      requires table.at == map[] && table.tombstones == 0 && |at| < table.slots.Length
      modifies table, table.slots, pool.store
      ensures table.Valid() && table.tombstones == 0
      ensures table.at == FirstNodes(at, list.rank, |list.list|)
      ensures SameButSlots(nodes, pool.store[..])
      ensures forall p :: p in table.at ==>
        p in table.slotOf && at[p] < pool.store.Length && pool.store[at[p]].slot == table.slotOf[p]
    {
      hide DepthTable.Valid, Sorted;
      ghost var chain, rank, k := list.list, list.rank, 0;
      var node := list.head;
      SortedHead(isBid, nodes, chain, list.head, list.tail, at, rank);
      while node != NULL
        invariant k <= |chain| && node == NodeAt(chain, k)
        invariant table.Valid() && table.tombstones == 0 && table.at == FirstNodes(at, rank, k)
        invariant SameButSlots(nodes, pool.store[..])
        invariant forall p :: p in table.at ==>
          p in table.slotOf && at[p] < |nodes| && pool.store[at[p]].slot == table.slotOf[p]
        decreases |chain| - k
      {
        FirstNodesStep(isBid, nodes, chain, list.head, list.tail, at, rank, k);
        var x: nat := node;
        SubsetSize(FirstNodes(at, rank, k).Keys, at.Keys);
        var slot := table.Insert(pool.store[x].price, x);
        pool.store[x] := pool.store[x].(slot := slot);
        node := pool.store[x].next;
        k := k + 1;
      }
    }

    static lemma SortedHead(isBid: bool, nodes: seq<DepthNode>, chain: seq<nat>, head: int, tail: int,
                            at: map<real, nat>, rank: map<real, nat>)
      requires Sorted(isBid, nodes, chain, head, tail, at, rank)
      ensures head == NodeAt(chain, 0) && FirstNodes(at, rank, 0) == map[]
    {
    }

    static lemma FirstNodesStep(isBid: bool, nodes: seq<DepthNode>, chain: seq<nat>, head: int, tail: int,
                                at: map<real, nat>, rank: map<real, nat>, k: nat)
      requires Sorted(isBid, nodes, chain, head, tail, at, rank) && k < |chain|
      ensures chain[k] < |nodes| && nodes[chain[k]].next == NodeAt(chain, k + 1)
      ensures var p := nodes[chain[k]].price;
        && p !in FirstNodes(at, rank, k) && FirstNodes(at, rank, k + 1) == FirstNodes(at, rank, k)[p := chain[k]]
        && at.Keys == at.Keys + {p} && at[p] == chain[k]
      ensures |FirstNodes(at, rank, k)| == |FirstNodes(at, rank, k).Keys| && FirstNodes(at, rank, k).Keys <= at.Keys
      ensures forall q :: q in FirstNodes(at, rank, k) ==> q in at && at[q] != chain[k]
    {
      assert LinksAt(nodes, chain, k);
      var p := nodes[chain[k]].price;
      forall q | q in at ensures q in rank && (rank[q] == k ==> q == p) && (rank[q] < k ==> at[q] != chain[k]) {
        assert Ranked(nodes, chain, at, rank, q);
      }
    }

    static lemma AllNodes(isBid: bool, nodes: seq<DepthNode>, chain: seq<nat>, head: int, tail: int,
                          at: map<real, nat>, rank: map<real, nat>)
      requires Sorted(isBid, nodes, chain, head, tail, at, rank)
      ensures FirstNodes(at, rank, |chain|) == at
    {
      forall p | p in at ensures p in FirstNodes(at, rank, |chain|) {
        assert Ranked(nodes, chain, at, rank, p);
      }
    }

    static lemma SlotsFrame(isBid: bool, nodes: seq<DepthNode>, chain: seq<nat>, head: int, tail: int,
                            at: map<real, nat>, rank: map<real, nat>, nodes': seq<DepthNode>)
      requires Sorted(isBid, nodes, chain, head, tail, at, rank) && SameButSlots(nodes, nodes')
      ensures Sorted(isBid, nodes', chain, head, tail, at, rank)
    {
      SortedFrame(isBid, nodes, chain, head, tail, at, rank, nodes');
    }

    static lemma StoredReslotted(nodes: seq<DepthNode>, at: map<real, nat>, slotOf: map<real, nat>, live: set<nat>,
                                 contents: Levels, nodes': seq<DepthNode>, slotOf': map<real, nat>)
      requires Stored(nodes, at, slotOf, live, contents) && SameButSlots(nodes, nodes')
      requires forall p :: p in at && at[p] < |nodes| ==> p in slotOf' && nodes'[at[p]].slot == slotOf'[p]
      ensures Stored(nodes', at, slotOf', live, contents)
    {
      forall b: nat | b in live ensures InUse(nodes', at, b) {
        assert InUse(nodes, at, b);
      }
      forall p | p in at ensures Found(nodes', at, slotOf', live, contents, p) {
        assert Found(nodes, at, slotOf, live, contents, p);
      }
    }

    /** The walk of `buildMarketUpdate` from the list head. */
    method Top(limit: nat) returns (out: seq<(real, real)>)
      requires Valid()
      ensures IsTop(isBid, contents, limit, out)
    {
      hide MemPool.Valid, DepthTable.Valid, Stored;
      ghost var nodes, chain, k := pool.store[..], list.list, 0;
      out := [];
      var node := list.head;
      while node != NULL && |out| < limit
        invariant k == |out| <= |chain| && k <= limit && node == NodeAt(chain, k)
        invariant forall i: nat :: i < |out| ==>
          chain[i] < |nodes| && out[i] == (nodes[chain[i]].price, nodes[chain[i]].qty)
        decreases |chain| - k
      {
        assert LinksAt(nodes, chain, k);
        out := out + [(pool.store[node].price, pool.store[node].qty)];
        node := pool.store[node].next;
        k := k + 1;
      }
      PrefixIsTop(isBid, nodes, chain, list.head, list.tail, list.at, list.rank, table.slotOf, pool.Live(), contents,
                  limit, out);
    }

    /** `clearSide` frees every node in use exactly once. */
    method Clear()
      requires Valid()
      modifies Repr
      ensures Valid() && contents == map[]
    {
      hide MemPool.Valid, DepthTable.Valid, DepthList.Valid;
      FreeAll();
      hide Stored;
      list.Reset();
      table.Fill();
      levelCount, contents := 0, map[];
      assert Stored(pool.store[..], map[], table.slotOf, {}, map[]) by { NothingStored(pool.store[..], table.slotOf); }
    }

    static lemma NothingStored(nodes: seq<DepthNode>, slotOf: map<real, nat>)
      ensures Stored(nodes, map[], slotOf, {}, map[])
    {
    }

    method FreeAll()
      requires Valid()
      modifies pool, pool.isFree
      ensures pool.Valid() && pool.Live() == {}
    {
      hide MemPool.Valid, DepthTable.Valid;
      ghost var nodes, chain, live, k := pool.store[..], list.list, pool.Live(), 0;
      ListedBlocks(isBid, nodes, chain, list.head, list.tail, list.at, list.rank, table.slotOf, live, contents);
      var node := list.head;
      while node != NULL
        invariant k <= |chain| && node == NodeAt(chain, k)
        invariant pool.Valid() && pool.Live() <= live
        invariant forall i: nat :: i < k ==> chain[i] !in pool.Live()
        invariant forall i: nat :: k <= i < |chain| ==> chain[i] in pool.Live()
        decreases |chain| - k
      {
        assert LinksAt(nodes, chain, k);
        var next := pool.store[node].next;
        var freed := pool.Deallocate(node);
        assert freed;
        node := next;
        k := k + 1;
      }
      assert forall b: nat :: b !in pool.Live();
    }

    /** The nodes of the list are exactly the blocks in use, without repetition. */
    static lemma ListedBlocks(isBid: bool, nodes: seq<DepthNode>, chain: seq<nat>, head: int, tail: int,
                              at: map<real, nat>, rank: map<real, nat>, slotOf: map<real, nat>, live: set<nat>,
                              contents: Levels)
      requires Sorted(isBid, nodes, chain, head, tail, at, rank) && Stored(nodes, at, slotOf, live, contents)
      ensures forall i: nat :: i < |chain| ==> chain[i] in live
      ensures forall b: nat :: b in live ==> exists i: nat :: i < |chain| && chain[i] == b
      ensures Distinct(chain)
    {
      forall i: nat | i < |chain| ensures chain[i] in live {
        assert Found(nodes, at, slotOf, live, contents, nodes[chain[i]].price);
      }
      forall b: nat | b in live ensures exists i: nat :: i < |chain| && chain[i] == b {
        assert InUse(nodes, at, b);
        assert Ranked(nodes, chain, at, rank, nodes[b].price);
      }
    }
  }
}
