/** The sorted doubly linked list of one side of the Binance depth book
    (src/trading/venue/binance/binance_depth_book.cpp); unlike the incremental book's list it is not
    circular and keeps a tail. Prices are real numbers: finite doubles without -0.0. */
module DepthLists {
  import opened ListEdits

  const NULL: int := -1

  /** `PriceLevelNode`; links are pool block indices. */
  datatype DepthNode = DepthNode(price: real, qty: real, prev: int, next: int, slot: nat)

  /** `priceBetter`. */
  predicate Better(isBid: bool, candidate: real, incumbent: real) {
    if isBid then candidate > incumbent else candidate < incumbent
  }

  /** The k-th node of a list, or null outside it. */
  function NodeAt(list: seq<nat>, k: int): int {
    if 0 <= k < |list| then list[k] else NULL
  }

  ghost predicate LinksAt(nodes: seq<DepthNode>, list: seq<nat>, k: nat)
    requires k < |list|
  {
    && list[k] < |nodes|
    && nodes[list[k]].next == NodeAt(list, k + 1)
    && nodes[list[k]].prev == NodeAt(list, k - 1)
  }

  ghost predicate Chain(nodes: seq<DepthNode>, list: seq<nat>, head: int, tail: int) {
    && (forall k: nat :: k < |list| ==> list[k] < |nodes|)
    && head == NodeAt(list, 0) && tail == NodeAt(list, |list| - 1)
    && (forall k: nat :: k < |list| ==> LinksAt(nodes, list, k))
  }

  /** Strictly best first. */
  ghost predicate BestFirst(isBid: bool, nodes: seq<DepthNode>, list: seq<nat>)
    requires forall k: nat :: k < |list| ==> list[k] < |nodes|
  {
    forall i: nat, j: nat :: i < j < |list| ==> Better(isBid, nodes[list[i]].price, nodes[list[j]].price)
  }

  /** at[p] is the node of price p, and rank[p] its position in the list. */
  ghost predicate Ranked(nodes: seq<DepthNode>, list: seq<nat>, at: map<real, nat>, rank: map<real, nat>, p: real) {
    && p in at && p in rank
    && rank[p] < |list| && list[rank[p]] == at[p]
    && at[p] < |nodes| && nodes[at[p]].price == p
  }

  ghost predicate Indexed(nodes: seq<DepthNode>, list: seq<nat>, at: map<real, nat>, rank: map<real, nat>)
    requires forall k: nat :: k < |list| ==> list[k] < |nodes|
  {
    && (forall k: nat {:trigger list[k]} :: k < |list| ==>
          && nodes[list[k]].price in at && at[nodes[list[k]].price] == list[k]
          && nodes[list[k]].price in rank && rank[nodes[list[k]].price] == k)
    && (forall p {:trigger Ranked(nodes, list, at, rank, p)} :: p in at ==> Ranked(nodes, list, at, rank, p))
  }

  /** The list is well linked, sorted, and holds exactly the nodes of `at`. */
  ghost predicate Sorted(isBid: bool, nodes: seq<DepthNode>, list: seq<nat>, head: int, tail: int,
                         at: map<real, nat>, rank: map<real, nat>)
  {
    && Chain(nodes, list, head, tail)
    && BestFirst(isBid, nodes, list)
    && Indexed(nodes, list, at, rank)
  }

  /** Only links differ. */
  ghost predicate SameData(nodes: seq<DepthNode>, r: seq<DepthNode>) {
    && |r| == |nodes|
    && (forall i: nat :: i < |nodes| ==>
          r[i].price == nodes[i].price && r[i].qty == nodes[i].qty && r[i].slot == nodes[i].slot)
  }

  /** `r` is `nodes` with x linked between `prev` and `next`, either of which may be null. */
  ghost predicate LinkedBetween(nodes: seq<DepthNode>, x: nat, prev: int, next: int, r: seq<DepthNode>)
    requires x < |nodes|
  {
    && SameData(nodes, r)
    && (forall i: nat :: i < |nodes| && i != x ==>
          && r[i].next == (if i == prev then x else nodes[i].next)
          && r[i].prev == (if i == next then x else nodes[i].prev))
    && r[x].prev == prev && r[x].next == next
  }

  lemma LinkedLinks(nodes: seq<DepthNode>, list: seq<nat>, head: int, tail: int, x: nat, k: nat,
                    nodes': seq<DepthNode>, list': seq<nat>, i: nat)
    requires Chain(nodes, list, head, tail) && Distinct(list)
    requires x < |nodes| && x !in list && k <= |list|
    requires LinkedBetween(nodes, x, NodeAt(list, k - 1), NodeAt(list, k), nodes') && InsertedAt(list, k, x, list')
    requires i < |list'|
    ensures LinksAt(nodes', list', i)
  {
    if i != k {
      var o: nat := if i < k then i else i - 1;
      assert list'[i] == list[o] && list[o] != x && LinksAt(nodes, list, o);
      assert o != k - 1 ==> list[o] != NodeAt(list, k - 1);
      assert o != k ==> list[o] != NodeAt(list, k);
    }
  }

  lemma LinkedBestFirst(isBid: bool, nodes: seq<DepthNode>, list: seq<nat>, x: nat, k: nat,
                        nodes': seq<DepthNode>, list': seq<nat>)
    requires x < |nodes| && k <= |list|
    requires forall i: nat :: i < |list| ==> list[i] < |nodes|
    requires SameData(nodes, nodes') && InsertedAt(list, k, x, list')
    requires BestFirst(isBid, nodes, list)
    requires forall i: nat :: i < k ==> Better(isBid, nodes[list[i]].price, nodes[x].price)
    requires k < |list| ==> Better(isBid, nodes[x].price, nodes[list[k]].price)
    ensures forall i: nat :: i < |list'| ==> list'[i] < |nodes'|
    ensures BestFirst(isBid, nodes', list')
  {
    forall i: nat, j: nat | i < j < |list'|
      ensures list'[i] < |nodes'| && list'[j] < |nodes'|
      ensures Better(isBid, nodes'[list'[i]].price, nodes'[list'[j]].price)
    {
      if i == k {
        assert list'[j] == list[j - 1];
      } else {
        assert list'[i] == list[if i < k then i else i - 1];
        if j != k { assert list'[j] == list[if j < k then j else j - 1]; }
      }
    }
    forall i: nat | i < |list'| ensures list'[i] < |nodes'| {
      if i != k { assert list'[i] == list[if i < k then i else i - 1]; }
    }
  }

  lemma LinkedIndexed(nodes: seq<DepthNode>, list: seq<nat>, x: nat, k: nat, nodes': seq<DepthNode>, list': seq<nat>,
                      at: map<real, nat>, rank: map<real, nat>)
    returns (rank': map<real, nat>)
    requires x < |nodes| && k <= |list| && SameData(nodes, nodes')
    requires forall i: nat :: i < |list| ==> list[i] < |nodes|
    requires InsertedAt(list, k, x, list')
    requires forall i: nat :: i < |list'| ==> list'[i] < |nodes'|
    requires Indexed(nodes, list, at, rank) && nodes[x].price !in at
    ensures Indexed(nodes', list', at[nodes[x].price := x], rank')
  {
    var at' := at[nodes[x].price := x];
    rank' := RankWith(rank, k, nodes[x].price);
    forall i: nat | i < |list'|
      ensures nodes'[list'[i]].price in at' && at'[nodes'[list'[i]].price] == list'[i]
      ensures nodes'[list'[i]].price in rank' && rank'[nodes'[list'[i]].price] == i
    {
      if i != k {
        assert list'[i] == list[if i < k then i else i - 1];
      }
    }
    forall p | p in at' ensures Ranked(nodes', list', at', rank', p) {
      if p != nodes[x].price { assert Ranked(nodes, list, at, rank, p); }
    }
  }

  /** Linking block x, already filled in, at the sorted place of its price keeps the list sorted. */
  lemma LinkedIn(isBid: bool, nodes: seq<DepthNode>, list: seq<nat>, head: int, tail: int,
                 at: map<real, nat>, rank: map<real, nat>, x: nat, k: nat, nodes': seq<DepthNode>, list': seq<nat>)
    returns (rank': map<real, nat>)
    requires Sorted(isBid, nodes, list, head, tail, at, rank)
    requires x < |nodes| && nodes[x].price !in at && k <= |list|
    requires forall i: nat :: i < k ==> Better(isBid, nodes[list[i]].price, nodes[x].price)
    requires k < |list| ==> Better(isBid, nodes[x].price, nodes[list[k]].price)
    requires LinkedBetween(nodes, x, NodeAt(list, k - 1), NodeAt(list, k), nodes') && InsertedAt(list, k, x, list')
    ensures Sorted(isBid, nodes', list', if k == 0 then x else head, if k == |list| then x else tail,
                   at[nodes[x].price := x], rank')
  {
    assert x !in list;
    LinkedBestFirst(isBid, nodes, list, x, k, nodes', list');
    forall i: nat | i < |list'| ensures LinksAt(nodes', list', i) {
      LinkedLinks(nodes, list, head, tail, x, k, nodes', list', i);
    }
    rank' := LinkedIndexed(nodes, list, x, k, nodes', list', at, rank);
  }

  /** `r` is `nodes` with the neighbours of x linked to each other; only links change. */
  ghost predicate Unlinked(nodes: seq<DepthNode>, x: nat, r: seq<DepthNode>)
    requires x < |nodes|
  {
    && SameData(nodes, r)
    && (forall i: nat :: i < |nodes| && i != x ==>
          && r[i].next == (if i == nodes[x].prev then nodes[x].next else nodes[i].next)
          && r[i].prev == (if i == nodes[x].next then nodes[x].prev else nodes[i].prev))
  }

  lemma UnlinkedLinks(nodes: seq<DepthNode>, list: seq<nat>, head: int, tail: int, k: nat,
                      nodes': seq<DepthNode>, list': seq<nat>, i: nat)
    requires Chain(nodes, list, head, tail) && Distinct(list)
    requires k < |list| && Unlinked(nodes, list[k], nodes') && RemovedAt(list, k, list')
    requires i < |list'|
    ensures LinksAt(nodes', list', i)
  {
    var o: nat := if i < k then i else i + 1;
    assert list'[i] == list[o] && list[o] != list[k];
    assert LinksAt(nodes, list, k) && LinksAt(nodes, list, o);
    assert o != k - 1 ==> list[o] != NodeAt(list, k - 1);
    assert o != k + 1 ==> list[o] != NodeAt(list, k + 1);
  }

  lemma UnlinkedIndexed(nodes: seq<DepthNode>, list: seq<nat>, k: nat, nodes': seq<DepthNode>, list': seq<nat>,
                        at: map<real, nat>, rank: map<real, nat>)
    returns (rank': map<real, nat>)
    requires k < |list| && SameData(nodes, nodes')
    requires forall i: nat :: i < |list| ==> list[i] < |nodes|
    requires RemovedAt(list, k, list')
    requires forall i: nat :: i < |list'| ==> list'[i] < |nodes'|
    requires Indexed(nodes, list, at, rank)
    ensures Indexed(nodes', list', at - {nodes[list[k]].price}, rank')
  {
    var price := nodes[list[k]].price;
    var at' := at - {price};
    rank' := RankWithout(rank, k, price);
    forall i: nat | i < |list'|
      ensures nodes'[list'[i]].price in at' && at'[nodes'[list'[i]].price] == list'[i]
      ensures nodes'[list'[i]].price in rank' && rank'[nodes'[list'[i]].price] == i
    {
      var o: nat := if i < k then i else i + 1;
      assert list'[i] == list[o] && rank[nodes[list[o]].price] == o;
    }
    forall p | p in at' ensures Ranked(nodes', list', at', rank', p) {
      assert Ranked(nodes, list, at, rank, p) && rank[p] != k;
    }
  }

  /** Unlinking the node at position k keeps the rest sorted. */
  lemma LinkedOut(isBid: bool, nodes: seq<DepthNode>, list: seq<nat>, head: int, tail: int,
                  at: map<real, nat>, rank: map<real, nat>, k: nat, nodes': seq<DepthNode>, list': seq<nat>)
    returns (rank': map<real, nat>)
    requires Sorted(isBid, nodes, list, head, tail, at, rank)
    requires k < |list| && Unlinked(nodes, list[k], nodes') && RemovedAt(list, k, list')
    ensures Sorted(isBid, nodes', list', if k == 0 then NodeAt(list, 1) else head,
                   if k == |list| - 1 then NodeAt(list, k - 1) else tail,
                   at - {nodes[list[k]].price}, rank')
  {
    forall i: nat, j: nat | i < j < |list'|
      ensures list'[i] < |nodes'| && list'[j] < |nodes'|
      ensures Better(isBid, nodes'[list'[i]].price, nodes'[list'[j]].price)
    {
      assert list'[i] == list[if i < k then i else i + 1] && list'[j] == list[if j < k then j else j + 1];
    }
    forall i: nat | i < |list'| ensures LinksAt(nodes', list', i) {
      UnlinkedLinks(nodes, list, head, tail, k, nodes', list', i);
    }
    rank' := UnlinkedIndexed(nodes, list, k, nodes', list', at, rank);
  }

  /** Quantities and slots play no part in the list, nor do blocks outside it. */
  lemma SortedFrame(isBid: bool, nodes: seq<DepthNode>, list: seq<nat>, head: int, tail: int,
                    at: map<real, nat>, rank: map<real, nat>, nodes': seq<DepthNode>)
    requires Sorted(isBid, nodes, list, head, tail, at, rank) && |nodes'| == |nodes|
    requires forall b: nat :: b < |nodes| && nodes[b].price in at && at[nodes[b].price] == b ==>
      nodes'[b].price == nodes[b].price && nodes'[b].prev == nodes[b].prev && nodes'[b].next == nodes[b].next
    ensures Sorted(isBid, nodes', list, head, tail, at, rank)
  {
    forall k: nat | k < |list| ensures LinksAt(nodes', list, k) {
      assert LinksAt(nodes, list, k);
    }
    forall p | p in at ensures Ranked(nodes', list, at, rank, p) {
      assert Ranked(nodes, list, at, rank, p);
    }
  }

  /** Where an indexed block stands in the list. */
  lemma ListedAt(isBid: bool, nodes: seq<DepthNode>, list: seq<nat>, head: int, tail: int,
                 at: map<real, nat>, rank: map<real, nat>, x: nat) returns (k: nat)
    requires Sorted(isBid, nodes, list, head, tail, at, rank) && x < |nodes|
    requires nodes[x].price in at && at[nodes[x].price] == x
    ensures k < |list| && list[k] == x && LinksAt(nodes, list, k)
    ensures head == NodeAt(list, 0) && tail == NodeAt(list, |list| - 1)
    ensures forall i: nat :: i < |list| ==> list[i] < |nodes|
  {
    assert Ranked(nodes, list, at, rank, nodes[x].price);
    k := rank[nodes[x].price];
    assert LinksAt(nodes, list, k);
  }

  class DepthList {
    const isBid: bool
    /** The storage of the level pool. */
    const nodes: array<DepthNode>
    var head: int
    var tail: int

    /** The nodes, best first, and the node of each price. */
    ghost var list: seq<nat>
    ghost var at: map<real, nat>
    ghost var rank: map<real, nat>

    ghost predicate Valid()
      reads this, nodes
    {
      Sorted(isBid, nodes[..], list, head, tail, at, rank)
    }

    constructor (isBid: bool, nodes: array<DepthNode>)
      ensures Valid() && at == map[] && list == []
      ensures this.isBid == isBid && this.nodes == nodes
    {
      this.isBid, this.nodes := isBid, nodes;
      head, tail, list, at, rank := NULL, NULL, [], map[], map[];
    }

    method Reset()
      modifies this
      ensures Valid() && at == map[] && list == []
    {
      head, tail, list, at, rank := NULL, NULL, [], map[], map[];
    }

    /** `insertSorted` of block x, whose price is not in the list yet. */
    method InsertSorted(x: nat)
      requires Valid() && x < nodes.Length && nodes[x].price !in at
      modifies this, nodes
      ensures Valid()
      ensures at == old(at)[old(nodes[x].price) := x]
      ensures SameData(old(nodes[..]), nodes[..])
    {
      hide Sorted, LinkedBetween;
      ghost var nodes0 := nodes[..];
      var previous, current, k := FindPlace(x);
      LinkBetween(x, previous, current);
      ghost var nodes1, list1 := nodes[..], list[..k] + [x] + list[k..];
      ghost var rank1 := LinkedIn(isBid, nodes0, list, head, tail, at, rank, x, k, nodes1, list1);
      list, at, rank := list1, at[nodes0[x].price := x], rank1;
      if previous == NULL {
        head := x;
      }
      if current == NULL {
        tail := x;
      }
      assert nodes[..] == nodes1;
    }

    /** The walk from the best level to the first that the new price beats. */
    method FindPlace(x: nat) returns (previous: int, current: int, ghost k: nat)
      requires Valid() && x < nodes.Length && nodes[x].price !in at
      ensures k <= |list| && previous == NodeAt(list, k - 1) && current == NodeAt(list, k)
      ensures forall i: nat :: i < |list| ==> list[i] < nodes.Length
      ensures forall i: nat :: i < k ==> Better(isBid, nodes[list[i]].price, nodes[x].price)
      ensures k < |list| ==> Better(isBid, nodes[x].price, nodes[list[k]].price)
      ensures previous != x && current != x
      ensures previous == current ==> previous == NULL
    {
      ghost var nodes0 := nodes[..];
      previous, current, k := NULL, head, 0;
      while current != NULL && !Better(isBid, nodes[x].price, nodes[current].price)
        invariant k <= |list| && previous == NodeAt(list, k - 1) && current == NodeAt(list, k)
        invariant forall i: nat :: i < k ==> Better(isBid, nodes0[list[i]].price, nodes0[x].price)
        decreases |list| - k
      {
        assert LinksAt(nodes0, list, k) && nodes0[list[k]].price in at;
        previous := current;
        current := nodes[current].next;
        k := k + 1;
      }
      assert x !in list;
    }

    /** The pointer assignments of the insertion, apart from head and tail. */
    method LinkBetween(x: nat, previous: int, current: int)
      requires x < nodes.Length && previous != x && current != x
      requires NULL <= previous < nodes.Length && NULL <= current < nodes.Length
      requires previous == current ==> previous == NULL
      modifies nodes
      ensures LinkedBetween(old(nodes[..]), x, previous, current, nodes[..])
      ensures SameData(old(nodes[..]), nodes[..])
    {
      nodes[x] := nodes[x].(prev := previous, next := current);
      if previous != NULL {
        nodes[previous] := nodes[previous].(next := x);
      }
      if current != NULL {
        nodes[current] := nodes[current].(prev := x);
      }
    }

    /** `unlink`. */
    method Remove(x: nat)
      requires Valid() && x < nodes.Length && nodes[x].price in at && at[nodes[x].price] == x
      modifies this, nodes
      ensures Valid()
      ensures at == old(at) - {old(nodes[x].price)}
      ensures SameData(old(nodes[..]), nodes[..])
    {
      hide Sorted, Chain, BestFirst, Indexed, Unlinked, Ranked;
      ghost var nodes0 := nodes[..];
      ghost var k := ListedAt(isBid, nodes0, list, head, tail, at, rank, x);
      var node := nodes[x];
      Unlink(x);
      ghost var nodes1, list1 := nodes[..], list[..k] + list[k + 1..];
      ghost var rank1 := LinkedOut(isBid, nodes0, list, head, tail, at, rank, k, nodes1, list1);
      list, at, rank := list1, at - {node.price}, rank1;
      if node.prev == NULL {
        head := node.next;
      }
      if node.next == NULL {
        tail := node.prev;
      }
      assert nodes[..] == nodes1;
    }

    method Unlink(x: nat)
      requires x < nodes.Length && NULL <= nodes[x].prev < nodes.Length && NULL <= nodes[x].next < nodes.Length
      modifies nodes
      ensures Unlinked(old(nodes[..]), x, nodes[..]) && SameData(old(nodes[..]), nodes[..])
    {
      var node := nodes[x];
      if node.prev != NULL {
        nodes[node.prev] := nodes[node.prev].(next := node.next);
      }
      if node.next != NULL {
        nodes[node.next] := nodes[node.next].(prev := node.prev);
      }
    }
  }
}
