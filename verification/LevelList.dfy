/** The sorted circular doubly linked list of price levels of one side
    (src/trading/strategy/market_order_book.h), its nodes being pool blocks. */
module LevelLists {
  import opened Common
  import opened Cyclic
  import opened BookSpec
  import opened ListEdits

  const NULL: int := -1

  /** A pooled level node; links are block indices, `NULL` the null pointer. */
  datatype PriceLevel = PriceLevel(price: int, qty: Qty, prev: int, next: int)

  function Before(k: nat, n: nat): (r: nat)
    requires k < n
    ensures r < n
  {
    if k == 0 then n - 1 else k - 1
  }

  /** The links of the node at position k of the circle. */
  ghost predicate LinksAt(nodes: seq<PriceLevel>, list: seq<nat>, k: nat)
    requires k < |list|
  {
    && list[k] < |nodes|
    && nodes[list[k]].next == list[Next(k, |list|)]
    && nodes[list[k]].prev == list[Before(k, |list|)]
  }

  /** `list` names the nodes of the circle from the head on, and the links follow it both ways. */
  ghost predicate Circle(nodes: seq<PriceLevel>, list: seq<nat>, head: int)
  {
    && (forall k: nat :: k < |list| ==> list[k] < |nodes|)
    && head == (if list == [] then NULL else list[0])
    && (forall k: nat :: k < |list| ==> LinksAt(nodes, list, k))
  }

  /** Strictly best first from the head; so the nodes are distinct too. */
  ghost predicate BestFirst(side: Side, nodes: seq<PriceLevel>, list: seq<nat>)
    requires forall k: nat :: k < |list| ==> list[k] < |nodes|
  {
    forall i: nat, j: nat :: i < j < |list| ==> Better(side, nodes[list[i]].price, nodes[list[j]].price)
  }

  /** at[p] is the node of price p, and rank[p] its position in the list. */
  ghost predicate Ranked(nodes: seq<PriceLevel>, list: seq<nat>, at: map<int, nat>, rank: map<int, nat>, p: int) {
    && p in at && p in rank
    && rank[p] < |list| && list[rank[p]] == at[p]
    && at[p] < |nodes| && nodes[at[p]].price == p
  }

  ghost predicate Indexed(nodes: seq<PriceLevel>, list: seq<nat>, at: map<int, nat>, rank: map<int, nat>)
    requires forall k: nat :: k < |list| ==> list[k] < |nodes|
  {
    && (forall k: nat {:trigger list[k]} :: k < |list| ==>
          && nodes[list[k]].price in at && at[nodes[list[k]].price] == list[k]
          && nodes[list[k]].price in rank && rank[nodes[list[k]].price] == k)
    && (forall p {:trigger Ranked(nodes, list, at, rank, p)} :: p in at ==> Ranked(nodes, list, at, rank, p))
  }

  /** The list is well linked, sorted, and holds exactly the nodes of `at`. */
  ghost predicate Sorted(side: Side, nodes: seq<PriceLevel>, list: seq<nat>, head: int, at: map<int, nat>,
                         rank: map<int, nat>)
  {
    && Circle(nodes, list, head)
    && BestFirst(side, nodes, list)
    && Indexed(nodes, list, at, rank)
  }

  /** Only links differ. */
  ghost predicate SameData(nodes: seq<PriceLevel>, r: seq<PriceLevel>) {
    && |r| == |nodes|
    && (forall i: nat :: i < |nodes| ==> r[i].price == nodes[i].price && r[i].qty == nodes[i].qty)
  }

  /** `r` is `nodes` with x linked directly before `target`, prices and quantities untouched. */
  ghost predicate LinkedBefore(nodes: seq<PriceLevel>, x: nat, target: nat, r: seq<PriceLevel>)
    requires x < |nodes| && target < |nodes|
  {
    && SameData(nodes, r)
    && (forall i: nat :: i < |nodes| && i != x ==>
          && r[i].prev == (if i == target then x else nodes[i].prev)
          && r[i].next == (if i == nodes[target].prev then x else nodes[i].next))
    && r[x].prev == nodes[target].prev && r[x].next == target
  }

  /** The block before which position k lies; the place after the worst level is before the head. */
  function Target(list: seq<nat>, k: nat): nat
    requires list != [] && k <= |list|
  {
    list[if k == |list| then 0 else k]
  }

  lemma LinkedNext(nodes: seq<PriceLevel>, list: seq<nat>, head: int, x: nat, k: nat,
                   nodes': seq<PriceLevel>, list': seq<nat>, i: nat)
    requires Circle(nodes, list, head) && Distinct(list)
    requires x < |nodes| && x !in list && list != [] && k <= |list|
    requires LinkedBefore(nodes, x, Target(list, k), nodes') && InsertedAt(list, k, x, list')
    requires i < |list'|
    ensures list'[i] < |nodes'|
    ensures nodes'[list'[i]].next == list'[Next(i, |list'|)]
  {
    var n := |list|;
    var at := if k == n then 0 else k;
    var last := Before(at, n);
    assert LinksAt(nodes, list, at);
    var i' := Next(i, n + 1);
    if i == k {
      assert list'[i'] == list[at];
    } else {
      var o: nat := if i < k then i else i - 1;
      assert list'[i] == list[o] && list[o] != x;
      if o == last {
        assert i' == k;
      } else {
        assert list[o] != list[last] && LinksAt(nodes, list, o);
        assert nodes'[list[o]].next == nodes[list[o]].next == list[Next(o, n)];
        assert i' != k && list'[i'] == list[Next(o, n)];
      }
    }
  }

  lemma LinkedPrev(nodes: seq<PriceLevel>, list: seq<nat>, head: int, x: nat, k: nat,
                   nodes': seq<PriceLevel>, list': seq<nat>, i: nat)
    requires Circle(nodes, list, head) && Distinct(list)
    requires x < |nodes| && x !in list && list != [] && k <= |list|
    requires LinkedBefore(nodes, x, Target(list, k), nodes') && InsertedAt(list, k, x, list')
    requires i < |list'|
    ensures list'[i] < |nodes'|
    ensures nodes'[list'[i]].prev == list'[Before(i, |list'|)]
  {
    var n := |list|;
    var at := if k == n then 0 else k;
    assert LinksAt(nodes, list, at);
    if i != k {
      var o: nat := if i < k then i else i - 1;
      assert list'[i] == list[o] && list[o] != x;
      assert LinksAt(nodes, list, o);
      if o == at {
        assert list'[Before(i, n + 1)] == x;
      } else {
        assert list[o] != list[at];
      }
    }
  }

  lemma LinkedCircle(nodes: seq<PriceLevel>, list: seq<nat>, head: int, x: nat, k: nat,
                     nodes': seq<PriceLevel>, list': seq<nat>)
    requires Circle(nodes, list, head) && Distinct(list)
    requires x < |nodes| && x !in list && list != [] && k <= |list|
    requires LinkedBefore(nodes, x, Target(list, k), nodes') && InsertedAt(list, k, x, list')
    ensures Circle(nodes', list', if k == 0 then x else head)
  {
    forall i: nat | i < |list'|
      ensures LinksAt(nodes', list', i)
    {
      LinkedNext(nodes, list, head, x, k, nodes', list', i);
      LinkedPrev(nodes, list, head, x, k, nodes', list', i);
    }
  }

  lemma LinkedBestFirst(side: Side, nodes: seq<PriceLevel>, list: seq<nat>, x: nat, k: nat,
                        nodes': seq<PriceLevel>, list': seq<nat>)
    requires x < |nodes| && list != [] && k <= |list|
    requires forall i: nat :: i < |list| ==> list[i] < |nodes|
    requires LinkedBefore(nodes, x, Target(list, k), nodes') && InsertedAt(list, k, x, list')
    requires BestFirst(side, nodes, list)
    requires forall i: nat :: i < k ==> Better(side, nodes[list[i]].price, nodes[x].price)
    requires k < |list| ==> Better(side, nodes[x].price, nodes[list[k]].price)
    ensures forall i: nat :: i < |list'| ==> list'[i] < |nodes'|
    ensures BestFirst(side, nodes', list')
  {
    forall i: nat, j: nat | i < j < |list'|
      ensures list'[i] < |nodes'| && list'[j] < |nodes'|
      ensures Better(side, nodes'[list'[i]].price, nodes'[list'[j]].price)
    {
      if i == k {
        assert list'[j] == list[j - 1];
      } else {
        assert list'[i] == list[if i < k then i else i - 1];
        if j != k { assert list'[j] == list[if j < k then j else j - 1]; }
      }
    }
    assert list'[k] == x;
  }

  lemma LinkedIndexed(nodes: seq<PriceLevel>, list: seq<nat>, x: nat, k: nat, nodes': seq<PriceLevel>, list': seq<nat>,
                      at: map<int, nat>, rank: map<int, nat>)
    returns (rank': map<int, nat>)
    requires x < |nodes| && k <= |list| && |nodes'| == |nodes|
    requires forall i: nat :: i < |nodes| ==> nodes'[i].price == nodes[i].price
    requires forall i: nat :: i < |list| ==> list[i] < |nodes|
    requires InsertedAt(list, k, x, list')
    requires forall i: nat :: i < |list'| ==> list'[i] < |nodes'|
    requires Indexed(nodes, list, at, rank) && nodes[x].price !in at
    ensures Indexed(nodes', list', at[nodes[x].price := x], rank')
  {
    var at' := at[nodes[x].price := x];
    rank' := RankWith(rank, k, nodes[x].price);
    forall i: nat | i < |list'|
      ensures nodes'[list'[i]].price in at' && at'[nodes'[list'[i]].price] == list'[i]
      ensures nodes'[list'[i]].price in rank' && rank'[nodes'[list'[i]].price] == i
    {
      if i != k {
        assert list'[i] == list[if i < k then i else i - 1];
      }
    }
    forall p | p in at' ensures Ranked(nodes', list', at', rank', p) {
      if p != nodes[x].price { assert Ranked(nodes, list, at, rank, p); }
    }
  }

  /** Linking block x, already filled in, at the sorted place of its price keeps the list sorted. */
  lemma LinkedIn(side: Side, nodes: seq<PriceLevel>, list: seq<nat>, head: int, at: map<int, nat>, rank: map<int, nat>,
                 x: nat, k: nat, nodes': seq<PriceLevel>, list': seq<nat>)
    returns (rank': map<int, nat>)
    requires Sorted(side, nodes, list, head, at, rank)
    requires x < |nodes| && nodes[x].price !in at
    requires list != [] && k <= |list|
    requires forall i: nat :: i < k ==> Better(side, nodes[list[i]].price, nodes[x].price)
    requires k < |list| ==> !Better(side, nodes[list[k]].price, nodes[x].price)
    requires LinkedBefore(nodes, x, Target(list, k), nodes') && InsertedAt(list, k, x, list')
    ensures Sorted(side, nodes', list', if k == 0 then x else head, at[nodes[x].price := x], rank')
  {
    assert x !in list;
    LinkedCircle(nodes, list, head, x, k, nodes', list');
    if k < |list| { assert nodes[list[k]].price in at; }
    LinkedBestFirst(side, nodes, list, x, k, nodes', list');
    rank' := LinkedIndexed(nodes, list, x, k, nodes', list', at, rank);
  }

  /** The first level of a side forms a circle by itself. */
  lemma LinkedAlone(side: Side, nodes: seq<PriceLevel>, at: map<int, nat>, rank: map<int, nat>,
                    x: nat, nodes': seq<PriceLevel>)
    requires Sorted(side, nodes, [], NULL, at, rank) && |nodes'| == |nodes| && x < |nodes|
    requires nodes'[x].next == x && nodes'[x].prev == x
    ensures Sorted(side, nodes', [x], x, at[nodes'[x].price := x], map[nodes'[x].price := 0])
  {
    assert forall p :: p in at ==> Ranked(nodes, [], at, rank, p);
    assert forall p :: p !in at;
    assert LinksAt(nodes', [x], 0);
    assert Ranked(nodes', [x], at[nodes'[x].price := x], map[nodes'[x].price := 0], nodes'[x].price);
  }

  /** `r` is `nodes` with the neighbours of x linked to each other; only links change. */
  ghost predicate Unlinked(nodes: seq<PriceLevel>, x: nat, r: seq<PriceLevel>)
    requires x < |nodes|
  {
    && SameData(nodes, r)
    && (forall i: nat :: i < |nodes| && i != x ==>
          && r[i].next == (if i == nodes[x].prev then nodes[x].next else nodes[i].next)
          && r[i].prev == (if i == nodes[x].next then nodes[x].prev else nodes[i].prev))
  }

  lemma UnlinkedLinks(nodes: seq<PriceLevel>, list: seq<nat>, head: int, k: nat,
                      nodes': seq<PriceLevel>, list': seq<nat>, i: nat)
    requires Circle(nodes, list, head) && Distinct(list)
    requires k < |list| && Unlinked(nodes, list[k], nodes') && RemovedAt(list, k, list')
    requires i < |list'|
    ensures LinksAt(nodes', list', i)
  {
    var n := |list|;
    var x := list[k];
    var o: nat := if i < k then i else i + 1;
    assert list'[i] == list[o] && list[o] != x;
    assert LinksAt(nodes, list, k) && LinksAt(nodes, list, o);
    if o == Before(k, n) {
      assert list'[Next(i, n - 1)] == list[Next(k, n)];
    } else {
      assert list[o] != list[Before(k, n)];
      assert list'[Next(i, n - 1)] == list[Next(o, n)];
    }
    if o == Next(k, n) {
      assert list'[Before(i, n - 1)] == list[Before(k, n)];
    } else {
      assert list[o] != list[Next(k, n)];
      assert list'[Before(i, n - 1)] == list[Before(o, n)];
    }
  }

  lemma UnlinkedCircle(nodes: seq<PriceLevel>, list: seq<nat>, head: int, k: nat,
                       nodes': seq<PriceLevel>, list': seq<nat>)
    requires Circle(nodes, list, head) && Distinct(list)
    requires k < |list| && Unlinked(nodes, list[k], nodes') && RemovedAt(list, k, list')
    ensures Circle(nodes', list', if |list| == 1 then NULL else if k == 0 then list[1] else head)
  {
    forall i: nat | i < |list'|
      ensures LinksAt(nodes', list', i)
    {
      UnlinkedLinks(nodes, list, head, k, nodes', list', i);
    }
  }

  lemma UnlinkedIndexed(nodes: seq<PriceLevel>, list: seq<nat>, k: nat, nodes': seq<PriceLevel>, list': seq<nat>,
                        at: map<int, nat>, rank: map<int, nat>)
    returns (rank': map<int, nat>)
    requires k < |list| && |nodes'| == |nodes|
    requires forall i: nat :: i < |nodes| ==> nodes'[i].price == nodes[i].price
    requires forall i: nat :: i < |list| ==> list[i] < |nodes|
    requires RemovedAt(list, k, list')
    requires forall i: nat :: i < |list'| ==> list'[i] < |nodes'|
    requires Indexed(nodes, list, at, rank)
    ensures Indexed(nodes', list', at - {nodes[list[k]].price}, rank')
  {
    var price := nodes[list[k]].price;
    var at' := at - {price};
    rank' := RankWithout(rank, k, price);
    forall i: nat | i < |list'|
      ensures nodes'[list'[i]].price in at' && at'[nodes'[list'[i]].price] == list'[i]
      ensures nodes'[list'[i]].price in rank' && rank'[nodes'[list'[i]].price] == i
    {
      var o: nat := if i < k then i else i + 1;
      assert list'[i] == list[o] && rank[nodes[list[o]].price] == o;
    }
    forall p | p in at' ensures Ranked(nodes', list', at', rank', p) {
      assert Ranked(nodes, list, at, rank, p) && rank[p] != k;
    }
  }

  lemma UnlinkedBestFirst(side: Side, nodes: seq<PriceLevel>, list: seq<nat>, k: nat, nodes': seq<PriceLevel>,
                          list': seq<nat>)
    requires k < |list| && |nodes'| == |nodes|
    requires forall i: nat :: i < |nodes| ==> nodes'[i].price == nodes[i].price
    requires forall i: nat :: i < |list| ==> list[i] < |nodes|
    requires RemovedAt(list, k, list') && BestFirst(side, nodes, list)
    ensures forall i: nat :: i < |list'| ==> list'[i] < |nodes'|
    ensures BestFirst(side, nodes', list')
  {
    forall i: nat, j: nat | i < j < |list'|
      ensures list'[i] < |nodes'| && list'[j] < |nodes'|
      ensures Better(side, nodes'[list'[i]].price, nodes'[list'[j]].price)
    {
      assert list'[i] == list[if i < k then i else i + 1] && list'[j] == list[if j < k then j else j + 1];
    }
    forall i: nat | i < |list'| ensures list'[i] < |nodes'| {
      assert list'[i] == list[if i < k then i else i + 1];
    }
  }

  /** Unlinking the node at position k keeps the rest sorted. */
  lemma LinkedOut(side: Side, nodes: seq<PriceLevel>, list: seq<nat>, head: int, at: map<int, nat>, rank: map<int, nat>,
                  k: nat, nodes': seq<PriceLevel>, list': seq<nat>)
    returns (rank': map<int, nat>)
    requires Sorted(side, nodes, list, head, at, rank)
    requires k < |list| && Unlinked(nodes, list[k], nodes') && RemovedAt(list, k, list')
    ensures Sorted(side, nodes', list', if |list| == 1 then NULL else if k == 0 then list[1] else head,
                   at - {nodes[list[k]].price}, rank')
  {
    UnlinkedCircle(nodes, list, head, k, nodes', list');
    UnlinkedBestFirst(side, nodes, list, k, nodes', list');
    rank' := UnlinkedIndexed(nodes, list, k, nodes', list', at, rank);
  }

  /** Quantities play no part in the list, nor do blocks outside it. */
  lemma SortedFrame(side: Side, nodes: seq<PriceLevel>, list: seq<nat>, head: int,
                    at: map<int, nat>, rank: map<int, nat>, nodes': seq<PriceLevel>)
    requires Sorted(side, nodes, list, head, at, rank) && |nodes'| == |nodes|
    requires forall b: nat :: b < |nodes| && nodes[b].price in at && at[nodes[b].price] == b ==>
      nodes'[b].price == nodes[b].price && nodes'[b].prev == nodes[b].prev && nodes'[b].next == nodes[b].next
    ensures Sorted(side, nodes', list, head, at, rank)
  {
    forall k: nat | k < |list| ensures LinksAt(nodes', list, k) {
      assert LinksAt(nodes, list, k);
    }
    forall p | p in at ensures Ranked(nodes', list, at, rank, p) {
      assert Ranked(nodes, list, at, rank, p);
    }
  }

  class LevelList {
    const side: Side
    /** The storage of the level pool. */
    const nodes: array<PriceLevel>
    /** `levelHead`: the best level, or null. */
    var head: int

    /** The nodes of the circle, best first, and the node of each price. */
    ghost var list: seq<nat>
    ghost var at: map<int, nat>
    ghost var rank: map<int, nat>

    ghost predicate Valid()
      reads this, nodes
    {
      Sorted(side, nodes[..], list, head, at, rank)
    }

    constructor (side: Side, nodes: array<PriceLevel>)
      ensures Valid() && at == map[]
      ensures this.side == side && this.nodes == nodes
    {
      this.side, this.nodes := side, nodes;
      head, list, at, rank := NULL, [], map[], map[];
    }

    /** `insertLevelIntoSortedList` of block x, whose price is not in the list yet. */
    method InsertSorted(x: nat)
      requires Valid() && x < nodes.Length && nodes[x].price !in at
      modifies this, nodes
      ensures Valid()
      ensures at == old(at)[old(nodes[x].price) := x]
      ensures SameData(old(nodes[..]), nodes[..])
    {
      ghost var nodes0 := nodes[..];
      var price := nodes[x].price;
      if head == NULL {
        nodes[x] := nodes[x].(prev := x, next := x);
        LinkedAlone(side, nodes0, at, rank, x, nodes[..]);
        head, list, at, rank := x, [x], at[price := x], map[price := 0];
        return;
      }
      hide Sorted, LinkedBefore;
      var target, k := FindPlace(x);
      var best := Better(side, price, nodes[head].price);
      LinkBefore(x, target);
      ghost var nodes1, list1 := nodes[..], list[..k] + [x] + list[k..];
      ghost var rank1 := LinkedIn(side, nodes0, list, head, at, rank, x, k, nodes1, list1);
      list, at, rank := list1, at[price := x], rank1;
      if best {
        head := x;
      }
      assert nodes[..] == nodes1;
    }

    /** The walk from the best level to the first that is not strictly better; the place after the
        worst level wraps to the head. */
    method FindPlace(x: nat) returns (target: nat, ghost k: nat)
      requires Valid() && x < nodes.Length && nodes[x].price !in at && head != NULL
      ensures list != [] && k <= |list| && target == Target(list, k)
      ensures forall i: nat :: i < |list| ==> list[i] < nodes.Length
      ensures forall i: nat :: i < k ==> Better(side, nodes[list[i]].price, nodes[x].price)
      ensures k < |list| ==> !Better(side, nodes[list[k]].price, nodes[x].price)
      ensures target != x && 0 <= nodes[target].prev < nodes.Length && nodes[target].prev != x
      ensures 0 <= head < nodes.Length && (Better(side, nodes[x].price, nodes[head].price) <==> k == 0)
    {
      ghost var nodes0 := nodes[..];
      target, k := head, 0;
      while Better(side, nodes[target].price, nodes[x].price)
        invariant k < |list| && target == list[k]
        invariant forall i: nat :: i < k ==> Better(side, nodes0[list[i]].price, nodes0[x].price)
        decreases |list| - k
      {
        assert LinksAt(nodes0, list, k);
        target := nodes[target].next;
        k := k + 1;
        if target == head {
          break;
        }
      }
      assert LinksAt(nodes0, list, if k == |list| then 0 else k);
      assert x !in list && nodes0[list[0]].price in at;
    }

    /** The four pointer assignments of the insertion. */
    method LinkBefore(x: nat, target: nat)
      requires x < nodes.Length && target < nodes.Length && x != target
      requires 0 <= nodes[target].prev < nodes.Length && nodes[target].prev != x
      modifies nodes
      ensures LinkedBefore(old(nodes[..]), x, target, nodes[..]) && SameData(old(nodes[..]), nodes[..])
    {
      var last := nodes[target].prev;
      nodes[x] := nodes[x].(prev := last, next := target);
      nodes[last] := nodes[last].(next := x);
      nodes[target] := nodes[target].(prev := x);
    }

    /** `levelHead(side) = nullptr`. */
    method Reset()
      modifies this
      ensures Valid() && at == map[]
    {
      head, list, at, rank := NULL, [], map[], map[];
    }

    /** `removeLevelFromSortedList`. */
    method Remove(x: nat)
      requires Valid() && x < nodes.Length && nodes[x].price in at && at[nodes[x].price] == x
      modifies this, nodes
      ensures Valid()
      ensures at == old(at) - {old(nodes[x].price)}
      ensures SameData(old(nodes[..]), nodes[..])
    {
      ghost var nodes0 := nodes[..];
      assert Ranked(nodes0, list, at, rank, nodes[x].price);
      ghost var k := rank[nodes[x].price];
      assert LinksAt(nodes0, list, k);
      ghost var price := nodes[x].price;
      assert list[k] == x && list[0] == head;
      assert |list| == 1 <==> list[Next(k, |list|)] == x;
      hide Sorted, Circle, BestFirst, Indexed, Unlinked, Ranked;
      var head' := if nodes[x].next == x then NULL else if head == x then nodes[x].next else head;
      Unlink(x);
      ghost var nodes1, list1 := nodes[..], list[..k] + list[k + 1..];
      ghost var rank1 := LinkedOut(side, nodes0, list, head, at, rank, k, nodes1, list1);
      head, list, at, rank := head', list1, at - {price}, rank1;
      assert nodes[..] == nodes1;
    }

    /** The pointer assignments of the removal, which also clear the links of the removed node. */
    method Unlink(x: nat)
      requires x < nodes.Length && 0 <= nodes[x].prev < nodes.Length && 0 <= nodes[x].next < nodes.Length
      requires nodes[x].next == x <==> nodes[x].prev == x
      modifies nodes
      ensures Unlinked(old(nodes[..]), x, nodes[..]) && SameData(old(nodes[..]), nodes[..])
    {
      var node := nodes[x];
      if node.next != x {
        nodes[node.prev] := nodes[node.prev].(next := node.next);
        nodes[node.next] := nodes[node.next].(prev := node.prev);
      }
      nodes[x] := nodes[x].(prev := NULL, next := NULL);
    }
  }
}
