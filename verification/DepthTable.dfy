/** The price-slot hash array of one side of the Binance depth book: linear probing with tombstones and
    rebuilds (src/trading/venue/binance/binance_depth_book.cpp). */
module DepthTables {
  import opened Common
  import opened Cyclic
  import opened DepthLists

  /** A slot: the null pointer, the deletion sentinel, or a node (its pool block). */
  datatype Slot = Null | Tombstone | Node(block: nat)

  /** `priceHash`, an arbitrary function of the price. */
  type Hash = real -> nat

  /** `slotHome`: the hash masked to the slot count, a power of two. */
  function Home(hash: Hash, p: real, n: nat): (h: nat)
    requires n > 0
    ensures h < n
  {
    hash(p) % n
  }

  /** The price p has the node at[p], held by slot slotOf[p]. */
  ghost predicate Placed(t: seq<Slot>, at: map<real, nat>, slotOf: map<real, nat>, keys: seq<real>, p: real) {
    && p in at && p in slotOf && slotOf[p] < |t| == |keys|
    && t[slotOf[p]] == Node(at[p]) && keys[slotOf[p]] == p
  }

  /** Slot i, when it holds a node, holds the one of price keys[i]. */
  ghost predicate Backed(t: seq<Slot>, at: map<real, nat>, slotOf: map<real, nat>, keys: seq<real>, i: nat) {
    i < |t| && |keys| == |t| && (t[i].Node? ==> keys[i] in at && keys[i] in slotOf && slotOf[keys[i]] == i)
  }

  ghost predicate Holds(t: seq<Slot>, at: map<real, nat>, slotOf: map<real, nat>, keys: seq<real>) {
    && at.Keys == slotOf.Keys && |keys| == |t|
    && (forall p {:trigger Placed(t, at, slotOf, keys, p)} :: p in at ==> Placed(t, at, slotOf, keys, p))
    && (forall i: nat {:trigger Backed(t, at, slotOf, keys, i)} :: i < |t| ==> Backed(t, at, slotOf, keys, i))
  }

  /** No probe chain of a node meets a null slot. */
  ghost predicate Unbroken(t: seq<Slot>, keys: seq<real>, hash: Hash)
    requires |keys| == |t| > 0
  {
    forall i: nat, j: nat {:trigger t[i], t[j]} ::
      i < |t| && j < |t| && t[i].Node? && InArc(Home(hash, keys[i], |t|), i, j, |t|) ==> t[j] != Null
  }

  ghost function Tombstones(t: seq<Slot>): set<nat> {
    set i: nat | i < |t| && t[i] == Tombstone
  }

  /** Nodes and tombstones never fill the table, so every probe meets a null slot. */
  lemma NullExists(t: seq<Slot>, at: map<real, nat>, slotOf: map<real, nat>, keys: seq<real>) returns (e: nat)
    requires Holds(t, at, slotOf, keys)
    requires |at| + |Tombstones(t)| < |t|
    ensures e < |t| && t[e] == Null
  {
    if forall i: nat :: i < |t| ==> t[i] != Null {
      forall i: nat | i in Below(|t|) ensures i in slotOf.Values + Tombstones(t) {
        assert Backed(t, at, slotOf, keys, i);
        if t[i].Node? { assert keys[i] in slotOf; }
      }
      SubsetSize(Below(|t|), slotOf.Values + Tombstones(t));
      ValuesNoMoreThanKeys(slotOf);
      assert false;
    }
    e :| 0 <= e < |t| && t[e] == Null;
  }

  /** Placing a new node at a reusable slot that ends its own chain prefix keeps the table. */
  lemma Inserted(t: seq<Slot>, at: map<real, nat>, slotOf: map<real, nat>, keys: seq<real>, hash: Hash,
                 p: real, b: nat, i: nat)
    requires |t| > 0
    requires |keys| == |t| && Holds(t, at, slotOf, keys) && Unbroken(t, keys, hash)
    requires p !in at && i < |t| && !t[i].Node?
    requires forall j: nat :: j < |t| && InArc(Home(hash, p, |t|), i, j, |t|) ==> t[j] != Null
    ensures Holds(t[i := Node(b)], at[p := b], slotOf[p := i], keys[i := p])
    ensures Unbroken(t[i := Node(b)], keys[i := p], hash)
    ensures Tombstones(t[i := Node(b)]) == Tombstones(t) - {i}
  {
    var t', at', slotOf', keys' := t[i := Node(b)], at[p := b], slotOf[p := i], keys[i := p];
    forall q | q in at' ensures Placed(t', at', slotOf', keys', q) {
      if q != p { assert Placed(t, at, slotOf, keys, q); }
    }
    forall j: nat | j < |t'| ensures Backed(t', at', slotOf', keys', j) {
      if j != i { assert Backed(t, at, slotOf, keys, j); }
    }
  }

  /** Turning a node into a tombstone keeps every chain. */
  lemma Killed(t: seq<Slot>, at: map<real, nat>, slotOf: map<real, nat>, keys: seq<real>, hash: Hash, p: real)
    requires |t| > 0
    requires |keys| == |t| && Holds(t, at, slotOf, keys) && Unbroken(t, keys, hash) && p in at
    ensures Placed(t, at, slotOf, keys, p)
    ensures var i := slotOf[p];
      && Holds(t[i := Tombstone], at - {p}, slotOf - {p}, keys)
      && Unbroken(t[i := Tombstone], keys, hash)
      && Tombstones(t[i := Tombstone]) == Tombstones(t) + {i}
  {
    assert Placed(t, at, slotOf, keys, p);
    var i := slotOf[p];
    var t', at', slotOf' := t[i := Tombstone], at - {p}, slotOf - {p};
    forall q | q in at' ensures Placed(t', at', slotOf', keys, q) {
      assert Placed(t, at, slotOf, keys, q);
      assert Backed(t, at, slotOf, keys, i);
    }
    forall j: nat | j < |t'| ensures Backed(t', at', slotOf', keys, j) {
      assert Backed(t, at, slotOf, keys, j);
    }
  }

  /** All slots from `from` up to `to`, around the table, hold nodes. */
  ghost predicate NodesBetween(t: seq<Slot>, from: nat, to: nat)
    requires from < |t| && to < |t|
  {
    forall j: nat :: j < |t| && InArc(from, to, j, |t|) ==> t[j].Node?
  }

  lemma OneMoreNode(t: seq<Slot>, from: nat, to: nat)
    requires from < |t| && to < |t| && NodesBetween(t, from, to) && t[to].Node? && Next(to, |t|) != from
    ensures NodesBetween(t, from, Next(to, |t|))
  {
  }

  class DepthTable {
    const slots: array<Slot>
    const hash: Hash
    var tombstones: nat

    ghost var at: map<real, nat>
    ghost var slotOf: map<real, nat>
    ghost var keys: seq<real>

    /** The counter never undercounts the tombstones, although reuse does not decrement it. */
    ghost predicate Valid()
      reads this, slots
    {
      && slots.Length > 0
      && Holds(slots[..], at, slotOf, keys)
      && Unbroken(slots[..], keys, hash)
      && |Tombstones(slots[..])| <= tombstones
    }

    constructor (n: nat, hash: Hash)
      requires n > 0
      ensures Valid() && fresh(slots) && at == map[] && tombstones == 0 && slots.Length == n && this.hash == hash
    {
      slots := new Slot[n](_ => Null);
      this.hash := hash;
      tombstones, at, slotOf, keys := 0, map[], map[], seq(n, _ => 0.0);
      new;
      ghost var t := slots[..];
      forall i: nat | i < |t| ensures Backed(t, at, slotOf, keys, i) {
      }
      assert Tombstones(t) == {};
    }

    /** The probe loop of `findNode`, which compares the price of each node it meets. */
    method Find(p: real, nodes: array<DepthNode>) returns (node: Option<nat>)
      requires Valid() && |at| + tombstones < slots.Length
      requires forall q :: q in at ==> at[q] < nodes.Length && nodes[at[q]].price == q
      ensures node == if p in at then Some(at[p]) else None
    {
      ghost var t := slots[..];
      var n := slots.Length;
      ghost var e := NullExists(t, at, slotOf, keys);
      ghost var start := Home(hash, p, n);
      hide Home;
      var index: nat := Home(hash, p, n);
      while true
        invariant index < n && Dist(start, index, n) <= Dist(start, e, n)
        invariant forall j: nat :: j < n && InArc(start, index, j, n) ==> t[j] != Null && (t[j].Node? ==> keys[j] != p)
        decreases n - Dist(start, index, n)
      {
        var entry := slots[index];
        if entry == Null {
          assert p in at ==> Placed(t, at, slotOf, keys, p);
          return None;
        }
        assert Backed(t, at, slotOf, keys, index);
        if entry.Node? {
          assert Placed(t, at, slotOf, keys, keys[index]);
          if nodes[entry.block].price == p {
            return Some(entry.block);
          }
        }
        index := Next(index, n);
      }
    }

    /** The probing of `insertSlot`: it goes on to the null slot, but the first tombstone met is reused, so that
        the target is the first slot of the chain that holds no node. */
    method FreeSlot(p: real) returns (target: nat)
      requires Valid() && |at| + tombstones < slots.Length
      ensures target < slots.Length && !slots[target].Node?
      ensures NodesBetween(slots[..], Home(hash, p, slots.Length), target)
    {
      ghost var t := slots[..];
      var n := slots.Length;
      ghost var e := NullExists(t, at, slotOf, keys);
      ghost var start := Home(hash, p, n);
      hide Home, Holds, Unbroken, Tombstones;
      assert NodesBetween(t, start, start);
      hide NodesBetween;
      var index: nat := Home(hash, p, n);
      var reusable: Option<nat> := None;
      while slots[index] != Null
        invariant index < n && Dist(start, index, n) <= Dist(start, e, n)
        invariant forall j: nat :: j < n && InArc(start, index, j, n) ==> t[j] != Null
        invariant reusable == None ==> NodesBetween(t, start, index)
        invariant reusable.Some? ==>
          reusable.value < n && t[reusable.value] == Tombstone && NodesBetween(t, start, reusable.value)
        decreases n - Dist(start, index, n)
      {
        if slots[index] == Tombstone && reusable == None {
          reusable := Some(index);
        }
        if t[index].Node? && reusable == None { OneMoreNode(t, start, index); }
        index := Next(index, n);
      }
      target := if reusable.Some? then reusable.value else index;
    }

    /** `insertSlot`; a reused tombstone stays in the counter. */
    method Insert(p: real, block: nat) returns (target: nat)
      requires Valid() && p !in at && |at| + tombstones < slots.Length
      modifies this, slots
      ensures Valid() && tombstones == old(tombstones)
      ensures at == old(at)[p := block] && slotOf == old(slotOf)[p := target] && target < slots.Length
    {
      assert |keys| == slots.Length;
      hide Home, Holds, Unbroken, Tombstones;
      ghost var t := slots[..];
      target := FreeSlot(p);
      Inserted(t, at, slotOf, keys, hash, p, block, target);
      slots[target] := Node(block);
      assert slots[..] == t[target := Node(block)];
      SubsetSize(Tombstones(slots[..]), Tombstones(t));
      at, slotOf, keys := at[p := block], slotOf[p := target], keys[target := p];
    }

    /** The slot of a removed price becomes a tombstone. */
    method Kill(p: real, slot: nat)
      requires Valid() && p in at && slotOf[p] == slot && slot < slots.Length
      modifies this, slots
      ensures Valid() && tombstones == old(tombstones) + 1
      ensures at == old(at) - {p} && slotOf == old(slotOf) - {p}
    {
      ghost var t := slots[..];
      Killed(t, at, slotOf, keys, hash, p);
      slots[slot] := Tombstone;
      assert slots[..] == t[slot := Tombstone];
      tombstones := tombstones + 1;
      at, slotOf := at - {p}, slotOf - {p};
    }

    /** `slots.fill(nullptr)`. */
    method Fill()
      requires slots.Length > 0
      modifies this, slots
      ensures Valid() && tombstones == 0 && at == map[] && slotOf == map[]
    {
      for i := 0 to slots.Length
        invariant forall j :: 0 <= j < i ==> slots[j] == Null
      {
        slots[i] := Null;
      }
      tombstones, at, slotOf, keys := 0, map[], map[], seq(slots.Length, _ => 0.0);
      ghost var t := slots[..];
      forall i: nat | i < |t| ensures Backed(t, at, slotOf, keys, i) {
      }
      assert Tombstones(t) == {};
    }
  }
}
