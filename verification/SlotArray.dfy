/** The open-addressed slot array of src/trading/strategy/market_order_book.h:
    linear probing, deletion by backward shift, no tombstones. */
module SlotArrays {
  import opened Common
  import opened Cyclic

  /** A slot: `Vacant` is the null node pointer, and an entry reset to it loses its key as well. */
  datatype Entry = Vacant | Live(key: int, node: nat)

  /** `indexOf`: masking a key by a power of two is its Euclidean remainder, negative prices included. */
  function Home(key: int, n: nat): (h: nat)
    requires n > 0
    ensures h < n
  {
    key % n
  }

  /** No probe chain crosses a vacant slot, except possibly the slot `hole`. */
  ghost predicate Unbroken(t: seq<Entry>, hole: int)
  {
    forall i: nat, j: nat ::
      i < |t| && j < |t| && t[i].Live? && InArc(Home(t[i].key, |t|), i, j, |t|) ==> t[j].Live? || j == hole
  }

  /** The key k of m sits at slot pos[k]. */
  ghost predicate Placed(t: seq<Entry>, m: map<int, nat>, pos: map<int, nat>, k: int) {
    k in m && k in pos && pos[k] < |t| && t[pos[k]] == Live(k, m[k])
  }

  /** The table holds exactly the entries of m. */
  ghost predicate Holds(t: seq<Entry>, m: map<int, nat>, pos: map<int, nat>)
  {
    && m.Keys == pos.Keys
    && (forall k {:trigger Placed(t, m, pos, k)} :: k in m ==> Placed(t, m, pos, k))
    && (forall i: nat {:trigger t[i]} :: i < |t| && t[i].Live? ==> t[i].key in pos && pos[t[i].key] == i)
  }

  /** Fewer entries than slots leave a vacant slot. */
  lemma VacancyExists(t: seq<Entry>, m: map<int, nat>, pos: map<int, nat>) returns (e: nat)
    requires Holds(t, m, pos) && |m| < |t|
    ensures e < |t| && t[e].Vacant?
  {
    if forall i: nat :: i < |t| ==> t[i].Live? {
      assert Below(|t|) <= pos.Values by {
        forall i: nat | i in Below(|t|) ensures i in pos.Values {
          assert t[i].Live? && t[i].key in pos;
        }
      }
      SubsetSize(Below(|t|), pos.Values);
      ValuesNoMoreThanKeys(pos);
      assert false;
    }
    e :| 0 <= e < |t| && t[e].Vacant?;
  }

  /** The state of the compaction loop: slots (hole, probe] are occupied and examined, no chain of
      theirs crosses the hole, and the vacant slot e still lies ahead. */
  ghost predicate Sifting(t: seq<Entry>, m: map<int, nat>, pos: map<int, nat>, hole: nat, probe: nat, e: nat)
  {
    && hole < |t| && probe < |t| && e < |t|
    && Holds(t, m, pos) && Unbroken(t, hole)
    && t[hole].Vacant? && t[e].Vacant? && hole != e
    && Dist(hole, probe, |t|) < Dist(hole, e, |t|)
    && (forall i: nat :: i < |t| && t[i].Live? && Dist(hole, i, |t|) <= Dist(hole, probe, |t|)
                         ==> !InArc(Home(t[i].key, |t|), i, hole, |t|))
  }

  /** A vacant slot after the examined ones ends the loop: no chain crosses the hole any more. */
  lemma SiftEnds(t: seq<Entry>, m: map<int, nat>, pos: map<int, nat>, hole: nat, probe: nat, e: nat)
    requires Sifting(t, m, pos, hole, probe, e)
    requires t[Next(probe, |t|)].Vacant?
    ensures Unbroken(t, -1)
  {
    var n := |t|;
    var end := Next(probe, n);
    forall i: nat | i < n && t[i].Live?
      ensures !InArc(Home(t[i].key, n), i, hole, n)
    {
      if Dist(hole, i, n) > Dist(hole, probe, n) {
        assert Dist(hole, end, n) == Dist(hole, probe, n) + 1 && !InArc(Home(t[i].key, n), i, end, n);
      }
    }
  }

  /** An entry whose home lies cyclically in (hole, probe] stays where it is. */
  lemma SiftSkips(t: seq<Entry>, m: map<int, nat>, pos: map<int, nat>, hole: nat, last: nat, e: nat)
    requires Sifting(t, m, pos, hole, last, e)
    requires var probe := Next(last, |t|);
      t[probe].Live? && !InArc(Home(t[probe].key, |t|), probe, hole, |t|)
    ensures Sifting(t, m, pos, hole, Next(last, |t|), e)
  {
    var n := |t|;
    var probe := Next(last, n);
    assert Dist(hole, probe, n) == Dist(hole, last, n) + 1;
    forall i: nat | i < n && t[i].Live? && Dist(hole, i, n) <= Dist(hole, probe, n)
      ensures !InArc(Home(t[i].key, n), i, hole, n)
    {
      if i != probe { assert Dist(hole, i, n) <= Dist(hole, last, n); }
    }
  }

  lemma MoveHolds(t: seq<Entry>, m: map<int, nat>, pos: map<int, nat>, hole: nat, probe: nat)
    requires Holds(t, m, pos) && hole < |t| && probe < |t| && t[hole].Vacant? && t[probe].Live?
    ensures Holds(t[hole := t[probe]][probe := Vacant], m, pos[t[probe].key := hole])
  {
    var u, pos' := t[hole := t[probe]][probe := Vacant], pos[t[probe].key := hole];
    assert Placed(t, m, pos, t[probe].key);
    forall k | k in m ensures Placed(u, m, pos', k) {
      assert Placed(t, m, pos, k);
    }
  }

  /** Any other entry moves into the hole, and its slot becomes the hole. */
  lemma SiftMoves(t: seq<Entry>, m: map<int, nat>, pos: map<int, nat>, hole: nat, last: nat, e: nat)
    requires Sifting(t, m, pos, hole, last, e)
    requires var probe := Next(last, |t|);
      t[probe].Live? && InArc(Home(t[probe].key, |t|), probe, hole, |t|)
    ensures var probe := Next(last, |t|);
      Sifting(t[hole := t[probe]][probe := Vacant], m, pos[t[probe].key := hole], probe, probe, e)
  {
    var n := |t|;
    var probe := Next(last, n);
    var moved := t[probe];
    var u := t[hole := moved][probe := Vacant];
    MoveHolds(t, m, pos, hole, probe);
    forall i: nat, j: nat | i < n && j < n && u[i].Live? && InArc(Home(u[i].key, n), i, j, n)
      ensures u[j].Live? || j == probe
    {
      if i == hole {
        assert InArc(Home(moved.key, n), probe, j, n);
      } else if j != probe && j != hole {
        assert t[i].Live? && t[j].Live?;
      }
    }
  }

  /** Vacating the slot of a key opens a hole that a sift from there may close. */
  lemma SiftStarts(t: seq<Entry>, m: map<int, nat>, pos: map<int, nat>, key: int) returns (e: nat)
    requires Holds(t, m, pos) && Unbroken(t, -1) && key in m && |m| < |t|
    ensures key in pos && pos[key] < |t|
    ensures Sifting(t[pos[key] := Vacant], m - {key}, pos - {key}, pos[key], pos[key], e)
  {
    e := VacancyExists(t, m, pos);
    assert Placed(t, m, pos, key);
    var index := pos[key];
    var u := t[index := Vacant];
    forall k | k in m - {key} ensures Placed(u, m - {key}, pos - {key}, k) {
      assert Placed(t, m, pos, k);
    }
  }

  class SlotArray {
    const entries: array<Entry>
    var liveCount: nat

    /** The abstract contents, and where each key sits. */
    ghost var M: map<int, nat>
    ghost var pos: map<int, nat>

    ghost predicate Valid()
      reads this, entries
    {
      && Holds(entries[..], M, pos)
      && Unbroken(entries[..], -1)
      && liveCount == |M|
      && liveCount < entries.Length
    }

    constructor (slots: nat)
      requires slots > 0
      ensures Valid() && fresh(entries) && M == map[] && entries.Length == slots
    {
      entries := new Entry[slots](_ => Vacant);
      liveCount, M, pos := 0, map[], map[];
    }

    method LiveCount() returns (count: nat)
      requires Valid()
      ensures count == |M|
    {
      count := liveCount;
    }

    /** `find` is map lookup. */
    method Find(key: int) returns (node: Option<nat>)
      requires Valid()
      ensures node == if key in M then Some(M[key]) else None
    {
      var index, found := Probe(key);
      node := if found then Some(entries[index].node) else None;
    }

    /** The common probe loop: stops at the slot of `key`, or at the vacant end of its chain. */
    method Probe(key: int) returns (index: nat, found: bool)
      requires Valid()
      ensures found == (key in M)
      ensures index < entries.Length
      ensures found ==> index == pos[key] && entries[index] == Live(key, M[key])
      ensures !found ==> entries[index].Vacant?
      ensures !found ==>
        forall j: nat :: j < entries.Length && InArc(Home(key, entries.Length), index, j, entries.Length) ==>
          entries[j].Live?
    {
      var n := entries.Length;
      ghost var t := entries[..];
      ghost var e := VacancyExists(t, M, pos);
      index := Home(key, n);
      ghost var steps := 0;
      while entries[index].Live? && entries[index].key != key
        invariant index < n && Dist(Home(key, n), index, n) == steps <= Dist(Home(key, n), e, n)
        invariant forall j: nat :: j < n && InArc(Home(key, n), index, j, n) ==> t[j].Live? && t[j].key != key
        decreases n - steps
      {
        index := Next(index, n);
        steps := steps + 1;
      }
      found := entries[index].Live?;
      if found {
        assert Placed(t, M, pos, key);
      } else {
        assert key in M ==> Placed(t, M, pos, key);
      }
    }

    /** Callers enforce the load ceiling (one vacant slot remains) and insert only absent keys. */
    method Insert(key: int, node: nat)
      requires Valid() && key !in M && |M| + 1 < entries.Length
      modifies this, entries
      ensures Valid() && M == old(M)[key := node]
    {
      var index, found := Probe(key);
      ghost var t := entries[..];
      entries[index] := Live(key, node);
      M, pos := M[key := node], pos[key := index];
      liveCount := liveCount + 1;
      assert entries[..] == t[index := Live(key, node)];
      forall k | k in M ensures Placed(entries[..], M, pos, k) {
        if k != key { assert Placed(t, old(M), old(pos), k); }
      }
    }

    /** `erase`: removes exactly `key`, closing the hole by shifting back entries whose chain crosses it. */
    method Erase(key: int) returns (removed: Option<nat>)
      requires Valid()
      modifies this, entries
      ensures Valid()
      ensures removed == if key in old(M) then Some(old(M)[key]) else None
      ensures M == old(M) - {key}
    {
      var index, found := Probe(key);
      if !found {
        return None;
      }
      removed := Some(entries[index].node);
      ghost var t := entries[..];
      ghost var e := SiftStarts(t, M, pos, key);
      hide Holds, Unbroken, Sifting;
      entries[index] := Vacant;
      M, pos := M - {key}, pos - {key};
      assert entries[..] == t[index := Vacant];
      Compact(index, e);
      liveCount := liveCount - 1;
    }

    /** The compaction loop of `erase`: refills the hole until the end of the run of occupied slots. */
    method Compact(index: nat, ghost e: nat)
      requires Sifting(entries[..], M, pos, index, index, e)
      modifies this`pos, entries
      ensures Holds(entries[..], M, pos) && Unbroken(entries[..], -1)
    {
      var n := entries.Length;
      var hole, probe := index, index;
      while true
        invariant Sifting(entries[..], M, pos, hole, probe, e)
        decreases Dist(probe, e, n)
      {
        ghost var last := probe;
        ghost var t := entries[..];
        probe := Next(probe, n);
        if entries[probe].Vacant? {
          SiftEnds(t, M, pos, hole, last, e);
          break;
        }
        var shift := ChainCrossesHole(Home(entries[probe].key, n), hole, probe, n);
        if shift {
          SiftMoves(t, M, pos, hole, last, e);
          entries[hole] := entries[probe];
          entries[probe] := Vacant;
          pos := pos[t[probe].key := hole];
          assert entries[..] == t[hole := t[probe]][probe := Vacant];
          hole := probe;
        } else {
          SiftSkips(t, M, pos, hole, last, e);
        }
      }
    }

    /** The masked comparison of the source: true when `home` is not cyclically inside (hole, probe]. */
    static method ChainCrossesHole(home: nat, hole: nat, probe: nat, n: nat) returns (crosses: bool)
      requires home < n && hole < n && probe < n && hole != probe
      ensures crosses == InArc(home, probe, hole, n)
    {
      MaskedDifference(hole, home, n);
      MaskedDifference(hole, probe, n);
      crosses := (home - hole - 1) % n >= (probe - hole) % n;
    }

    method Clear()
      requires Valid()
      modifies this, entries
      ensures Valid() && M == map[]
    {
      for i := 0 to entries.Length
        invariant forall j :: 0 <= j < i ==> entries[j].Vacant?
      {
        entries[i] := Vacant;
      }
      liveCount, M, pos := 0, map[], map[];
    }
  }
}
