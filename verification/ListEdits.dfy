/** Editing a list of pool blocks at one position. */
module ListEdits {

  ghost predicate Distinct(list: seq<nat>) {
    forall i: nat, j: nat :: i < j < |list| ==> list[i] != list[j]
  }

  /** `r` is `list` with x at position k. */
  ghost predicate InsertedAt(list: seq<nat>, k: nat, x: nat, r: seq<nat>)
    requires k <= |list|
  {
    && |r| == |list| + 1 && r[k] == x
    && (forall i: nat :: i < k ==> r[i] == list[i])
    && (forall i: nat :: k < i <= |list| ==> r[i] == list[i - 1])
  }

  /** `r` is `list` without position k. */
  ghost predicate RemovedAt(list: seq<nat>, k: nat, r: seq<nat>)
    requires k < |list|
  {
    && |r| == |list| - 1
    && (forall i: nat :: i < k ==> r[i] == list[i])
    && (forall i: nat :: k <= i < |r| ==> r[i] == list[i + 1])
  }

  /** Positions from k on move back by one to make room for the key x. */
  ghost function RankWith<K>(rank: map<K, nat>, k: nat, x: K): map<K, nat> {
    (map p | p in rank :: if rank[p] < k then rank[p] else rank[p] + 1)[x := k]
  }

  /** Positions after k move up by one. */
  ghost function RankWithout<K>(rank: map<K, nat>, k: nat, x: K): map<K, nat> {
    map p | p in rank && p != x :: if rank[p] <= k then rank[p] else rank[p] - 1
  }
}
