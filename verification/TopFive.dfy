/** Depth aggregation of the Simex adapter (`aggregate` in src/trading/venue/simex/simex_venue_adapter.cpp): the
    five best price levels, kept in a small sorted array while the resting orders go by in any order. */
module TopFive {
  import opened Common
  import opened BookSpec

  datatype Level = Level(price: int, qty: nat)

  /** A resting order's contribution. */
  datatype Part = Part(price: int, qty: nat)

  // ----- what is aggregated ----------------------------------------------------------------------------------

  /** The whole quantity at each price. */
  function Total(parts: seq<Part>): map<int, nat> {
    if parts == [] then map[] else Plus(Total(parts[..|parts| - 1]), parts[|parts| - 1])
  }

  function Plus(m: map<int, nat>, p: Part): map<int, nat> {
    m[p.price := p.qty + if p.price in m then m[p.price] else 0]
  }

  /** Best price first, without repetition. */
  ghost predicate BestFirst(side: Side, s: seq<Level>) {
    forall i, j :: 0 <= i < j < |s| ==> Better(side, s[i].price, s[j].price)
  }

  ghost predicate Has(s: seq<Level>, price: int) { exists i :: 0 <= i < |s| && s[i].price == price }

  /** The levels are the n best of the map, with their whole quantities: all of them if there are no more than n. */
  ghost predicate IsTopOf(side: Side, s: seq<Level>, m: map<int, nat>, n: nat) {
    && BestFirst(side, s) && |s| <= n
    && (forall i :: 0 <= i < |s| ==> s[i].price in m && m[s[i].price] == s[i].qty)
    && (forall p :: p in m && !Has(s, p) ==> |s| == n && forall i :: 0 <= i < |s| ==> Better(side, s[i].price, p))
  }

  // ----- one contribution ------------------------------------------------------------------------------------

  /** The first position whose price is not better (`std::lower_bound`). */
  ghost predicate IsLowerBound(side: Side, s: seq<Level>, price: int, k: nat) {
    && k <= |s|
    && (forall i :: 0 <= i < k ==> Better(side, s[i].price, price))
    && (forall i :: k <= i < |s| ==> !Better(side, s[i].price, price))
  }

  /** The levels after a contribution, k being the price's position among at most n. */
  function Placed(s: seq<Level>, k: nat, p: Part, n: nat): seq<Level>
    requires k <= |s| <= n
  {
    if k < |s| && s[k].price == p.price then s[k := Level(p.price, s[k].qty + p.qty)]
    else if |s| < n then s[..k] + [Level(p.price, p.qty)] + s[k..]
    else if k == n then s
    else s[..k] + [Level(p.price, p.qty)] + s[k..n - 1]
  }

  /** A contribution keeps the order. */
  lemma PlacedIsBestFirst(side: Side, s: seq<Level>, k: nat, p: Part, n: nat)
    requires BestFirst(side, s) && IsLowerBound(side, s, p.price, k) && |s| <= n
    ensures BestFirst(side, Placed(s, k, p, n))
  {
    var t := Placed(s, k, p, n);
    if !(k < |s| && s[k].price == p.price) && (|s| < n || k < n) {
      assert forall i :: 0 <= i < |t| ==>
        t[i] == if i < k then s[i] else if i == k then Level(p.price, p.qty) else s[i - 1];
    }
  }

  /** A contribution to a level that is kept. */
  lemma MergedKeepsTop(side: Side, s: seq<Level>, m: map<int, nat>, k: nat, p: Part, n: nat)
    requires IsTopOf(side, s, m, n) && k < |s| && s[k].price == p.price
    ensures IsTopOf(side, Placed(s, k, p, n), Plus(m, p), n)
  {
    var t := Placed(s, k, p, n);
    forall i | 0 <= i < |s| ensures Has(t, s[i].price) {
      assert t[i].price == s[i].price;
    }
  }

  /** Where the levels are after a new price came in. */
  lemma InsertedAt(s: seq<Level>, k: nat, p: Part, n: nat)
    requires k <= |s| <= n && k < n && (k < |s| ==> s[k].price != p.price)
    ensures var t := Placed(s, k, p, n);
      && |t| == (if |s| < n then |s| + 1 else n) && t[k] == Level(p.price, p.qty)
      && (forall i :: 0 <= i < k ==> t[i] == s[i]) && (forall i :: k < i < |t| ==> t[i] == s[i - 1])
  {
  }

  lemma InsertedHas(s: seq<Level>, t: seq<Level>, k: nat, q: int)
    requires k <= |s| && k < |t| && |s| <= |t| <= |s| + 1
    requires (forall i :: 0 <= i < k ==> t[i] == s[i]) && (forall i :: k < i < |t| ==> t[i] == s[i - 1])
    ensures Has(t, q) ==> q == t[k].price || Has(s, q)
    ensures Has(s, q) ==> Has(t, q) || (|t| == |s| && s[|s| - 1].price == q)
  {
    if i :| 0 <= i < |t| && t[i].price == q && i != k {
      var j := if i < k then i else i - 1;
      assert t[i] == s[j];
    }
    if i :| 0 <= i < |s| && s[i].price == q && (i < k || i + 1 < |t|) {
      var j := if i < k then i else i + 1;
      assert t[j] == s[i];
    }
  }

  /** A new price among the best; the last level goes when there is no room for it. */
  lemma InsertedKeepsTop(side: Side, s: seq<Level>, m: map<int, nat>, k: nat, p: Part, n: nat)
    requires IsTopOf(side, s, m, n) && IsLowerBound(side, s, p.price, k) && k < n && !Has(s, p.price)
    ensures IsTopOf(side, Placed(s, k, p, n), Plus(m, p), n)
  {
    var t := Placed(s, k, p, n);
    assert k < |s| ==> s[k].price != p.price;
    PlacedIsBestFirst(side, s, k, p, n);
    InsertedAt(s, k, p, n);
    hide Placed;
    assert p.price !in m;
    forall q | q in Plus(m, p) && !Has(t, q)
      ensures |t| == n && forall i :: 0 <= i < |t| ==> Better(side, t[i].price, q)
    {
      InsertedHas(s, t, k, q);
      assert Has(t, t[k].price) && q in m;
    }
  }

  /** A contribution keeps the levels the best ones: an evicted price is worse than n others and stays so. */
  lemma PlacedKeepsTop(side: Side, s: seq<Level>, m: map<int, nat>, k: nat, p: Part, n: nat)
    requires n > 0 && IsTopOf(side, s, m, n) && IsLowerBound(side, s, p.price, k)
    ensures IsTopOf(side, Placed(s, k, p, n), Plus(m, p), n)
  {
    if k < |s| && s[k].price == p.price {
      MergedKeepsTop(side, s, m, k, p, n);
    } else {
      assert !Has(s, p.price);
      if |s| < n || k < n { InsertedKeepsTop(side, s, m, k, p, n); }
    }
  }

  // ----- all contributions -----------------------------------------------------------------------------------

  /** The levels after all contributions, one after the other. */
  ghost function Folded(side: Side, parts: seq<Part>, n: nat): (s: seq<Level>)
    ensures |s| <= n
  {
    if parts == [] then []
    else
      var s := Folded(side, parts[..|parts| - 1], n);
      Placed(s, LowerBoundOf(side, s, parts[|parts| - 1].price), parts[|parts| - 1], n)
  }

  /** The number of levels with a better price, counted from the front. */
  function LowerBoundOf(side: Side, s: seq<Level>, price: int): (k: nat)
    ensures k <= |s|
  {
    if s == [] || !Better(side, s[0].price, price) then 0 else 1 + LowerBoundOf(side, s[1..], price)
  }

  lemma {:induction false} LowerBoundExists(side: Side, s: seq<Level>, price: int)
    requires BestFirst(side, s)
    ensures IsLowerBound(side, s, price, LowerBoundOf(side, s, price))
  {
    if s != [] && Better(side, s[0].price, price) {
      LowerBoundExists(side, s[1..], price);
      assert forall i :: 1 <= i < |s| ==> s[i] == s[1..][i - 1];
    }
  }

  lemma LowerBoundUnique(side: Side, s: seq<Level>, price: int, j: nat, k: nat)
    requires IsLowerBound(side, s, price, j) && IsLowerBound(side, s, price, k)
    ensures j == k
  {
    var x := if j < |s| then s[j].price else price;
    var y := if k < |s| then s[k].price else price;
    assert j < k ==> Better(side, x, price);
    assert k < j ==> Better(side, y, price);
  }

  /** Folding the contributions yields exactly the best levels of the fully aggregated prices. */
  lemma {:induction false} FoldedIsTop(side: Side, parts: seq<Part>, n: nat)
    requires n > 0
    ensures IsTopOf(side, Folded(side, parts, n), Total(parts), n)
  {
    if parts != [] {
      var before, p := parts[..|parts| - 1], parts[|parts| - 1];
      FoldedIsTop(side, before, n);
      var s := Folded(side, before, n);
      LowerBoundExists(side, s, p.price);
      PlacedKeepsTop(side, s, Total(before), LowerBoundOf(side, s, p.price), p, n);
    }
  }

  // ----- any order -------------------------------------------------------------------------------------------

  /** What the second sequence cannot leave out. */
  lemma SameAt(side: Side, s: seq<Level>, t: seq<Level>, m: map<int, nat>, n: nat, k: nat)
    requires IsTopOf(side, s, m, n) && IsTopOf(side, t, m, n) && k < |s| && k <= |t| && s[..k] == t[..k]
    ensures k < |t|
    ensures !Better(side, s[k].price, t[k].price)
  {
    var a := s[k].price;
    forall i | 0 <= i < k ensures t[i].price != a {
      assert s[..k][i] == t[..k][i];
      assert Better(side, s[i].price, a);
    }
    if i :| 0 <= i < |t| && t[i].price == a {
      assert k <= i;
    } else {
      assert !Has(t, a);
    }
  }

  lemma {:induction false} SamePrefix(side: Side, s: seq<Level>, t: seq<Level>, m: map<int, nat>, n: nat, k: nat)
    requires IsTopOf(side, s, m, n) && IsTopOf(side, t, m, n) && k <= |s|
    ensures k <= |t| && s[..k] == t[..k]
  {
    if k > 0 {
      SamePrefix(side, s, t, m, n, k - 1);
      SameAt(side, s, t, m, n, k - 1);
      SameAt(side, t, s, m, n, k - 1);
      assert s[..k] == s[..k - 1] + [s[k - 1]] && t[..k] == t[..k - 1] + [t[k - 1]];
    }
  }

  /** A map has one sequence of best levels. */
  lemma TopIsUnique(side: Side, s: seq<Level>, t: seq<Level>, m: map<int, nat>, n: nat)
    requires IsTopOf(side, s, m, n) && IsTopOf(side, t, m, n)
    ensures s == t
  {
    SamePrefix(side, s, t, m, n, |s|);
    SamePrefix(side, t, s, m, n, |t|);
    assert s == s[..|s|] && t == t[..|t|];
  }

  /** The total does not depend on the order of the contributions. */
  lemma {:induction false} TotalIgnoresOrder(a: seq<Part>, b: seq<Part>)
    requires multiset(a) == multiset(b)
    ensures Total(a) == Total(b)
    decreases |a|
  {
    hide Plus;
    if a == [] {
      assert |b| == |multiset(a)|;
    } else {
      var rest, p := a[..|a| - 1], a[|a| - 1];
      assert Total(a) == Plus(Total(rest), p);
      hide Total;
      assert a == rest + [p];
      var before, after := Around(b, p);
      TotalIgnoresOrder(rest, before + after);
      TotalMoves(before, p, after);
    }
  }

  /** What stands before and after a contribution. */
  lemma Around(b: seq<Part>, p: Part) returns (before: seq<Part>, after: seq<Part>)
    requires p in multiset(b)
    ensures b == before + [p] + after && multiset(before + after) == multiset(b) - multiset{p}
  {
    var i :| 0 <= i < |b| && b[i] == p;
    before, after := b[..i], b[i + 1..];
    assert b == before + [p] + after;
  }

  /** A contribution may as well come last. */
  lemma {:induction false} TotalMoves(before: seq<Part>, p: Part, after: seq<Part>)
    ensures Total(before + [p] + after) == Plus(Total(before + after), p)
  {
    if after == [] {
      assert (before + [p] + after)[..|before|] == before && before + after == before;
    } else {
      var n := |after| - 1;
      assert (before + [p] + after)[..|before| + 1 + n] == before + [p] + after[..n];
      assert (before + after)[..|before| + n] == before + after[..n];
      TotalMoves(before, p, after[..n]);
      PlusCommutes(Total(before + after[..n]), p, after[n]);
    }
  }

  lemma PlusCommutes(m: map<int, nat>, p: Part, q: Part)
    ensures Plus(Plus(m, p), q) == Plus(Plus(m, q), p)
  {
  }

  /** Iterating over the orders in any other order publishes the same levels. */
  lemma FoldedIgnoresOrder(side: Side, a: seq<Part>, b: seq<Part>, n: nat)
    requires n > 0 && multiset(a) == multiset(b)
    ensures Folded(side, a, n) == Folded(side, b, n)
  {
    TotalIgnoresOrder(a, b);
    FoldedIsTop(side, a, n);
    FoldedIsTop(side, b, n);
    TopIsUnique(side, Folded(side, a, n), Folded(side, b, n), Total(a), n);
  }
}
