/** Types and integer widths shared by every component (src/common/types.h). */
module Common {
  datatype Option<+T> = None | Some(value: T)

  datatype Side = BUY | SELL

  /** Twice-the-range constants of the fixed-width types. */
  const U32_RANGE: int := 0x1_0000_0000
  const INT32_MAX: int := 0x7FFF_FFFF
  const PRICE_INVALID: int := 0x7FFF_FFFF_FFFF_FFFF
  const QTY_INVALID: int := 0xFFFF_FFFF
  const DEPTH_SNAPSHOT_LEVELS: nat := 5

  /** A std::uint32_t quantity. */
  type Qty = q: int | 0 <= q < 0x1_0000_0000

  /** Addition of std::uint32_t values, which wraps around. */
  function AddU32(a: Qty, b: Qty): Qty {
    if a + b < U32_RANGE then a + b else a + b - U32_RANGE
  }

  /** Prices and quantities of an actual order. */
  predicate ValidPrice(price: int) { price > 0 && price != PRICE_INVALID }

  predicate ValidQty(qty: Qty) { qty > 0 && qty != QTY_INVALID }

  /** `sideToValue`. */
  function SideToValue(side: Side): int { if side == BUY then 1 else -1 }

  function Opposite(side: Side): Side { if side == BUY then SELL else BUY }

  function Abs(x: int): nat { if x < 0 then -x else x }

  function Min(a: int, b: int): int { if a <= b then a else b }

  function Max(a: int, b: int): int { if a >= b then a else b }

  /** The number of distinct values of a map never exceeds the number of its keys. */
  lemma {:induction false} ValuesNoMoreThanKeys<K, V>(m: map<K, V>)
    ensures |m.Values| <= |m|
  {
    if m == map[] {
      assert m.Values == {};
    } else {
      var k :| k in m;
      var rest := m - {k};
      ValuesNoMoreThanKeys(rest);
      assert m.Values <= rest.Values + {m[k]} by {
        forall v | v in m.Values ensures v in rest.Values + {m[k]} {
          var j :| j in m && m[j] == v;
          if j != k { assert j in rest && rest[j] == v; }
        }
      }
      SubsetSize(m.Values, rest.Values + {m[k]});
    }
  }

  /** An injective map has as many values as keys. */
  lemma {:induction false} InjectiveSize<K, V>(m: map<K, V>)
    requires forall j, k :: j in m && k in m && m[j] == m[k] ==> j == k
    ensures |m.Values| == |m|
  {
    if k :| k in m {
      var rest := m - {k};
      InjectiveSize(rest);
      assert m.Values == rest.Values + {m[k]} by {
        forall v | v in m.Values ensures v in rest.Values + {m[k]} {
          var j :| j in m && m[j] == v;
          if j != k { assert j in rest && rest[j] == v; }
        }
      }
      assert m[k] !in rest.Values;
    } else {
      assert m.Values == {};
    }
  }

  /** A subset as large as the set is the set. */
  lemma {:induction false} SubsetFull<T>(a: set<T>, b: set<T>)
    requires a <= b && |a| == |b|
    ensures a == b
  {
    assert a + (b - a) == b;
    assert |a + (b - a)| == |a| + |b - a|;
  }

  lemma {:induction false} ValuesWithin<K, V>(m: map<K, V>, s: set<V>)
    requires forall k :: k in m ==> m[k] in s
    ensures m.Values <= s
  {
    forall v | v in m.Values ensures v in s {
      var k :| k in m && m[k] == v;
    }
  }

  lemma {:induction false} SubsetSize<T>(a: set<T>, b: set<T>)
    requires a <= b
    ensures |a| <= |b|
  {
    assert a + (b - a) == b;
  }

  /** The first n naturals, a set of size n. */
  ghost function Below(n: nat): (s: set<nat>)
    ensures forall i: nat :: i in s <==> i < n
    ensures |s| == n
  {
    if n == 0 then {} else Below(n - 1) + {n - 1}
  }
}
