/** Prices between fixed-point integers and doubles (src/trading/venue/simnow/ctp_mapping.cpp). A double is the
    real number it stands for, and `fl` what a floating-point operation makes of its exact result. Magnitudes here
    are far from overflow and underflow, so exponents are not bounded. */
module CtpMapping {
  import opened Common

  const SCALE: real := 100000000.0

  /** The unit roundoff of doubles, 2 to the power -53. */
  const UNIT: real := 1.0 / 9007199254740992.0

  /** `std::llround` of a positive number: to the nearest integer, halves away from zero. */
  function RoundHalfUp(x: real): int { (x + 0.5).Floor }

  /** Conversion of an integer to a double, exact up to 2 to the power 53. */
  function ToDouble(fl: real -> real, x: int): real {
    if -9007199254740992 <= x <= 9007199254740992 then x as real else fl(x as real)
  }

  /** `decimal`. */
  function Decimal(fl: real -> real, price: int): real { fl(ToDouble(fl, price) / SCALE) }

  /** `price`: PRICE_INVALID for values outside the range of prices. */
  function Price(fl: real -> real, value: real): int {
    if value <= 0.0 || value >= fl(ToDouble(fl, PRICE_INVALID) / SCALE) then PRICE_INVALID
    else RoundHalfUp(fl(value * SCALE))
  }

  predicate Survives(fl: real -> real, p: int) { Price(fl, Decimal(fl, p)) == p }

  // ----- any arithmetic within the unit roundoff -------------------------------------------------------------

  /** Every operation is correct up to the unit roundoff. */
  ghost predicate RoundsWell(fl: real -> real) {
    forall x: real :: x > 0.0 ==> CloseTo(fl(x), x)
  }

  predicate CloseTo(y: real, x: real) { -UNIT * x <= y - x <= UNIT * x }

  /** Prices below this bound, 2 to the power 51, survive the round trip. */
  const SAFE_PRICE: int := 2251799813685248

  /** The two roundings of a round trip stay within half a unit of a safe price. */
  lemma SafePricesSurvive(fl: real -> real, p: int)
    requires RoundsWell(fl) && 0 < p < SAFE_PRICE
    ensures Survives(fl, p)
  {
    var x := p as real;
    var d := Decimal(fl, p);
    InRange(fl, p);
    assert CloseTo(d, x / SCALE);
    assert CloseTo(fl(d * SCALE), d * SCALE);
    assert x <= 2251799813685247.0;
    var v := fl(d * SCALE);
    assert x - 0.5 < v < x + 0.5;
    assert (v + 0.5).Floor == p;
  }

  /** A price of less than 2^53 converts to a double within the range of prices. */
  lemma InRange(fl: real -> real, p: int)
    requires RoundsWell(fl) && 0 < p < 9007199254740992
    ensures 0.0 < Decimal(fl, p) < fl(ToDouble(fl, PRICE_INVALID) / SCALE)
  {
    var top := ToDouble(fl, PRICE_INVALID);
    assert CloseTo(top, PRICE_INVALID as real) && CloseTo(Decimal(fl, p), p as real / SCALE);
    assert CloseTo(fl(top / SCALE), top / SCALE);
  }

  /** The largest error the assumption allows, in both roundings. */
  function UpByOneUnit(x: real): real { x + UNIT * x }

  lemma UnsafePricesNeedNotSurvive(p: int)
    requires SAFE_PRICE <= p < PRICE_INVALID
    ensures RoundsWell(UpByOneUnit) && !Survives(UpByOneUnit, p)
  {
    var x := p as real;
    var d := Decimal(UpByOneUnit, p);
    assert x >= 2251799813685248.0;
    assert UpByOneUnit(d * SCALE) >= x + 0.5;
  }

  /** How far the unit roundoff alone carries: a price survives under every arithmetic within it exactly when it
      is below 2^51. */
  lemma RoundTripExactly(p: int)
    requires 0 < p < PRICE_INVALID
    ensures (forall fl: real -> real :: RoundsWell(fl) ==> Survives(fl, p)) <==> p < SAFE_PRICE
  {
    hide Survives;
    if p < SAFE_PRICE {
      forall fl: real -> real | RoundsWell(fl) ensures Survives(fl, p) {
        SafePricesSurvive(fl, p);
      }
    } else {
      UnsafePricesNeedNotSurvive(p);
    }
  }

  // ----- rounding to nearest ---------------------------------------------------------------------------------

  function Pow2(e: int): real
    decreases if e < 0 then -e else e
  {
    if e == 0 then 1.0 else if e > 0 then 2.0 * Pow2(e - 1) else Pow2(e + 1) / 2.0
  }

  /** `y` is the `k`-th multiple of the distance of doubles with exponent `e`. */
  predicate OnGrid(y: real, k: int, e: int) { y == k as real * Pow2(e - 52) }

  /** `y` is a double nearest to `x`, of the doubles with the exponent of `x` (section 4.3.1 of IEEE 754-2019);
      ties may go either way. */
  ghost predicate Nearest(y: real, x: real, e: int) {
    && Pow2(e) <= x < Pow2(e + 1)
    && (exists k :: OnGrid(y, k, e))
    && -Pow2(e - 53) <= y - x <= Pow2(e - 53)
  }

  ghost predicate IsNearest(y: real, x: real) { exists e :: Nearest(y, x, e) }

  /** Every operation is rounded to nearest. */
  ghost predicate RoundsToNearest(fl: real -> real) {
    forall x: real :: x > 0.0 ==> IsNearest(fl(x), x)
  }

  lemma {:induction false} Pow2Grows(d: int, e: int)
    requires d <= e
    ensures 0.0 < Pow2(d) <= Pow2(e)
    decreases (if d < 0 then -d else d) + (if e < 0 then -e else e)
  {
    if d < 0 {
      if d < e { Pow2Grows(d + 1, e); } else { Pow2Grows(d + 1, e + 1); }
    } else if e > 0 {
      if d < e { Pow2Grows(d, e - 1); } else { Pow2Grows(d - 1, e - 1); }
    }
  }

  predicate Product(p: real, a: real, b: real) { p == a * b }

  lemma ProductDoubled(p: real, a: real, b: real)
    ensures Product(p, a, b) <==> Product(2.0 * p, a, 2.0 * b)
  {
    assert a * (2.0 * b) == 2.0 * (a * b);
  }

  lemma {:induction false} Pow2Adds(d: int, n: int)
    ensures Product(Pow2(d + n), Pow2(d), Pow2(n))
    decreases if n < 0 then -n else n
  {
    if n == 0 {
      assert Pow2(0) == 1.0;
      return;
    }
    hide Pow2, Product;
    var m := if n > 0 then n - 1 else n;
    Pow2Adds(d, if n > 0 then n - 1 else n + 1);
    Doubles(d + m);
    Doubles(m);
    ProductDoubled(Pow2(d + m), Pow2(d), Pow2(m));
  }

  lemma Pow2Times(d: int, n: int)
    ensures Pow2(d + n) == Pow2(d) * Pow2(n)
  {
    Pow2Adds(d, n);
    hide Pow2;
  }

  lemma Doubles(e: int)
    ensures Pow2(e + 1) == 2.0 * Pow2(e)
  {
  }

  lemma Powers()
    ensures Pow2(24) == 16777216.0 && Pow2(25) == 33554432.0 && Pow2(26) == 67108864.0
    ensures Pow2(-27) == 1.0 / 134217728.0 && Pow2(-28) == 1.0 / 268435456.0 && Pow2(-29) == 1.0 / 536870912.0
    ensures Pow2(51) == 2251799813685248.0 && Pow2(52) == 4503599627370496.0
    ensures Pow2(-1) == 0.5 && Pow2(-2) == 0.25 && Pow2(-53) == UNIT
  {
    assert Pow2(6) == 64.0;
    Pow2Times(6, 6);
    Pow2Times(12, 12);
    Pow2Times(24, 1);
    Pow2Times(25, 1);
    Pow2Times(26, 25);
    Pow2Times(51, 1);
    Pow2Times(26, 1);
    Pow2Times(27, 26);
    Pow2Times(-27, 27);
    Pow2Times(-53, 53);
    assert Pow2(-28) == Pow2(-27) / 2.0 && Pow2(-29) == Pow2(-28) / 2.0;
  }

  /** A binade: the exponent is determined by the number. */
  lemma SameBinade(x: real, d: int, e: int)
    requires Pow2(d) <= x < Pow2(d + 1) && Pow2(e) <= x
    ensures e <= d
    ensures x < Pow2(e + 1) ==> e == d
  {
    if e > d { Pow2Grows(d + 1, e); }
    if e < d { Pow2Grows(e + 1, d); }
  }

  lemma NearestRoundsWell(fl: real -> real)
    requires RoundsToNearest(fl)
    ensures RoundsWell(fl)
  {
    forall x: real | x > 0.0 ensures CloseTo(fl(x), x) {
      assert IsNearest(fl(x), x);
      var e :| Nearest(fl(x), x, e);
      hide Nearest;
      NearestIsClose(fl(x), x, e);
    }
  }

  lemma NearestIsClose(y: real, x: real, e: int)
    requires Nearest(y, x, e)
    ensures CloseTo(y, x)
  {
    Powers();
    Pow2Times(e, -53);
    hide Pow2, OnGrid;
    assert Pow2(e - 53) == UNIT * Pow2(e);
  }

  /** The rounding error of a number below a power of two. */
  lemma NearestWithin(fl: real -> real, x: real, e: int)
    requires RoundsToNearest(fl) && 0.0 < x < Pow2(e + 1)
    ensures -Pow2(e - 53) <= fl(x) - x <= Pow2(e - 53)
  {
    assert IsNearest(fl(x), x);
    var d :| Nearest(fl(x), x, d);
    if d > e { Pow2Grows(e + 1, d); }
    Pow2Grows(d - 53, e - 53);
  }

  /** The doubles a number between two powers of two can be rounded to. */
  lemma NearestOnGrid(fl: real -> real, x: real, e: int) returns (k: int)
    requires RoundsToNearest(fl) && Pow2(e) <= x < Pow2(e + 1) && x > 0.0
    ensures OnGrid(fl(x), k, e)
  {
    assert IsNearest(fl(x), x);
    var d :| Nearest(fl(x), x, d);
    hide Pow2, RoundsToNearest, IsNearest, OnGrid;
    SameBinade(x, e, d);
    k :| OnGrid(fl(x), k, e);
  }

  /** The first price of 2^25 whole units. */
  const WHOLE: int := 3355443200000000

  /** Up to it, the error of the division is less than a fifth of a unit, and that of the product at most a
      quarter. */
  lemma MiddlePricesSurvive(fl: real -> real, p: int)
    requires RoundsToNearest(fl) && SAFE_PRICE <= p < WHOLE
    ensures Survives(fl, p)
  {
    hide Nearest, RoundsToNearest;
    var x := p as real;
    var d := Decimal(fl, p);
    NearestRoundsWell(fl);
    InRange(fl, p);
    Powers();
    NearestWithin(fl, x / SCALE, 24);
    hide RoundsWell;
    var v := fl(d * SCALE);
    NearestWithin(fl, d * SCALE, 51);
    assert x - 0.5 < v < x + 0.5;
  }

  /** The integers of the two roundings of the price `WHOLE + k`. */
  predicate Roundings(k: int, m: int, n: int) {
    && -50000000 <= 100000000 * m - 134217728 * k <= 50000000
    && -33554432 <= 67108864 * n - 100000000 * m <= 33554432
  }

  /** The division rounds to a multiple of 2^-27. */
  lemma DivisionRounds(fl: real -> real, k: int) returns (m: int)
    requires RoundsToNearest(fl) && 0 <= k <= 100
    ensures -50000000 <= 100000000 * m - 134217728 * k <= 50000000
    ensures fl((WHOLE + k) as real / SCALE) == 33554432.0 + m as real / 134217728.0
  {
    hide Nearest, RoundsToNearest;
    var x := (WHOLE + k) as real;
    Powers();
    hide Pow2;
    NearestWithin(fl, x / SCALE, 25);
    var i := NearestOnGrid(fl, x / SCALE, 25);
    m := i - 4503599627370496;
    assert fl(x / SCALE) == 33554432.0 + m as real / 134217728.0;
  }

  /** The product rounds to a multiple of 1/2. */
  lemma ProductRounds(fl: real -> real, m: int) returns (n: int)
    requires RoundsToNearest(fl) && 0 <= m <= 200
    ensures -33554432 <= 67108864 * n - 100000000 * m <= 33554432
    ensures fl((33554432.0 + m as real / 134217728.0) * SCALE) == WHOLE as real + n as real / 2.0
  {
    hide Nearest, RoundsToNearest;
    var y := (33554432.0 + m as real / 134217728.0) * SCALE;
    Powers();
    hide Pow2;
    NearestWithin(fl, y, 51);
    assert y == WHOLE as real + 100000000.0 * m as real / 134217728.0;
    var j := NearestOnGrid(fl, y, 51);
    n := j - 2 * WHOLE;
    assert fl(y) == WHOLE as real + n as real / 2.0;
  }

  lemma WholeRoundings(fl: real -> real, k: int) returns (m: int, n: int)
    requires RoundsToNearest(fl) && 0 <= k <= 100
    ensures Roundings(k, m, n)
    ensures Price(fl, Decimal(fl, WHOLE + k)) == WHOLE + RoundHalfUp(n as real / 2.0)
  {
    hide RoundsToNearest;
    NearestRoundsWell(fl);
    InRange(fl, WHOLE + k);
    hide RoundsWell;
    m := DivisionRounds(fl, k);
    n := ProductRounds(fl, m);
    assert (WHOLE as real + n as real / 2.0 + 0.5).Floor == WHOLE + (n as real / 2.0 + 0.5).Floor;
  }

  /** The first nineteen prices from there on survive, and the next one comes back one too large. */
  lemma FirstOfThem(k: int, m: int, n: int)
    requires 0 <= k <= 19 && Roundings(k, m, n)
    ensures RoundHalfUp(n as real / 2.0) == if k == 19 then 20 else k
  {
    if k == 19 {
      assert m == 26 && n == 39;
    } else {
      assert 2 * k - 1 <= n < 2 * k + 1;
    }
  }

  /** The first price that does not survive, 33554432.00000019. */
  const FIRST_LOST: int := WHOLE + 19

  /** Under every round-to-nearest arithmetic, whatever it makes of ties, all prices below survive and this one
      comes back one unit larger. */
  lemma FirstLostPrice(fl: real -> real, p: int)
    requires RoundsToNearest(fl) && 0 < p <= FIRST_LOST
    ensures Price(fl, Decimal(fl, p)) == if p == FIRST_LOST then p + 1 else p
  {
    if p < SAFE_PRICE {
      NearestRoundsWell(fl);
      SafePricesSurvive(fl, p);
    } else if p < WHOLE {
      MiddlePricesSurvive(fl, p);
    } else {
      var m, n := WholeRoundings(fl, p - WHOLE);
      FirstOfThem(p - WHOLE, m, n);
    }
  }

  /** A bound protects every price below it exactly when it is at most that price. */
  lemma BoundProtectsExactly(fl: real -> real, bound: int)
    requires RoundsToNearest(fl) && bound < PRICE_INVALID
    ensures (forall p :: 0 < p < bound ==> Survives(fl, p)) <==> bound <= FIRST_LOST
  {
    forall p | 0 < p <= FIRST_LOST ensures Survives(fl, p) <==> p != FIRST_LOST {
      FirstLostPrice(fl, p);
    }
    hide Survives, RoundsToNearest;
    if bound > FIRST_LOST {
      assert !Survives(fl, FIRST_LOST);
    }
  }

  // ----- round-to-nearest arithmetic exists ------------------------------------------------------------------

  ghost function ToNearest(x: real): real {
    if exists y :: IsNearest(y, x) then var y :| IsNearest(y, x); y else x
  }

  lemma {:induction false} BinadeFrom(x: real) returns (e: int)
    requires x >= 1.0
    ensures Pow2(e) <= x < Pow2(e + 1)
    decreases x.Floor
  {
    if x < 2.0 {
      return 0;
    }
    e := BinadeFrom(x / 2.0);
    e := e + 1;
    Doubles(e);
    Doubles(e - 1);
  }

  /** Every positive number lies between two powers of two. */
  lemma {:induction false} Binade(x: real, inverse: real) returns (e: int)
    requires x > 0.0 && inverse > 0.0 && x * inverse == 1.0
    ensures Pow2(e) <= x < Pow2(e + 1)
    decreases inverse.Floor
  {
    if x >= 1.0 {
      e := BinadeFrom(x);
      return;
    }
    assert inverse > 1.0;
    e := Binade(2.0 * x, inverse / 2.0);
    e := e - 1;
    Doubles(e);
    Doubles(e + 1);
  }

  lemma Scaled(a: real, u: real)
    requires -0.5 <= a <= 0.5 && u > 0.0
    ensures -u / 2.0 <= a * u <= u / 2.0
  {
  }

  lemma Distributes(a: real, b: real, u: real)
    ensures (a - b) * u == a * u - b * u
  {
  }

  lemma DividesBack(x: real, u: real)
    requires u != 0.0
    ensures x / u * u == x
  {
  }

  /** The multiple of `u` nearest to a number. */
  lemma NearestMultiple(x: real, u: real) returns (k: int)
    requires u > 0.0
    ensures -u / 2.0 <= k as real * u - x <= u / 2.0
  {
    var q := x / u;
    k := (q + 0.5).Floor;
    var over := k as real - q;
    assert -0.5 <= over <= 0.5;
    Scaled(over, u);
    Distributes(k as real, q, u);
    DividesBack(x, u);
    assert over * u == k as real * u - x;
  }

  lemma NearestExists(x: real) returns (y: real)
    requires x > 0.0
    ensures IsNearest(y, x)
  {
    var inverse := 1.0 / x;
    assert inverse > 0.0;
    DividesBack(1.0, x);
    assert x * inverse == inverse * x;
    var e := Binade(x, inverse);
    Pow2Grows(e - 52, e);
    Doubles(e - 53);
    hide Pow2;
    var u := Pow2(e - 52);
    var k := NearestMultiple(x, u);
    y := k as real * u;
    assert OnGrid(y, k, e);
    hide OnGrid;
    assert Nearest(y, x, e);
  }

  lemma ToNearestRounds()
    ensures RoundsToNearest(ToNearest)
  {
    hide IsNearest;
    forall x: real | x > 0.0 ensures IsNearest(ToNearest(x), x) {
      var y := NearestExists(x);
    }
  }
}
