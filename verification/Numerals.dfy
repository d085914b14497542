/** Decimal numerals and their dictionary order, in which a map keyed by texts is walked. */
module Numerals {

  const DIGITS: string := "0123456789"

  /** `std::to_string`. */
  function Numeral(n: nat): (s: string)
    ensures s != ""
  {
    if n < 10 then [DIGITS[n]] else Numeral(n / 10) + [DIGITS[n % 10]]
  }

  /** A text comes before another in the dictionary. */
  predicate Earlier(a: string, b: string)
    decreases |a|
  {
    b != "" && (a == "" || a[0] < b[0] || (a[0] == b[0] && Earlier(a[1..], b[1..])))
  }

  /** Different numbers have different numerals. */
  lemma {:induction false} NumeralsDiffer(m: nat, n: nat)
    requires Numeral(m) == Numeral(n)
    ensures m == n
    decreases m
  {
    var s, t := Numeral(m), Numeral(n);
    assert s[|s| - 1] == DIGITS[m % 10] && t[|t| - 1] == DIGITS[n % 10];
    DigitsDiffer(m % 10, n % 10);
    assert |s| > 1 <==> m >= 10;
    assert |t| > 1 <==> n >= 10;
    if m >= 10 {
      assert s[..|s| - 1] == Numeral(m / 10) && t[..|t| - 1] == Numeral(n / 10);
      NumeralsDiffer(m / 10, n / 10);
    }
  }

  lemma DigitsDiffer(i: nat, j: nat)
    requires i < 10 && j < 10 && DIGITS[i] == DIGITS[j]
    ensures i == j
  {
  }

  /** Of two different texts exactly one comes first. */
  lemma {:induction false} OneComesFirst(a: string, b: string)
    ensures !(Earlier(a, b) && Earlier(b, a))
    ensures Earlier(a, b) || Earlier(b, a) || a == b
    decreases |a|
  {
    if a != "" && b != "" && a[0] == b[0] {
      OneComesFirst(a[1..], b[1..]);
      assert a == [a[0]] + a[1..] && b == [b[0]] + b[1..];
    }
  }

  lemma {:induction false} EarlierChains(a: string, b: string, c: string)
    requires Earlier(a, b) && Earlier(b, c)
    ensures Earlier(a, c)
    decreases |a|
  {
    if a != "" && a[0] == b[0] == c[0] {
      EarlierChains(a[1..], b[1..], c[1..]);
    }
  }

  /** The order of numbers by their numerals. */
  predicate Before(m: nat, n: nat) { Earlier(Numeral(m), Numeral(n)) }

  /** The first number of a set in that order. */
  ghost predicate IsFirst(s: set<nat>, m: nat) {
    m in s && forall n :: n in s ==> n == m || Before(m, n)
  }

  /** A non-empty set has exactly one first number. */
  lemma {:induction false} FirstExists(s: set<nat>) returns (m: nat)
    requires s != {}
    ensures IsFirst(s, m)
  {
    hide Before;
    var x :| x in s;
    var rest := s - {x};
    if rest == {} {
      assert s == {x};
      return x;
    }
    var first := FirstExists(rest);
    BeforeIsTotal(first, x);
    if Before(first, x) {
      return first;
    }
    forall n | n in rest && n != first ensures Before(x, n) {
      BeforeChains(x, first, n);
    }
    return x;
  }

  lemma FirstIsUnique(s: set<nat>, m: nat, n: nat)
    requires IsFirst(s, m) && IsFirst(s, n)
    ensures m == n
  {
    BeforeIsTotal(m, n);
  }

  lemma BeforeIsTotal(m: nat, n: nat)
    ensures !(Before(m, n) && Before(n, m))
    ensures m == n || Before(m, n) || Before(n, m)
  {
    OneComesFirst(Numeral(m), Numeral(n));
    if Numeral(m) == Numeral(n) { NumeralsDiffer(m, n); }
  }

  lemma BeforeChains(l: nat, m: nat, n: nat)
    requires Before(l, m) && Before(m, n)
    ensures Before(l, n)
  {
    EarlierChains(Numeral(l), Numeral(m), Numeral(n));
  }

  /** The first number of a set in the order of the numerals. */
  ghost function First(s: set<nat>): (m: nat)
    requires s != {}
    ensures IsFirst(s, m)
  {
    assert exists m :: IsFirst(s, m) by { var m := FirstExists(s); }
    var m :| IsFirst(s, m);
    m
  }

  /** The numbers of a set in that order. */
  ghost function InOrder(s: set<nat>): seq<nat>
    decreases |s|
  {
    if s == {} then [] else [First(s)] + InOrder(s - {First(s)})
  }

  /** Each number of the set is listed once. */
  lemma {:induction false} InOrderListsAll(s: set<nat>)
    ensures forall n :: n in InOrder(s) <==> n in s
    ensures forall i, j :: 0 <= i < j < |InOrder(s)| ==> InOrder(s)[i] != InOrder(s)[j]
    decreases |s|
  {
    if s != {} {
      var m, rest := First(s), InOrder(s - {First(s)});
      InOrderListsAll(s - {First(s)});
      assert InOrder(s) == [m] + rest;
      hide InOrder, Before;
      assert m !in rest;
    } else {
      assert InOrder(s) == [];
    }
  }

  /** Earlier numbers come first. */
  lemma {:induction false} InOrderIsOrdered(s: set<nat>)
    ensures forall i, j :: 0 <= i < j < |InOrder(s)| ==> Before(InOrder(s)[i], InOrder(s)[j])
    decreases |s|
  {
    if s != {} {
      var m, rest := First(s), InOrder(s - {First(s)});
      InOrderIsOrdered(s - {First(s)});
      InOrderListsAll(s - {First(s)});
      assert InOrder(s) == [m] + rest;
      hide InOrder, Before;
      assert forall j :: 0 <= j < |rest| ==> rest[j] in rest;
    }
  }

  lemma InOrderOfNone()
    ensures InOrder({}) == []
  {
  }

  lemma InOrderUnfolds(s: set<nat>, m: nat)
    requires IsFirst(s, m)
    ensures InOrder(s) == [m] + InOrder(s - {m})
  {
    FirstIsUnique(s, m, First(s));
  }
}
