/**
  Positional numerals in any base, most significant digit first.
 */
module Numerals {
  import opened Limbs

  function Pow(b: nat, n: nat): (p: nat)
    ensures b > 0 ==> p > 0
  {
    if n == 0 then 1 else b * Pow(b, n - 1)
  }

  lemma {:induction false} PowAdd(b: nat, m: nat, n: nat)
    ensures Pow(b, m + n) == Pow(b, m) * Pow(b, n)
  {
    if m > 0 {
      PowAdd(b, m - 1, n);
      Assoc(b, Pow(b, m - 1), Pow(b, n));
    }
  }

  lemma Assoc(a: int, b: int, c: int)
    ensures (a * b) * c == a * (b * c)
  {
  }

  lemma PowMono(b: nat, m: nat, n: nat)
    requires b > 0 && m <= n
    ensures Pow(b, m) <= Pow(b, n)
  {
    PowAdd(b, n - m, m);
    MulMono(1, Pow(b, n - m), Pow(b, m));
  }

  /** Every entry is a digit of the base. */
  predicate Ok(d: seq<nat>, base: nat) {
    forall i :: 0 <= i < |d| ==> d[i] < base
  }

  function Num(d: seq<nat>, base: nat): nat {
    if d == [] then 0 else Num(d[..|d| - 1], base) * base + d[|d| - 1]
  }

  lemma NumAppend(d: seq<nat>, x: nat, base: nat)
    ensures Num(d + [x], base) == Num(d, base) * base + x
  {
    assert (d + [x])[..|d|] == d;
  }

  lemma {:induction false} NumCons(x: nat, d: seq<nat>, base: nat)
    ensures Num([x] + d, base) == x * Pow(base, |d|) + Num(d, base)
  {
    if d == [] {
      assert [x] + d == [] + [x];
      NumAppend([], x, base);
    } else {
      var n := |d| - 1;
      NumCons(x, d[..n], base);
      assert [x] + d == ([x] + d[..n]) + [d[n]];
      NumAppend([x] + d[..n], d[n], base);
      ConsStep(x, Pow(base, n), Num(d[..n], base), base);
    }
  }

  lemma ConsStep(x: int, p: int, v: int, b: int)
    ensures (x * p + v) * b == x * (b * p) + v * b
  {
  }

  lemma {:induction false} NumBound(d: seq<nat>, base: nat)
    requires Ok(d, base) && base > 0
    ensures Num(d, base) < Pow(base, |d|)
  {
    if d != [] {
      var n := |d| - 1;
      NumBound(d[..n], base);
      BoundStep(Num(d[..n], base), Pow(base, n), base, d[n]);
    }
  }

  lemma BoundStep(v: nat, p: nat, b: nat, x: nat)
    requires v < p && x < b
    ensures v * b + x < b * p
  {
    MulMono(v + 1, p, b);
    assert (v + 1) * b == v * b + b;
  }

  /** The digits of a number, without leading zeros; none for zero. */
  function Digits(v: nat, base: nat): (d: seq<nat>)
    requires base > 1
    ensures Ok(d, base) && (d != [] ==> d[0] != 0)
    decreases v
  {
    if v == 0 then []
    else
      QuotientLess(v, base);
      Digits(v / base, base) + [v % base]
  }

  lemma QuotientLess(v: nat, base: nat)
    requires base > 1 && v > 0
    ensures 0 <= v / base < v && 0 <= v % base < base && v == (v / base) * base + v % base
    ensures v / base == 0 ==> v % base == v
  {
    var q := v / base;
    MulMono(q, -1, base);
    MulMono(v, q, base);
    MulMono(2, base, v);
  }

  lemma {:induction false} DigitsNum(v: nat, base: nat)
    requires base > 1
    ensures Num(Digits(v, base), base) == v
    decreases v
  {
    if v > 0 {
      QuotientLess(v, base);
      DigitsNum(v / base, base);
      NumAppend(Digits(v / base, base), v % base, base);
    }
  }

  /** A numeral without leading zeros is the one that its value has. */
  lemma {:induction false} DigitsUnique(d: seq<nat>, base: nat)
    requires base > 1 && Ok(d, base) && (d != [] ==> d[0] != 0)
    ensures Digits(Num(d, base), base) == d
  {
    if d != [] {
      var n := |d| - 1;
      DigitsUnique(d[..n], base);
      ModUnique(d[n], Num(d[..n], base), base, Num(d, base));
      Positive(d, base);
      assert d == d[..n] + [d[n]];
    }
  }

  lemma {:induction false} Positive(d: seq<nat>, base: nat)
    requires base > 1 && d != [] && d[0] != 0
    ensures Num(d, base) > 0
  {
    var n := |d| - 1;
    if n > 0 {
      Positive(d[..n], base);
      MulMono(1, Num(d[..n], base), base);
    }
  }

  /** Leading zeros do not count. */
  lemma {:induction false} LeadingZeros(d: seq<nat>, k: nat, base: nat)
    requires k <= |d| && forall i :: 0 <= i < k ==> d[i] == 0
    ensures Num(d, base) == Num(d[k..], base)
  {
    if k > 0 {
      assert d == [0] + d[1..];
      NumCons(0, d[1..], base);
      LeadingZeros(d[1..], k - 1, base);
      assert d[1..][k - 1..] == d[k..];
    } else {
      assert d[0..] == d;
    }
  }
}
