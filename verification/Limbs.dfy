/**
  Little-endian numbers in 32-bit limbs (base_uint in src/arith_uint256.h) and the integer
  facts that the carry, shift and division loops rest on.
 */
module Limbs {
  import opened Common

  const BASE: nat := 0x1_0000_0000

  type Word = x: int | 0 <= x < BASE

  function BPow(i: nat): (p: nat)
    ensures p > 0
  {
    if i == 0 then 1 else BASE * BPow(i - 1)
  }

  /** The number formed by the first i limbs. */
  function V(s: seq<Word>, i: nat): nat
    requires i <= |s|
  {
    if i == 0 then 0 else V(s, i - 1) + s[i - 1] * BPow(i - 1)
  }

  lemma VNext(s: seq<Word>, i: nat)
    requires i < |s|
    ensures V(s, i + 1) == V(s, i) + s[i] * BPow(i)
    ensures BPow(i + 1) == BASE * BPow(i)
  {
  }

  lemma VZero(s: seq<Word>)
    ensures V(s, 0) == 0 && BPow(0) == 1
  {
  }

  function Value(s: seq<Word>): nat {
    V(s, |s|)
  }

  lemma MulMono(a: int, b: int, m: int)
    requires m >= 0
    ensures a <= b ==> a * m <= b * m
  {
  }

  lemma {:induction false} Same(s: seq<Word>, t: seq<Word>, i: nat)
    requires i <= |s| && i <= |t| && forall k :: 0 <= k < i ==> s[k] == t[k]
    ensures V(s, i) == V(t, i)
  {
    if i > 0 { Same(s, t, i - 1); }
  }

  lemma {:induction false} Bounded(s: seq<Word>, i: nat)
    requires i <= |s|
    ensures V(s, i) < BPow(i)
  {
    if i > 0 {
      Bounded(s, i - 1);
      MulMono(s[i - 1], BASE - 1, BPow(i - 1));
    }
  }

  /** The only number below m that differs from y by a multiple of m. */
  lemma ModUnique(x: nat, c: int, m: nat, y: int)
    requires m > 0 && x < m && x + c * m == y
    ensures x == y % m && c == y / m
  {
    var q := y / m;
    assert y == q * m + y % m;
    assert x - y % m == (q - c) * m;
    MulMono(1, q - c, m);
    MulMono(q - c, -1, m);
  }

  lemma Reassociate(a: int, b: int, c: int)
    ensures (a * b) * c == a * (b * c)
  {
  }

  lemma {:induction false} Pow2Add(a: nat, b: nat)
    ensures Pow2(a + b) == Pow2(a) * Pow2(b)
  {
    if a == 0 {
      assert Pow2(0) == 1;
    } else {
      Pow2Add(a - 1, b);
      Pow2Double(a - 1);
      Pow2Double(a - 1 + b);
      Reassociate(2, Pow2(a - 1), Pow2(b));
    }
  }

  lemma BaseIsPow2()
    ensures Pow2(32) == BASE
  {
    hide Pow2;
    ByteIsPow2();
    Pow2Add(8, 8);
    Pow2Add(16, 16);
  }

  lemma ByteIsPow2()
    ensures Pow2(8) == 256
  {
  }

  lemma {:induction false} BPowIsPow2(i: nat)
    ensures BPow(i) == Pow2(32 * i)
  {
    if i > 0 {
      BPowIsPow2(i - 1);
      BaseIsPow2();
      Pow2Add(32, 32 * (i - 1));
    }
  }

  lemma {:induction false} BPowAdd(i: nat, j: nat)
    ensures BPow(i + j) == BPow(i) * BPow(j)
  {
    if i > 0 {
      BPowAdd(i - 1, j);
      Reassociate(BASE, BPow(i - 1), BPow(j));
    }
  }

  // ------------------------------------------------------------- bitwise or

  function Or(x: nat, y: nat): nat {
    if x == 0 then y else if y == 0 then x
    else (if x % 2 == 1 || y % 2 == 1 then 1 else 0) + 2 * Or(x / 2, y / 2)
  }

  lemma {:induction false} OrDisjoint(x: nat, y: nat, s: nat)
    requires x < Pow2(s) && y % Pow2(s) == 0
    ensures Or(x, y) == x + y && Or(y, x) == x + y
  {
    if s > 0 && x > 0 && y > 0 {
      EvenHalf(y, Pow2(s - 1));
      OrDisjoint(x / 2, y / 2, s - 1);
    }
  }

  lemma EvenHalf(y: nat, p: nat)
    requires p > 0 && y % (2 * p) == 0
    ensures y % 2 == 0 && (y / 2) % p == 0
  {
    var q := y / (2 * p);
    assert y == q * (2 * p);
    assert y == 2 * (q * p);
    assert y / 2 == q * p;
    ModUnique(0, q, p, y / 2);
  }

  // -------------------------------------------------- upper and lower parts

  /** Limbs that agree from i on contribute the same. */
  lemma {:induction false} Tail(s: seq<Word>, t: seq<Word>, i: nat, n: nat)
    requires i <= n <= |s| && n <= |t| && forall k :: i <= k < n ==> s[k] == t[k]
    ensures V(s, n) - V(s, i) == V(t, n) - V(t, i)
  {
    if n > i { Tail(s, t, i, n - 1); }
  }

  lemma {:induction false} Zeros(s: seq<Word>, i: nat)
    requires i <= |s| && forall k :: 0 <= k < i ==> s[k] == 0
    ensures V(s, i) == 0
  {
    if i > 0 { Zeros(s, i - 1); }
  }

  /** Numbers compare by their highest differing limb. */
  lemma HighestLimbDecides(s: seq<Word>, t: seq<Word>, i: nat)
    requires i < |s| == |t| && s[i] < t[i] && forall k :: i < k < |s| ==> s[k] == t[k]
    ensures Value(s) < Value(t)
  {
    hide V, BPow;
    Tail(s, t, i + 1, |s|);
    VNext(s, i);
    VNext(t, i);
    Bounded(s, i);
    Decides(V(s, i), V(t, i), s[i], t[i], BPow(i));
  }

  lemma Decides(v: nat, w: nat, x: int, y: int, p: nat)
    requires v < p && x < y
    ensures v + x * p < w + y * p
  {
    MulMono(x + 1, y, p);
    assert (x + 1) * p == x * p + p;
  }

  /** The value lies between its leading limb and the next power. */
  lemma LeadingLimb(s: seq<Word>, i: nat)
    requires i < |s| && forall k :: i < k < |s| ==> s[k] == 0
    ensures s[i] * BPow(i) <= Value(s) < (s[i] + 1) * BPow(i)
  {
    hide V, BPow;
    TopZeros(s, i + 1);
    VNext(s, i);
    Bounded(s, i);
  }

  lemma {:induction false} TopZeros(s: seq<Word>, i: nat)
    requires i <= |s| && forall k :: i <= k < |s| ==> s[k] == 0
    ensures V(s, |s|) == V(s, i)
  {
    var z := seq(|s|, k requires 0 <= k < |s| => 0 as Word);
    Tail(s, z, i, |s|);
    Zeros(z, |s|);
    Zeros(z, i);
  }
}
