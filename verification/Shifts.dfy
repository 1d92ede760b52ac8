/**
  What one limb contributes to the shift loops of base_uint (src/arith_uint256.cpp:22-54):
  a limb moved by less than its own width splits into the bits that stay and the bits that
  cross into a neighbouring limb.
 */
module Shifts {
  import opened Common
  import opened Limbs

  /** `x << s` on 32 bits. */
  function Left(x: Word, s: nat): Word
  {
    (x * Pow2(s)) % BASE
  }

  /** `x >> s` on 32 bits. */
  function Right(x: Word, s: nat): (r: Word)
  {
    QuotientBound(x, Pow2(s));
    x / Pow2(s)
  }

  lemma QuotientBound(x: nat, p: nat)
    requires p > 0
    ensures 0 <= x / p <= x
  {
    var q := x / p;
    assert x == q * p + x % p;
    MulMono(1, p, q);
    MulMono(q, -1, p);
  }

  lemma DivMod(x: nat, p: nat)
    requires p > 0
    ensures x == (x / p) * p + x % p && 0 <= x % p < p && 0 <= x / p
  {
    QuotientBound(x, p);
  }

  lemma MulAssoc(a: int, b: int, c: int)
    ensures (a * b) * c == a * (b * c) == (a * c) * b
  {
  }

  /** The two parts of a word moved up by s bits. */
  lemma UpParts(x: Word, s: nat)
    requires s <= 32
    ensures x * Pow2(s) == Right(x, 32 - s) * BASE + Left(x, s)
    ensures Right(x, 32 - s) < Pow2(s) && Left(x, s) % Pow2(s) == 0
    ensures Left(x, s) == (x % Pow2(32 - s)) * Pow2(s)
  {
    hide Pow2;
    Pow2Add(s, 32 - s);
    BaseIsPow2();
    UpSplit(x, Pow2(s), Pow2(32 - s), BASE);
  }

  lemma UpSplit(x: nat, p: nat, q: nat, base: nat)
    requires p > 0 && q > 0 && p * q == base && x < base
    ensures x * p == (x / q) * base + (x * p) % base
    ensures x / q < p && ((x * p) % base) % p == 0 && (x * p) % base == (x % q) * p
  {
    DivMod(x, q);
    var h, l := x / q, x % q;
    Spread(h, l, p, q);
    MulMono(l + 1, q, p);
    MulMono(0, l, p);
    ModUnique(l * p, h, base, x * p);
    ModUnique(0, l, p, l * p);
    MulMono(p, h, q);
  }

  lemma Spread(h: int, l: int, p: int, q: int)
    ensures (h * q + l) * p == h * (p * q) + l * p
  {
    assert (h * q) * p == h * (p * q);
  }

  lemma OrWord(x: Word, y: Word, s: nat)
    requires x < Pow2(s) && y % Pow2(s) == 0 && s <= 32
    ensures Or(x, y) == x + y < BASE && Or(y, x) == x + y
  {
    OrDisjoint(x, y, s);
    Pow2Add(s, 32 - s);
    BaseIsPow2();
    BelowMultiple(x, y, Pow2(s), Pow2(32 - s));
  }

  lemma BelowMultiple(x: nat, y: nat, p: nat, q: nat)
    requires p > 0 && x < p && y % p == 0 && y < p * q
    ensures x + y < p * q
  {
    DivMod(y, p);
    var k := y / p;
    if k >= q { MulMono(q, k, p); }
    MulMono(k + 1, q, p);
  }

  /** Raising limb m by d raises the number by d times the weight of the limb. */
  lemma Raised(s: seq<Word>, t: seq<Word>, m: nat, n: nat, d: int)
    requires |s| == |t| && m < n <= |s| && t[m] == s[m] + d
    requires forall k :: 0 <= k < n && k != m ==> t[k] == s[k]
    ensures V(t, n) == V(s, n) + d * BPow(m)
  {
    hide V, BPow;
    Same(s, t, m);
    VNext(s, m);
    VNext(t, m);
    assert (s[m] + d) * BPow(m) == s[m] * BPow(m) + d * BPow(m);
    Tail(s, t, m + 1, n);
  }
}
