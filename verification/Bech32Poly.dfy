/**
  What the checksum loop of Bech32 computes, as arithmetic of polynomials over GF(32): the state
  is zero exactly for the multiples of the generator of BIP 173,
  x^6 + 29 x^5 + 22 x^4 + 20 x^3 + 21 x^2 + 29 x + 18.
 */
module Bech32Poly {
  import opened Bech32Code
  import opened Bech32Field

  // ------------------------------------------------------ multiples of the generator

  /** The coefficients of the generator, highest first. */
  function Coefficient(i: nat): bv32 {
    if i == 0 then 1 else if i == 1 || i == 5 then 29 else if i == 2 then 22
    else if i == 3 then 20 else if i == 4 then 21 else 18
  }

  /** A field element times the generator. */
  function Scaled(a: bv32): (w: Word)
    ensures |w| == 7 && forall i :: 0 <= i < 7 ==> w[i] == Times(a, Coefficient(i))
  {
    seq(7, i requires 0 <= i < 7 => Times(a, Coefficient(i)))
  }

  lemma ScaledLinear(x: bv32, y: bv32)
    ensures Scaled(Xor(x, y)) == Sum(Scaled(x), Scaled(y))
  {
    hide Xor, Times, Coefficient;
    forall i | 0 <= i < 7 ensures Scaled(Xor(x, y))[i] == Sum(Scaled(x), Scaled(y))[i] {
      TimesLinear(x, y, Coefficient(i));
    }
  }

  /** Feeding a multiple of the generator leaves nothing. */
  predicate Vanishes(a: bv32) {
    Fold(0, Scaled(a)) == 0
  }

  lemma VanishSum(x: bv32, y: bv32)
    requires Vanishes(x) && Vanishes(y)
    ensures Vanishes(Xor(x, y))
  {
    hide Xor, Scaled, Fold;
    ScaledLinear(x, y);
    Superposition(0, 0, Scaled(x), Scaled(y));
    Unit(0);
  }

  /** Six symbols line up in the state; the seventh pushes the first one out. */
  lemma FoldSeven(w: Word, c2: bv32, c3: bv32, c4: bv32, c5: bv32, c6: bv32)
    requires |w| == 7 && Step(w[0], w[1]) == c2 && Step(c2, w[2]) == c3 && Step(c3, w[3]) == c4
    requires Step(c4, w[4]) == c5 && Step(c5, w[5]) == c6
    ensures Fold(0, w) == Step(c6, w[6])
  {
    hide Step, Xor, Shift;
    assert w[1..][1..] == w[2..] && w[2..][1..] == w[3..] && w[3..][1..] == w[4..];
    assert w[4..][1..] == w[5..] && w[5..][1..] == w[6..] && w[6..][1..] == [];
    FoldUnfold(0, w);
    FirstStep(w[0]);
    FoldUnfold(w[0], w[1..]);
    FoldUnfold(c2, w[2..]);
    FoldUnfold(c3, w[3..]);
    FoldUnfold(c4, w[4..]);
    FoldUnfold(c5, w[5..]);
    FoldUnfold(c6, w[6..]);
    FoldUnfold(Step(c6, w[6]), []);
  }

  lemma FirstStep(d: bv32)
    ensures Step(0, d) == d
  {
    hide Shift, Xor;
    ZeroShift();
    Unit(d);
  }

  lemma Products0() ensures Scaled(0) == [0, 0, 0, 0, 0, 0, 0] {}
  lemma Products1() ensures Scaled(1) == [1, 29, 22, 20, 21, 29, 18] {}
  lemma Products2() ensures Scaled(2) == [2, 19, 5, 1, 3, 19, 13] {}
  lemma Products4() ensures Scaled(4) == [4, 15, 10, 2, 6, 15, 26] {}
  lemma Products8() ensures Scaled(8) == [8, 30, 20, 4, 12, 30, 29] {}
  lemma Products16() ensures Scaled(16) == [16, 21, 1, 8, 24, 21, 19] {}

  lemma Vanish0()
    ensures Vanishes(0)
  {
    hide Fold, Scaled, Step;
    Products0();
    FirstStep(0);
    FoldSeven(Scaled(0), 0, 0, 0, 0, 0);
  }

  lemma Vanish1()
    ensures Vanishes(1)
  {
    hide Fold, Scaled;
    Products1();
    FoldSeven(Scaled(1), 0x3d, 0x7b6, 0xf6d4, 0x1eda95, 0x3db52bd);
  }

  lemma Vanish2()
    ensures Vanishes(2)
  {
    hide Fold, Scaled;
    Products2();
    FoldSeven(Scaled(2), 0x53, 0xa65, 0x14ca1, 0x299423, 0x5328473);
  }

  lemma Vanish4()
    ensures Vanishes(4)
  {
    hide Fold, Scaled;
    Products4();
    FoldSeven(Scaled(4), 0x8f, 0x11ea, 0x23d42, 0x47a846, 0x8f508cf);
  }

  lemma Vanish8()
    ensures Vanishes(8)
  {
    hide Fold, Scaled;
    Products8();
    FoldSeven(Scaled(8), 0x11e, 0x23d4, 0x47a84, 0x8f508c, 0x11ea119e);
  }

  lemma Vanish16()
    ensures Vanishes(16)
  {
    hide Fold, Scaled;
    Products16();
    FoldSeven(Scaled(16), 0x215, 0x42a1, 0x85428, 0x10a8518, 0x2150a315);
  }

  lemma UnitVanishes(a: bv32)
    requires a == 0 || a == 1 || a == 2 || a == 4 || a == 8 || a == 16
    ensures Vanishes(a)
  {
    hide Vanishes;
    Vanish0();
    Vanish1();
    Vanish2();
    Vanish4();
    Vanish8();
    Vanish16();
  }

  function Bit(a: bv32, mask: bv32): bv32 { a & mask }

  lemma BitsOf(a: bv32)
    requires a < 32
    ensures a == Xor(Xor(Xor(Xor(Bit(a, 1), Bit(a, 2)), Bit(a, 4)), Bit(a, 8)), Bit(a, 16))
  {
  }

  lemma BitIs(a: bv32, mask: bv32)
    requires mask == 1 || mask == 2 || mask == 4 || mask == 8 || mask == 16
    ensures Bit(a, mask) == 0 || Bit(a, mask) == mask
  {
  }

  lemma AllVanish(a: bv32)
    requires a < 32
    ensures Vanishes(a)
  {
    hide Vanishes, Xor, Bit;
    BitsOf(a);
    BitIs(a, 1);
    BitIs(a, 2);
    BitIs(a, 4);
    BitIs(a, 8);
    BitIs(a, 16);
    UnitVanishes(Bit(a, 1));
    UnitVanishes(Bit(a, 2));
    UnitVanishes(Bit(a, 4));
    UnitVanishes(Bit(a, 8));
    UnitVanishes(Bit(a, 16));
    var s2 := Xor(Bit(a, 1), Bit(a, 2));
    var s4 := Xor(s2, Bit(a, 4));
    VanishSum(Bit(a, 1), Bit(a, 2));
    VanishSum(s2, Bit(a, 4));
    VanishSum(s4, Bit(a, 8));
    VanishSum(Xor(s4, Bit(a, 8)), Bit(a, 16));
  }

  /** The product of a polynomial with the generator: (q x + a) g = (q g) x + a g. */
  function Multiple(q: Word): (w: Word)
    ensures |w| == |q| + 6
  {
    if q == [] then Zeros(6)
    else
      var n := |q| - 1;
      Sum(Multiple(q[..n]) + [0], Zeros(n) + Scaled(q[n]))
  }

  lemma MultipleAppend(q: Word, a: bv32)
    ensures Multiple(q + [a]) == Sum(Multiple(q) + [0], Zeros(|q|) + Scaled(a))
  {
    hide Scaled, Xor;
    assert (q + [a])[..|q|] == q && (q + [a])[|q|] == a;
  }

  lemma {:induction false} FoldZero(n: nat)
    ensures Fold(0, Zeros(n)) == 0
  {
    hide Shift, Xor;
    if n > 0 {
      ZeroShift();
      Unit(0);
      assert Zeros(n)[1..] == Zeros(n - 1);
      FoldZero(n - 1);
    }
  }

  lemma FoldLast(u: Word, d: bv32)
    ensures Fold(0, u + [d]) == Step(Fold(0, u), d)
  {
    hide Step;
    FoldAppend(0, u, [d]);
    FoldUnfold(Fold(0, u), [d]);
    FoldUnfold(Step(Fold(0, u), d), []);
  }

  /** Every multiple of the generator leaves the zero state. */
  lemma {:induction false} MultiplesVanish(q: Word)
    requires Symbols(q)
    ensures Fold(0, Multiple(q)) == 0
    decreases |q|
  {
    hide Fold, Scaled, Xor, Shift;
    if q == [] {
      FoldZero(6);
    } else {
      var n := |q| - 1;
      MultiplesVanish(q[..n]);
      FoldLast(Multiple(q[..n]), 0);
      ZeroShift();
      Unit(0);
      FoldAppend(0, Zeros(n), Scaled(q[n]));
      FoldZero(n);
      AllVanish(q[n]);
      Superposition(0, 0, Multiple(q[..n]) + [0], Zeros(n) + Scaled(q[n]));
    }
  }

  // --------------------------------------------------------------- division

  lemma TimesBounded(a: bv32, b: bv32)
    requires a < 32
    ensures Times(a, b) < 32
  {
    hide Double, Has;
    var a2 := Double(a);
    var a4 := Double(a2);
    var a8 := Double(a4);
    DoubleBounded(a);
    DoubleBounded(a2);
    DoubleBounded(a4);
    DoubleBounded(a8);
  }

  lemma {:induction false} MultipleSymbols(q: Word)
    requires Symbols(q)
    ensures Symbols(Multiple(q))
    decreases |q|
  {
    hide Xor, Times, Coefficient;
    if q != [] {
      var n := |q| - 1;
      MultipleSymbols(q[..n]);
      forall i | 0 <= i < 7 ensures Scaled(q[n])[i] < 32 { TimesBounded(q[n], Coefficient(i)); }
      SumSymbols(Multiple(q[..n]) + [0], Zeros(n) + Scaled(q[n]));
    }
  }

  lemma SumSymbols(u: Word, v: Word)
    requires |u| == |v| && Symbols(u) && Symbols(v)
    ensures Symbols(Sum(u, v))
  {
    hide Xor;
    forall i | 0 <= i < |u| ensures Sum(u, v)[i] < 32 { Difference(u[i], v[i]); }
  }

  /** One more coefficient of the quotient settles one more coefficient of the product. */
  lemma MultipleNext(q: Word, a: bv32)
    requires Symbols(q) && a < 32
    ensures var n := |q|; Multiple(q + [a])[..n] == Multiple(q)[..n] && Multiple(q + [a])[n] == Xor(Multiple(q)[n], a)
  {
    hide Xor, Times, Multiple, Coefficient;
    var n := |q|;
    MultipleAppend(q, a);
    FirstIsOne();
    TimesOne(a);
    forall i | 0 <= i < n ensures Multiple(q + [a])[i] == Multiple(q)[i] { Unit(Multiple(q)[i]); }
    assert (Zeros(n) + Scaled(a))[n] == a;
  }

  lemma FirstIsOne()
    ensures Coefficient(0) == 1
  {
  }

  /** Long division: some multiple agrees with a word in all but the last six coefficients. */
  lemma Divide(w: Word, n: nat) returns (q: Word)
    requires Symbols(w) && |w| == n + 6
    ensures |q| == n && Symbols(q) && Multiple(q)[..n] == w[..n]
  {
    hide Xor, Multiple;
    q := [];
    for k := 0 to n
      invariant |q| == k && Symbols(q) && Multiple(q)[..k] == w[..k]
    {
      MultipleSymbols(q);
      var a := Xor(Multiple(q)[k], w[k]);
      Difference(Multiple(q)[k], w[k]);
      MultipleNext(q, a);
      Cancel(Multiple(q)[k], w[k]);
      var q' := q + [a];
      assert Multiple(q')[..k + 1] == Multiple(q')[..k] + [Multiple(q')[k]] && w[..k + 1] == w[..k] + [w[k]];
      q := q';
    }
  }

  // ------------------------------------------------------------ remainders

  /** 32^n */
  function Bound(n: nat): bv32 {
    if n == 0 then 1 else if n == 1 then 32 else if n == 2 then 1024 else if n == 3 then 0x8000
    else if n == 4 then 0x10_0000 else if n == 5 then 0x200_0000 else 0x4000_0000
  }

  lemma ShortStep(c: bv32, d: bv32, n: nat)
    requires n < 6 && c < Bound(n) && d < 32
    ensures Step(c, d) < Bound(n + 1) && (Step(c, d) == 0 ==> c == 0 && d == 0)
  {
    hide Shift;
    assert c < 0x200_0000;
    SmallShift(c);
  }

  /** Up to six symbols just line up: only zeros leave zero. */
  lemma {:induction false} ShortWord(w: Word)
    requires |w| <= 6 && Symbols(w)
    ensures Fold(0, w) < Bound(|w|) && (Fold(0, w) == 0 ==> w == Zeros(|w|))
    decreases |w|
  {
    hide Step, Fold;
    if w == [] {
      FoldUnfold(0, w);
    } else {
      var n := |w| - 1;
      ShortWord(w[..n]);
      assert w == w[..n] + [w[n]];
      FoldLast(w[..n], w[n]);
      ShortStep(Fold(0, w[..n]), w[n], n);
    }
  }

  /** A word is a multiple of the generator; six zeros in front make room for any quotient. */
  ghost predicate Divisible(p: Word) {
    exists q: Word :: |q| == |p| && Symbols(q) && Zeros(6) + p == Multiple(q)
  }

  lemma FoldPadded(p: Word)
    ensures Fold(0, Zeros(6) + p) == Fold(0, p)
  {
    FoldAppend(0, Zeros(6), p);
    FoldZero(6);
  }

  /** The state is the remainder: it is zero exactly for multiples of the generator. */
  lemma ZeroIffDivisible(p: Word)
    requires Symbols(p)
    ensures Fold(0, p) == 0 <==> Divisible(p)
  {
    hide Fold, Multiple, Xor;
    FoldPadded(p);
    if Divisible(p) {
      var q: Word :| |q| == |p| && Symbols(q) && Zeros(6) + p == Multiple(q);
      MultiplesVanish(q);
    }
    if Fold(0, p) == 0 {
      var w, n := Zeros(6) + p, |p|;
      var q := Divide(w, n);
      MultipleSymbols(q);
      MultiplesVanish(q);
      SameRemainder(w, Multiple(q), n);
    }
  }

  /** Words that agree up to their last six symbols and leave one remainder are equal. */
  lemma SameRemainder(u: Word, v: Word, n: nat)
    requires Symbols(u) && Symbols(v) && |u| == |v| == n + 6 && u[..n] == v[..n] && Fold(0, u) == Fold(0, v)
    ensures u == v
  {
    hide Fold, Xor;
    var e := Sum(u, v);
    forall i | 0 <= i < |e| ensures e[i] < 32 && (e[i] == 0 <==> u[i] == v[i]) { Difference(u[i], v[i]); }
    Superposition(0, 0, u, v);
    Unit(0);
    Unit(Fold(0, u));
    forall i | 0 <= i < n ensures e[i] == 0 { assert u[..n][i] == v[..n][i]; }
    assert e == Zeros(n) + e[n..];
    FoldAppend(0, Zeros(n), e[n..]);
    FoldZero(n);
    ShortWord(e[n..]);
    forall i | n <= i < |e| ensures e[i] == 0 { assert e[n..][i - n] == 0; }
  }

  /** PolyMod is zero exactly when its input, with a one in front, is divisible by the generator. */
  lemma PolyModDivides(v: Word)
    requires Symbols(v)
    ensures PolyMod(v) == 0 <==> Divisible([1] + v)
  {
    hide Fold, Shift, Xor, Divisible;
    FoldUnfold(0, [1] + v);
    assert ([1] + v)[1..] == v;
    ZeroShift();
    Unit(1);
    ZeroIffDivisible([1] + v);
  }

  /** The polynomial of the comment, with all coefficients one, is not the generator: it is not zero itself. */
  lemma AllOnesIsNotIt()
    ensures PolyMod([1, 1, 1, 1, 1, 1]) != 0
  {
    hide Fold;
    var w: Word := [1, 1, 1, 1, 1, 1, 1];
    FoldSeven(w, 0x21, 0x421, 0x8421, 0x108421, 0x2108421);
    FoldUnfold(0, w);
    assert w[1..] == [1, 1, 1, 1, 1, 1];
  }
}
