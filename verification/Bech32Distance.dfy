/**
  The distance of the checksum code.  Over GF(32) a symbol followed by d zeros leaves the symbol
  times x^d.  Within 89 symbols no two of these are multiples of each other, even when their lowest
  coefficients are left aside, so no three changed symbols of a word cancel; and no two of them add
  up to the difference of the two checksum constants.
 */
module Bech32Distance {
  import opened Bech32Code
  import opened Bech32Field
  import opened Bech32Orbits
  import opened Bech32Tables

  // ------------------------------------------------------ multiples of powers of x

  /** A nonzero symbol and a zeros are a multiple of x^a. */
  lemma SymbolPower(c: bv32, a: nat) returns (k: nat)
    requires 0 < c < 32
    ensures k < 31 && ShiftBy(c, a) == Scale(ShiftBy(1, a), k)
  {
    hide ShiftBy, Scale;
    k := LogOf(c);
    ScaleShiftBy(1, k, a);
  }

  lemma NotConstant(c: bv32, a: nat)
    requires 0 < c < 32 && 1 <= a <= 88
    ensures Upper(ShiftBy(c, a)) != 0
  {
    hide ShiftBy, Scale, Upper, Normal, Rank;
    PowersListed(a);
    var n: bv32 :| Normal(ShiftBy(1, a), n) && Rank(n) == a;
    var k := SymbolPower(c, a);
    NormalNotZero(ShiftBy(1, a), n, k);
  }

  /** Multiples of different powers of x differ above the lowest coefficient. */
  lemma NotTogether(c: bv32, a: nat, d: bv32, b: nat)
    requires 0 < c < 32 && d < 32 && 1 <= b < a <= 88
    ensures Upper(ShiftBy(c, a)) != Upper(ShiftBy(d, b))
  {
    hide ShiftBy, Scale, Upper, Normal, Rank;
    if d == 0 {
      NotConstant(c, a);
      ZerosStay(b);
      UpperOfZero();
    } else {
      PowersListed(a);
      PowersListed(b);
      var n: bv32 :| Normal(ShiftBy(1, a), n) && Rank(n) == a;
      var m: bv32 :| Normal(ShiftBy(1, b), m) && Rank(m) == b;
      var j := SymbolPower(c, a);
      var k := SymbolPower(d, b);
      if Upper(ShiftBy(c, a)) == Upper(ShiftBy(d, b)) { SameNormal(ShiftBy(1, a), ShiftBy(1, b), j, k, n, m); }
    }
  }

  lemma UpperOfZero()
    ensures Upper(0) == 0
  {
  }

  /** Nor are they on the way to the difference of the constants. */
  lemma NotOnTheWay(c: bv32, a: nat, d: nat, s: bv32)
    requires 0 < c < 32 && 1 <= a <= 88 && d <= 87 && Leads(d, s)
    ensures Upper(ShiftBy(c, a)) != Upper(s)
  {
    hide ShiftBy, Scale, Upper, Normal, Rank;
    PowersListed(a);
    GapsListed(d);
    var n: bv32 :| Normal(ShiftBy(1, a), n) && Rank(n) == a;
    var t: bv32 :| Leads(d, t) && Listed(t, 100 + d);
    ShiftByCancel(s, t, d);
    var m: bv32 :| Normal(s, m) && Rank(m) == 100 + d;
    var j := SymbolPower(c, a);
    ScaleZero(s);
    if Upper(ShiftBy(c, a)) == Upper(s) { SameNormal(ShiftBy(1, a), s, j, 0, n, m); }
  }

  lemma ScaleZero(c: bv32)
    ensures Scale(c, 0) == c
  {
  }

  // --------------------------------------------------------- words of few symbols

  lemma {:induction false} FoldZeros(c: bv32, v: Word)
    requires forall i :: 0 <= i < |v| ==> v[i] == 0
    ensures Fold(c, v) == ShiftBy(c, |v|)
    decreases |v|
  {
    hide Xor, Shift;
    if v != [] {
      var n := |v| - 1;
      FoldZeros(c, v[..n]);
      assert v == v[..n] + [v[n]];
      FoldAppend(c, v[..n], [v[n]]);
      FoldUnfold(ShiftBy(c, n), [v[n]]);
      FoldUnfold(Step(ShiftBy(c, n), 0), []);
      Unit(Shift(ShiftBy(c, n)));
    }
  }

  lemma FoldCons(c: bv32, d: bv32, v: Word)
    ensures Fold(c, [d] + v) == Fold(Step(c, d), v)
  {
    FoldUnfold(c, [d] + v);
    assert ([d] + v)[1..] == v;
  }

  predicate ZeroFrom(e: Word, i: int, k: int)
    requires 0 <= i <= k <= |e|
  {
    forall n :: i <= n < k ==> e[n] == 0
  }

  /** From position i up to the next symbol that is not zero. */
  lemma FoldTo(c: bv32, e: Word, i: nat, k: nat)
    requires i <= k < |e| && ZeroFrom(e, i, k)
    ensures Fold(c, e[i..]) == Fold(Xor(ShiftBy(c, k - i + 1), e[k]), e[k + 1..])
  {
    hide Fold, Shift, Xor;
    var gap, rest := e[i..k], e[k + 1..];
    assert e[i..] == gap + ([e[k]] + rest);
    FoldAppend(c, gap, [e[k]] + rest);
    FoldZeros(c, gap);
    FoldCons(ShiftBy(c, k - i), e[k], rest);
  }

  /** What is left of a word whose first symbol that is not zero is at i. */
  lemma FoldFirst(e: Word, i: nat)
    requires i < |e| && ZeroFrom(e, 0, i)
    ensures Fold(0, e) == Fold(e[i], e[i + 1..])
  {
    hide Fold, ShiftBy, Xor, ZeroFrom;
    assert e[0..] == e;
    FoldTo(0, e, 0, i);
    ZerosStay(i + 1);
    Unit(e[i]);
  }

  /** To the end, past one more symbol. */
  lemma FoldLast(c: bv32, e: Word, i: nat, k: nat)
    requires i <= k < |e| && ZeroFrom(e, i, k) && ZeroFrom(e, k + 1, |e|)
    ensures Fold(c, e[i..]) == ShiftBy(Xor(ShiftBy(c, k - i + 1), e[k]), |e| - 1 - k)
  {
    hide Fold, ShiftBy, Xor;
    FoldTo(c, e, i, k);
    FoldZeros(Xor(ShiftBy(c, k - i + 1), e[k]), e[k + 1..]);
  }

  lemma FoldTwo(e: Word, i: nat, k: nat)
    requires i < k < |e| && ZeroFrom(e, 0, i) && ZeroFrom(e, i + 1, k) && ZeroFrom(e, k + 1, |e|)
    ensures Fold(0, e) == ShiftBy(Xor(ShiftBy(e[i], k - i), e[k]), |e| - 1 - k)
  {
    hide Fold, ShiftBy, Xor, ZeroFrom;
    FoldFirst(e, i);
    FoldLast(e[i], e, i + 1, k);
  }

  lemma FoldThree(e: Word, i: nat, j: nat, k: nat)
    requires i < j < k < |e| && ZeroFrom(e, 0, i) && ZeroFrom(e, i + 1, j) && ZeroFrom(e, j + 1, k)
      && ZeroFrom(e, k + 1, |e|)
    ensures Fold(0, e) == ShiftBy(Xor(ShiftBy(Xor(ShiftBy(e[i], j - i), e[j]), k - j), e[k]), |e| - 1 - k)
  {
    hide Fold, ShiftBy, Xor, ZeroFrom;
    FoldFirst(e, i);
    FoldTo(e[i], e, i + 1, j);
    FoldLast(Xor(ShiftBy(e[i], j - i), e[j]), e, j + 1, k);
  }

  /** A sum with a symbol vanishes only without an upper part. */
  lemma SumNotZero(c: bv32, e: bv32)
    requires c < LIMIT && e < 32 && Upper(c) != 0
    ensures 0 < Xor(c, e) < LIMIT
  {
  }

  /** A word with two symbols that are not zero, at most 88 apart, has a nonzero remainder. */
  lemma TwoNonzero(e: Word, i: nat, k: nat)
    requires i < k < |e| && k - i <= 88 && Symbols(e) && e[i] != 0
    requires forall n :: 0 <= n < |e| && n != i && n != k ==> e[n] == 0
    ensures Fold(0, e) != 0
  {
    hide Fold, ShiftBy, Xor, Upper;
    FoldTwo(e, i, k);
    var s := ShiftBy(e[i], k - i);
    NotConstant(e[i], k - i);
    ShiftByBounded(e[i], k - i);
    SumNotZero(s, e[k]);
    if Fold(0, e) == 0 { ShiftByInjective(Xor(s, e[k]), |e| - 1 - k); }
  }

  /** The remainder of three symbols, by their distances from the last. */
  lemma ThreeRemainder(e: Word, i: nat, j: nat, k: nat)
    requires i < j < k < |e| && forall n :: 0 <= n < |e| && n != i && n != j && n != k ==> e[n] == 0
    ensures Fold(0, e) == ShiftBy(Xor(Xor(ShiftBy(e[i], k - i), ShiftBy(e[j], k - j)), e[k]), |e| - 1 - k)
  {
    hide Fold, ShiftBy, Xor;
    FoldThree(e, i, j, k);
    ShiftBySum(ShiftBy(e[i], j - i), e[j], k - j);
    ShiftByTwice(e[i], j - i, k - j);
  }

  /** So has one with three. */
  lemma ThreeNonzero(e: Word, i: nat, j: nat, k: nat)
    requires i < j < k < |e| && k - i <= 88 && Symbols(e) && e[i] != 0
    requires forall n :: 0 <= n < |e| && n != i && n != j && n != k ==> e[n] == 0
    ensures Fold(0, e) != 0
  {
    hide Fold, ShiftBy, Xor, Upper;
    ThreeRemainder(e, i, j, k);
    var a, b := ShiftBy(e[i], k - i), ShiftBy(e[j], k - j);
    ShiftByBounded(e[i], k - i);
    ShiftByBounded(e[j], k - j);
    NotTogether(e[i], k - i, e[j], k - j);
    ThreeNotZero(a, b, e[k]);
    if Fold(0, e) == 0 { ShiftByInjective(Xor(Xor(a, b), e[k]), |e| - 1 - k); }
  }

  lemma ThreeNotZero(a: bv32, b: bv32, c: bv32)
    requires a < LIMIT && b < LIMIT && c < 32 && Upper(a) != Upper(b)
    ensures 0 < Xor(Xor(a, b), c) < LIMIT
  {
    hide Upper, Xor;
    UpperOfSum(a, b);
    XorBounded(a, b);
    SumNotZero(Xor(a, b), c);
  }

  lemma UpperOfSum(a: bv32, b: bv32)
    requires Upper(a) != Upper(b)
    ensures Upper(Xor(a, b)) != 0
  {
    hide Upper, Xor;
    UpperLinear(a, b);
    Cancel(Upper(a), Upper(b));
    Unit(Upper(a));
  }

  /**
    A word of at most 89 symbols from its first nonzero one, with one more, does not leave the
    difference of the constants.
   */
  lemma TwoNotGap(e: Word, i: nat, k: nat)
    requires i < k < |e| <= i + 89 && Symbols(e) && e[i] != 0
    requires forall n :: 0 <= n < |e| && n != i && n != k ==> e[n] == 0
    ensures Fold(0, e) != GAP
  {
    hide Fold, ShiftBy, Xor, Upper;
    FoldTwo(e, i, k);
    var s := Xor(ShiftBy(e[i], k - i), e[k]);
    ShiftByBounded(e[i], k - i);
    SymbolBelow(e[k]);
    XorBounded(ShiftBy(e[i], k - i), e[k]);
    UpperFacts(ShiftBy(e[i], k - i), e[k]);
    if Fold(0, e) == GAP { NotOnTheWay(e[i], k - i, |e| - 1 - k, s); }
  }

  lemma SymbolBelow(e: bv32)
    requires e < 32
    ensures e < LIMIT
  {
  }

  // ------------------------------------------------------- three may cross the gap

  lemma NoShift(c: bv32)
    ensures ShiftBy(c, 0) == c
  {
  }

  lemma ShiftNext(c: bv32, d: nat, s: bv32)
    requires ShiftBy(c, d) == s
    ensures ShiftBy(c, d + 1) == Shift(s)
  {
  }

  lemma TenZeros()
    ensures ShiftBy(0x00000014, 10) == 0x05418ed4
  {
    hide ShiftBy;
    NoShift(0x00000014);
    ShiftNext(0x00000014, 0, 0x00000014);
    ShiftNext(0x00000014, 1, 0x00000280);
    ShiftNext(0x00000014, 2, 0x00005000);
    ShiftNext(0x00000014, 3, 0x000a0000);
    ShiftNext(0x00000014, 4, 0x01400000);
    ShiftNext(0x00000014, 5, 0x28000000);
    ShiftNext(0x00000014, 6, 0x34b57b49);
    ShiftNext(0x00000014, 7, 0x27a9b623);
    ShiftNext(0x00000014, 8, 0x02187f0c);
    ShiftNext(0x00000014, 9, 0x3865b632);
  }

  lemma ElevenZeros()
    ensures ShiftBy(0x05418ec7, 11) == 0x09beeed1
  {
    hide ShiftBy;
    NoShift(0x05418ec7);
    ShiftNext(0x05418ec7, 0, 0x05418ec7);
    ShiftNext(0x05418ec7, 1, 0x0e61568d);
    ShiftNext(0x05418ec7, 2, 0x0fb11185);
    ShiftNext(0x05418ec7, 3, 0x35b9f085);
    ShiftNext(0x05418ec7, 4, 0x0638cfa3);
    ShiftNext(0x05418ec7, 5, 0x1a232dbf);
    ShiftNext(0x05418ec7, 6, 0x1cecca75);
    ShiftNext(0x05418ec7, 7, 0x182aeaea);
    ShiftNext(0x05418ec7, 8, 0x26be7767);
    ShiftNext(0x05418ec7, 9, 0x20e0578c);
    ShiftNext(0x05418ec7, 10, 0x361e9333);
  }

  /**
    Three symbols that leave the difference of the constants: 20, 19 and 20 at distances 79, 69 and
    58 from the end.
   */
  lemma ThreeReachGap()
    ensures ShiftBy(Xor(ShiftBy(Xor(ShiftBy(20, 10), 19), 11), 20), 58) == GAP
  {
    hide ShiftBy;
    TenZeros();
    ElevenZeros();
    Gap58();
    assert Xor(0x05418ed4, 19) == 0x05418ec7 && Xor(0x09beeed1, 20) == 0x09beeec5;
  }
}
