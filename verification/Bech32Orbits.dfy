/**
  Checksum states up to a factor.  Two states that are multiples of each other, but for the lowest
  coefficient, have one normal form: the multiple whose highest coefficient is one.
 */
module Bech32Orbits {
  import opened Bech32Code
  import opened Bech32Field

  // ------------------------------------------------------- feeding zeros commutes

  /** The state after d zero symbols. */
  function ShiftBy(c: bv32, d: nat): bv32 {
    if d == 0 then c else Shift(ShiftBy(c, d - 1))
  }

  /** Doubling and feeding zeros commute. */
  lemma DoubleShift(c: bv32)
    requires c < LIMIT
    ensures Commutes(c)
  {
    hide Commutes, Xor;
    Parts(c);
    DoubleBelow(Below(c));
    DoubleLeaving(c);
    CommutesSum(Below(c), Leaving(c));
  }

  predicate Commutes(c: bv32) {
    Shift(Double(c)) == Double(Shift(c))
  }

  lemma CommutesSum(x: bv32, y: bv32)
    requires Commutes(x) && Commutes(y)
    ensures Commutes(Xor(x, y))
  {
    hide Xor, Shift, Double;
    DoubleLinear(x, y);
    ShiftLinear(x, y);
    ShiftLinear(Double(x), Double(y));
    DoubleLinear(Shift(x), Shift(y));
  }

  /** The five coefficients that stay and the one that leaves. */
  function Below(c: bv32): bv32 { c & 0x1ffffff }

  function Leaving(c: bv32): bv32 {
    Xor(Xor(Xor(Xor(Bit(c, 0x200_0000), Bit(c, 0x400_0000)), Bit(c, 0x800_0000)), Bit(c, 0x1000_0000)),
      Bit(c, 0x2000_0000))
  }

  function Bit(c: bv32, unit: bv32): bv32 { c & unit }

  lemma Parts(c: bv32)
    requires c < LIMIT
    ensures c == Xor(Below(c), Leaving(c)) && Below(c) < 0x200_0000
  {
  }

  lemma DoubleBelow(x: bv32)
    requires x < 0x200_0000
    ensures Commutes(x)
  {
    hide Shift;
    SmallShift(x);
    assert Double(x) < 0x200_0000;
    SmallShift(Double(x));
  }

  lemma Bit0(c: bv32) ensures Bit(c, 0x200_0000) == 0 || Bit(c, 0x200_0000) == 0x200_0000 {}
  lemma Bit1(c: bv32) ensures Bit(c, 0x400_0000) == 0 || Bit(c, 0x400_0000) == 0x400_0000 {}
  lemma Bit2(c: bv32) ensures Bit(c, 0x800_0000) == 0 || Bit(c, 0x800_0000) == 0x800_0000 {}
  lemma Bit3(c: bv32) ensures Bit(c, 0x1000_0000) == 0 || Bit(c, 0x1000_0000) == 0x1000_0000 {}
  lemma Bit4(c: bv32) ensures Bit(c, 0x2000_0000) == 0 || Bit(c, 0x2000_0000) == 0x2000_0000 {}

  lemma UnitsCommute()
    ensures Commutes(0) && Commutes(0x200_0000) && Commutes(0x400_0000)
    ensures Commutes(0x800_0000) && Commutes(0x1000_0000) && Commutes(0x2000_0000)
  {
  }

  lemma DoubleLeaving(c: bv32)
    ensures Commutes(Leaving(c))
  {
    hide Commutes, Xor, Bit;
    Bit0(c);
    Bit1(c);
    Bit2(c);
    Bit3(c);
    Bit4(c);
    UnitsCommute();
    var t0, t1, t2, t3 := Bit(c, 0x200_0000), Bit(c, 0x400_0000), Bit(c, 0x800_0000), Bit(c, 0x1000_0000);
    CommutesSum(t0, t1);
    CommutesSum(Xor(t0, t1), t2);
    CommutesSum(Xor(Xor(t0, t1), t2), t3);
    CommutesSum(Xor(Xor(Xor(t0, t1), t2), t3), Bit(c, 0x2000_0000));
  }

  lemma {:induction false} ShiftByBounded(c: bv32, d: nat)
    requires c < LIMIT
    ensures ShiftBy(c, d) < LIMIT
  {
    hide Shift;
    if d > 0 {
      ShiftByBounded(c, d - 1);
      ShiftBounded(ShiftBy(c, d - 1));
    }
  }

  lemma {:induction false} DoubleShiftBy(c: bv32, d: nat)
    requires c < LIMIT
    ensures ShiftBy(Double(c), d) == Double(ShiftBy(c, d))
  {
    hide Shift, Double;
    if d > 0 {
      DoubleShiftBy(c, d - 1);
      ShiftByBounded(c, d - 1);
      DoubleShift(ShiftBy(c, d - 1));
    }
  }

  lemma {:induction false} ScaleShiftBy(c: bv32, k: nat, d: nat)
    requires c < LIMIT
    ensures ShiftBy(Scale(c, k), d) == Scale(ShiftBy(c, d), k)
    decreases k
  {
    hide ShiftBy, Double;
    if k > 0 {
      ScaleShiftBy(c, k - 1, d);
      ScaleBounded(c, k - 1);
      DoubleShiftBy(Scale(c, k - 1), d);
    }
  }

  lemma {:induction false} ShiftBySum(x: bv32, y: bv32, d: nat)
    ensures ShiftBy(Xor(x, y), d) == Xor(ShiftBy(x, d), ShiftBy(y, d))
  {
    hide Shift, Xor;
    if d > 0 {
      ShiftBySum(x, y, d - 1);
      ShiftLinear(ShiftBy(x, d - 1), ShiftBy(y, d - 1));
    }
  }

  lemma {:induction false} ShiftByTwice(c: bv32, d: nat, n: nat)
    ensures ShiftBy(ShiftBy(c, d), n) == ShiftBy(c, d + n)
    decreases n
  {
    hide Shift;
    if n > 0 { ShiftByTwice(c, d, n - 1); }
  }

  lemma {:induction false} ZerosStay(n: nat)
    ensures ShiftBy(0, n) == 0
  {
    hide Shift;
    ZeroShift();
    if n > 0 { ZerosStay(n - 1); }
  }

  lemma {:induction false} ShiftByInjective(x: bv32, n: nat)
    requires x < LIMIT && ShiftBy(x, n) == 0
    ensures x == 0
  {
    hide Shift;
    if n > 0 {
      ShiftByBounded(x, n - 1);
      ShiftInjective(ShiftBy(x, n - 1));
      ShiftByInjective(x, n - 1);
    }
  }

  lemma ShiftByCancel(x: bv32, y: bv32, n: nat)
    requires x < LIMIT && y < LIMIT && ShiftBy(x, n) == ShiftBy(y, n)
    ensures x == y
  {
    hide Xor, ShiftBy;
    ShiftBySum(x, y, n);
    Unit(ShiftBy(x, n));
    XorBounded(x, y);
    ShiftByInjective(Xor(x, y), n);
    Cancel(x, y);
    Unit(x);
  }

  // ----------------------------------------------------------------- normal forms

  /** All but the lowest coefficient. */
  function Upper(c: bv32): bv32 { c & 0x3fff_ffe0 }

  lemma UpperDouble(c: bv32)
    ensures Upper(Double(c)) == Double(Upper(c))
  {
    hide Upper, Xor, LowBits, Carry, Carry3;
    UpperLinear(Xor(LowBits(c), Carry(c)), Carry3(c));
    UpperLinear(LowBits(c), Carry(c));
    UpperLowBits(c);
    UpperCarry(c);
    UpperCarry3(c);
  }

  lemma UpperLinear(x: bv32, y: bv32) ensures Upper(Xor(x, y)) == Xor(Upper(x), Upper(y)) {}
  lemma UpperLowBits(c: bv32)
    ensures Upper(LowBits(c)) == LowBits(Upper(c))
  {
    hide LowBits;
    MaskLowBits(c);
  }

  lemma MaskLowBits(c: bv32) ensures LowBits(c) & 0x3fff_ffe0 == LowBits(c & 0x3fff_ffe0) {}
  lemma UpperCarry(c: bv32) ensures Upper(Carry(c)) == Carry(Upper(c)) {}
  lemma UpperCarry3(c: bv32) ensures Upper(Carry3(c)) == Carry3(Upper(c)) {}

  lemma UpperFacts(c: bv32, e: bv32)
    requires e < 32
    ensures Upper(c) < LIMIT && Upper(Upper(c)) == Upper(c) && Upper(Xor(c, e)) == Upper(c)
  {
  }

  lemma {:induction false} UpperScale(c: bv32, k: nat)
    ensures Upper(Scale(c, k)) == Scale(Upper(c), k)
  {
    hide Upper, Double;
    if k > 0 {
      UpperScale(c, k - 1);
      UpperDouble(Scale(c, k - 1));
    }
  }

  /** The highest coefficient that is not zero. */
  function Leading(c: bv32): bv32 {
    if c >> 25 != 0 then c >> 25 else if c >> 20 != 0 then c >> 20 else if c >> 15 != 0 then c >> 15
    else if c >> 10 != 0 then c >> 10 else c >> 5
  }

  lemma LeadingIsSymbol(c: bv32)
    requires c < LIMIT
    ensures Leading(c) < 32 && (Upper(c) == c && c != 0 ==> Leading(c) != 0)
  {
  }

  lemma LeadingDouble(c: bv32)
    requires c < LIMIT && Upper(c) == c
    ensures Leading(Double(c)) == Double(Leading(c))
  {
  }

  lemma {:induction false} LeadingScale(c: bv32, k: nat)
    requires c < LIMIT && Upper(c) == c
    ensures Leading(Scale(c, k)) == Scale(Leading(c), k)
  {
    hide Leading, Double, Upper;
    if k > 0 {
      LeadingScale(c, k - 1);
      ScaleBounded(c, k - 1);
      UpperScale(c, k - 1);
      LeadingDouble(Scale(c, k - 1));
    }
  }

  /** n is the multiple of the upper part of c whose highest coefficient is one. */
  ghost predicate Normal(c: bv32, n: bv32) {
    Leading(n) == 1 && exists k: nat :: k < 31 && n == Scale(Upper(c), k)
  }

  /** With that coefficient, only one multiple of a state has one in its place. */
  lemma OneNormal(x: bv32, j: nat, k: nat)
    requires x < LIMIT && Upper(x) == x && Leading(Scale(x, j)) == 1 && Leading(Scale(x, k)) == 1
    ensures Scale(x, j) == Scale(x, k)
  {
    hide Scale, Leading, Upper;
    LeadingScale(x, j);
    LeadingScale(x, k);
    LeadingIsSymbol(x);
    NotFromZero(j);
    var l := LogOf(Leading(x));
    ScaleTwice(1, l, j);
    ScaleTwice(1, l, k);
    OneExponent(l + j);
    OneExponent(l + k);
    SameResidue(l, j, k);
    ScaleMod(x, j);
    ScaleMod(x, k);
  }

  lemma SameResidue(l: nat, j: nat, k: nat)
    requires (l + j) % 31 == 0 && (l + k) % 31 == 0
    ensures j % 31 == k % 31
  {
  }

  lemma {:induction false} NotFromZero(j: nat)
    ensures Scale(0, j) == 0
  {
    if j > 0 { NotFromZero(j - 1); }
  }

  lemma NormalExponent(c: bv32, n: bv32) returns (s: nat)
    requires Normal(c, n)
    ensures s < 31 && n == Scale(Upper(c), s) && Leading(n) == 1 && Upper(c) < LIMIT && Upper(Upper(c)) == Upper(c)
  {
    hide Scale, Upper, Leading;
    s :| s < 31 && n == Scale(Upper(c), s);
    UpperFacts(c, 0);
  }

  /** Dividing by 2^j. */
  lemma Divided(x: bv32, y: bv32, j: nat, k: nat)
    requires x < LIMIT && y < LIMIT && j < 31 && Scale(x, j) == Scale(y, k)
    ensures x == Scale(y, k + 31 - j)
  {
    hide Scale;
    Period(x, 0);
    ScaleTwice(x, j, 31 - j);
    ScaleTwice(y, k, 31 - j);
    NoScale(x);
  }

  /** Multiples of each other have one normal form. */
  lemma SameNormal(c: bv32, d: bv32, j: nat, k: nat, n: bv32, m: bv32)
    requires j < 31 && Upper(Scale(c, j)) == Upper(Scale(d, k)) && Normal(c, n) && Normal(d, m)
    ensures n == m
  {
    hide Scale, Upper, Leading, Normal;
    var s := NormalExponent(c, n);
    var r := NormalExponent(d, m);
    UpperScale(c, j);
    UpperScale(d, k);
    Divided(Upper(c), Upper(d), j, k);
    ScaleTwice(Upper(d), k + 31 - j, s);
    OneNormal(Upper(d), k + 31 - j + s, r);
  }

  lemma NoScale(x: bv32)
    ensures Scale(x, 0) == x
  {
  }

  /** A state with a normal form has more than its lowest coefficient. */
  lemma NormalNotZero(c: bv32, n: bv32, j: nat)
    requires Normal(c, n) && j < 31
    ensures Upper(Scale(c, j)) != 0
  {
    hide Scale, Upper, Normal;
    var s := NormalExponent(c, n);
    UpperScale(c, j);
    NoScale(0);
    NotFromZero(s);
    NotFromZero(31 - j);
    if Scale(Upper(c), j) == 0 { Divided(Upper(c), 0, j, 0); }
  }

  /** How the normal forms of the tables are found: by multiplying with a symbol. */
  lemma NormalByTimes(c: bv32, e: bv32, n: bv32)
    requires 0 < e < 32 && n == Times(Upper(c), e) && Leading(n) == 1
    ensures Normal(c, n)
  {
    hide Times, Leading, Upper, Scale;
    UpperFacts(c, 0);
    var k := LogOf(e);
    TimesPower(Upper(c), k);
  }
}
