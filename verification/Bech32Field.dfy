/**
  Arithmetic of GF(32), on single symbols and on whole checksum states at once: a state is a
  vector of six coefficients, and multiplying it by a symbol multiplies each of them.
 */
module Bech32Field {
  import opened Bech32Code

  /** Each of the six coefficients times the generator 2 of the field, with x^5 = x^3 + 1. */
  function Double(c: bv32): bv32 {
    Xor(Xor(LowBits(c), Carry(c)), Carry3(c))
  }

  function LowBits(c: bv32): bv32 { (c & 0x1ef7bdef) << 1 }
  function Carry(c: bv32): bv32 { (c & 0x21084210) >> 4 }
  function Carry3(c: bv32): bv32 { (c & 0x21084210) >> 1 }

  lemma DoubleLinear(x: bv32, y: bv32)
    ensures Double(Xor(x, y)) == Xor(Double(x), Double(y))
  {
    hide Xor, LowBits, Carry, Carry3;
    LowBitsLinear(x, y);
    CarryLinear(x, y);
    Carry3Linear(x, y);
    Middle(LowBits(x), LowBits(y), Carry(x), Carry(y));
    Middle(Xor(LowBits(x), Carry(x)), Xor(LowBits(y), Carry(y)), Carry3(x), Carry3(y));
  }

  lemma LowBitsLinear(x: bv32, y: bv32) ensures LowBits(Xor(x, y)) == Xor(LowBits(x), LowBits(y)) {}
  lemma CarryLinear(x: bv32, y: bv32) ensures Carry(Xor(x, y)) == Xor(Carry(x), Carry(y)) {}
  lemma Carry3Linear(x: bv32, y: bv32) ensures Carry3(Xor(x, y)) == Xor(Carry3(x), Carry3(y)) {}

  lemma DoubleBounded(c: bv32)
    ensures Double(c) < LIMIT && (c < 32 ==> Double(c) < 32)
  {
  }

  /** x^5 = x^3 + 1 */
  lemma Minimal(c: bv32)
    requires c < LIMIT
    ensures Double(Double(Double(Double(Double(c))))) == Xor(Double(Double(Double(c))), c)
  {
  }

  // ------------------------------------------------------------------- products

  predicate Has(b: bv32, mask: bv32) { b & mask != 0 }

  function Terms(b0: bool, b1: bool, b2: bool, b3: bool, b4: bool, x0: bv32, x1: bv32, x2: bv32, x3: bv32,
    x4: bv32): bv32 {
    Xor(Xor(Xor(Xor(Term(b0, x0), Term(b1, x1)), Term(b2, x2)), Term(b3, x3)), Term(b4, x4))
  }

  /** A state times a symbol: the sum over the bits of the symbol. */
  function Times(c: bv32, e: bv32): bv32 {
    var c2 := Double(c);
    var c4 := Double(c2);
    var c8 := Double(c4);
    Terms(Has(e, 1), Has(e, 2), Has(e, 4), Has(e, 8), Has(e, 16), c, c2, c4, c8, Double(c8))
  }

  lemma TermSum(b: bool, x: bv32, y: bv32)
    ensures Term(b, Xor(x, y)) == Xor(Term(b, x), Term(b, y))
  {
    hide Xor;
    Unit(0);
  }

  lemma TermDouble(b: bool, x: bv32)
    ensures Double(Term(b, x)) == Term(b, Double(x))
  {
    hide Xor;
    Unit(0);
  }

  lemma TimesLinear(x: bv32, y: bv32, e: bv32)
    ensures Times(Xor(x, y), e) == Xor(Times(x, e), Times(y, e))
  {
    hide Xor, Double, Terms, Has;
    var x2, y2 := Double(x), Double(y);
    var x4, y4 := Double(x2), Double(y2);
    var x8, y8 := Double(x4), Double(y4);
    DoubleLinear(x, y);
    DoubleLinear(x2, y2);
    DoubleLinear(x4, y4);
    DoubleLinear(x8, y8);
    SumOfTerms(Has(e, 1), Has(e, 2), Has(e, 4), Has(e, 8), Has(e, 16), x, x2, x4, x8, Double(x8), y, y2, y4, y8,
      Double(y8));
  }

  lemma SumOfTerms(b0: bool, b1: bool, b2: bool, b3: bool, b4: bool,
                   x0: bv32, x1: bv32, x2: bv32, x3: bv32, x4: bv32, y0: bv32, y1: bv32, y2: bv32, y3: bv32, y4: bv32)
    ensures Terms(b0, b1, b2, b3, b4, Xor(x0, y0), Xor(x1, y1), Xor(x2, y2), Xor(x3, y3), Xor(x4, y4))
         == Xor(Terms(b0, b1, b2, b3, b4, x0, x1, x2, x3, x4), Terms(b0, b1, b2, b3, b4, y0, y1, y2, y3, y4))
  {
    hide Xor, Term;
    TermSum(b0, x0, y0);
    TermSum(b1, x1, y1);
    TermSum(b2, x2, y2);
    TermSum(b3, x3, y3);
    TermSum(b4, x4, y4);
    var s0, t0, s1, t1 := Term(b0, x0), Term(b0, y0), Term(b1, x1), Term(b1, y1);
    var s2, t2, s3, t3 := Term(b2, x2), Term(b2, y2), Term(b3, x3), Term(b3, y3);
    Middle(s0, t0, s1, t1);
    Middle(Xor(s0, s1), Xor(t0, t1), s2, t2);
    Middle(Xor(Xor(s0, s1), s2), Xor(Xor(t0, t1), t2), s3, t3);
    Middle(Xor(Xor(Xor(s0, s1), s2), s3), Xor(Xor(Xor(t0, t1), t2), t3), Term(b4, x4), Term(b4, y4));
  }

  lemma DoubleOfTerms(b0: bool, b1: bool, b2: bool, b3: bool, b4: bool, x0: bv32, x1: bv32, x2: bv32, x3: bv32,
    x4: bv32)
    ensures Double(Terms(b0, b1, b2, b3, b4, x0, x1, x2, x3, x4))
         == Terms(b0, b1, b2, b3, b4, Double(x0), Double(x1), Double(x2), Double(x3), Double(x4))
  {
    hide Xor, Term, Double;
    TermDouble(b0, x0);
    TermDouble(b1, x1);
    TermDouble(b2, x2);
    TermDouble(b3, x3);
    TermDouble(b4, x4);
    var s0, s1, s2, s3, s4 := Term(b0, x0), Term(b1, x1), Term(b2, x2), Term(b3, x3), Term(b4, x4);
    DoubleLinear(s0, s1);
    DoubleLinear(Xor(s0, s1), s2);
    DoubleLinear(Xor(Xor(s0, s1), s2), s3);
    DoubleLinear(Xor(Xor(Xor(s0, s1), s2), s3), s4);
  }

  /** The bits of twice a symbol. */
  lemma BitsOfDouble(e: bv32)
    requires e < 32
    ensures Has(Double(e), 1) == Has(e, 16) && Has(Double(e), 2) == Has(e, 1) && Has(Double(e), 4) == Has(e, 2)
    ensures Has(Double(e), 8) == (Has(e, 4) != Has(e, 16)) && Has(Double(e), 16) == Has(e, 8)
  {
  }

  /** The highest power wraps around to the bits 0 and 3. */
  lemma Wrapped(b0: bool, b1: bool, b2: bool, b3: bool, b4: bool, x0: bv32, x1: bv32, x2: bv32, x3: bv32, x4: bv32)
    ensures Terms(b0, b1, b2, b3, b4, x1, x2, x3, x4, Xor(x3, x0))
      == Terms(b4, b0, b1, b2 != b4, b3, x0, x1, x2, x3, x4)
  {
    hide Xor, Term;
    var t0, t1, t2, t3 := Term(b0, x1), Term(b1, x2), Term(b2, x3), Term(b3, x4);
    var p, q := Term(b4, x3), Term(b4, x0);
    TermSum(b4, x3, x0);
    TermLinear(b2, b4, x3);
    var a, r := Xor(t0, t1), Xor(t2, p);
    Middle(Xor(a, t2), t3, p, q);
    Assoc(a, t2, p);
    Assoc(q, t0, t1);
    Assoc(q, a, r);
    Comm(q, Xor(a, r));
    Assoc(Xor(a, r), q, t3);
    Comm(q, t3);
  }

  lemma TimesDouble(c: bv32, e: bv32)
    requires c < LIMIT && e < 32
    ensures Times(c, Double(e)) == Double(Times(c, e))
  {
    hide Xor, Double, Terms, Has;
    var c2 := Double(c);
    var c4 := Double(c2);
    var c8 := Double(c4);
    var c16 := Double(c8);
    var b0, b1, b2, b3, b4 := Has(e, 1), Has(e, 2), Has(e, 4), Has(e, 8), Has(e, 16);
    DoubleOfTerms(b0, b1, b2, b3, b4, c, c2, c4, c8, c16);
    Minimal(c);
    BitsOfDouble(e);
    Wrapped(b0, b1, b2, b3, b4, c, c2, c4, c8, c16);
  }

  lemma TimesOne(c: bv32)
    ensures Times(c, 1) == c
  {
    hide Double;
    Unit(c);
  }

  // ---------------------------------------------------------------------- powers

  /** c times 2^k */
  function Scale(c: bv32, k: nat): bv32 {
    if k == 0 then c else Double(Scale(c, k - 1))
  }

  lemma {:induction false} ScaleBounded(c: bv32, k: nat)
    requires c < LIMIT
    ensures Scale(c, k) < LIMIT && (c < 32 ==> Scale(c, k) < 32)
  {
    hide Double;
    if k > 0 {
      ScaleBounded(c, k - 1);
      DoubleBounded(Scale(c, k - 1));
    }
  }

  lemma {:induction false} ScaleTwice(c: bv32, j: nat, k: nat)
    ensures Scale(Scale(c, j), k) == Scale(c, j + k)
    decreases k
  {
    hide Double;
    if k > 0 { ScaleTwice(c, j, k - 1); }
  }

  /** Multiplying by the symbol 2^k. */
  lemma {:induction false} TimesPower(c: bv32, k: nat)
    requires c < LIMIT
    ensures Times(c, Scale(1, k)) == Scale(c, k)
  {
    hide Times, Double;
    if k == 0 {
      TimesOne(c);
    } else {
      TimesPower(c, k - 1);
      ScaleBounded(1, k - 1);
      TimesDouble(c, Scale(1, k - 1));
    }
  }

  lemma NextPower(k: nat, c: bv32)
    requires Scale(1, k) == c
    ensures Scale(1, k + 1) == Double(c)
  {
  }

  /** 2^k, which runs through all nonzero symbols. */
  function Power(k: nat): bv32 {
    if k == 0 then 1 else if k == 1 then 2 else if k == 2 then 4 else if k == 3 then 8 else if k == 4 then 16
    else if k == 5 then 9 else if k == 6 then 18 else if k == 7 then 13 else if k == 8 then 26
    else if k == 9 then 29 else if k == 10 then 19 else if k == 11 then 15 else if k == 12 then 30
    else if k == 13 then 21 else if k == 14 then 3 else if k == 15 then 6 else if k == 16 then 12
    else if k == 17 then 24 else if k == 18 then 25 else if k == 19 then 27 else if k == 20 then 31
    else if k == 21 then 23 else if k == 22 then 7 else if k == 23 then 14 else if k == 24 then 28
    else if k == 25 then 17 else if k == 26 then 11 else if k == 27 then 22 else if k == 28 then 5
    else if k == 29 then 10 else 20
  }

  lemma Powers0()
    requires Scale(1, 0) == 1
    ensures forall k: nat :: 0 <= k < 10 ==> Scale(1, k) == Power(k)
    ensures Scale(1, 10) == 19
  {
    hide Scale;
    NextPower(0, 1);
    NextPower(1, 2);
    NextPower(2, 4);
    NextPower(3, 8);
    NextPower(4, 16);
    NextPower(5, 9);
    NextPower(6, 18);
    NextPower(7, 13);
    NextPower(8, 26);
    NextPower(9, 29);
  }

  lemma Powers10()
    requires Scale(1, 10) == 19
    ensures forall k: nat :: 10 <= k < 20 ==> Scale(1, k) == Power(k)
    ensures Scale(1, 20) == 31
  {
    hide Scale;
    NextPower(10, 19);
    NextPower(11, 15);
    NextPower(12, 30);
    NextPower(13, 21);
    NextPower(14, 3);
    NextPower(15, 6);
    NextPower(16, 12);
    NextPower(17, 24);
    NextPower(18, 25);
    NextPower(19, 27);
  }

  lemma Powers20()
    requires Scale(1, 20) == 31
    ensures forall k: nat :: 20 <= k < 31 ==> Scale(1, k) == Power(k)
    ensures Scale(1, 31) == 1
  {
    hide Scale;
    NextPower(20, 31);
    NextPower(21, 23);
    NextPower(22, 7);
    NextPower(23, 14);
    NextPower(24, 28);
    NextPower(25, 17);
    NextPower(26, 11);
    NextPower(27, 22);
    NextPower(28, 5);
    NextPower(29, 10);
    NextPower(30, 20);
  }

  /** The powers come back to one after 31 steps, and not before. */
  lemma PowersAre(k: nat)
    requires k <= 31
    ensures Scale(1, k) == if k == 31 then 1 else Power(k)
    ensures k > 0 ==> (Scale(1, k) == 1 <==> k == 31)
  {
    hide Power, Scale;
    StartsAtOne();
    Powers0();
    Powers10();
    Powers20();
    if 0 < k < 31 { PowerNotOne(k); }
  }

  lemma StartsAtOne()
    ensures Scale(1, 0) == 1
  {
  }

  lemma PowerNotOne(k: nat)
    requires 0 < k < 31
    ensures Power(k) != 1
  {
  }

  lemma LogOf(e: bv32) returns (k: nat)
    requires 0 < e < 32
    ensures k < 31 && e == Scale(1, k)
  {
    hide Scale;
    k := Log(e);
    PowersAre(k);
  }

  function Log(e: bv32): (k: nat)
    requires 0 < e < 32
    ensures k < 31 && Power(k) == e
  {
    if e < 16 then Log16(e) else Log32(e)
  }

  function Log16(e: bv32): (k: nat)
    requires 1 <= e < 16
    ensures k < 31 && Power(k) == e
  {
    if e == 1 then 0 else if e == 2 then 1 else if e == 3 then 14 else if e == 4 then 2 else if e == 5 then 28
    else if e == 6 then 15 else if e == 7 then 22 else if e == 8 then 3 else if e == 9 then 5
    else if e == 10 then 29 else if e == 11 then 26 else if e == 12 then 16 else if e == 13 then 7
    else if e == 14 then 23 else 11
  }

  function Log32(e: bv32): (k: nat)
    requires 16 <= e < 32
    ensures k < 31 && Power(k) == e
  {
    if e == 16 then 4 else if e == 17 then 25 else if e == 18 then 6 else if e == 19 then 10
    else if e == 20 then 30 else if e == 21 then 13 else if e == 22 then 27 else if e == 23 then 21
    else if e == 24 then 17 else if e == 25 then 18 else if e == 26 then 8 else if e == 27 then 19
    else if e == 28 then 24 else if e == 29 then 9 else if e == 30 then 12 else 20
  }

  lemma Period(c: bv32, k: nat)
    requires c < LIMIT
    ensures Scale(c, k + 31) == Scale(c, k)
  {
    hide Scale, Double, Times;
    PowersAre(31);
    TimesPower(c, 31);
    TimesOne(c);
    ScaleTwice(c, 31, k);
  }

  /** Only exponents modulo 31 matter. */
  lemma {:induction false} ScaleMod(c: bv32, k: nat)
    requires c < LIMIT
    ensures Scale(c, k) == Scale(c, k % 31)
    decreases k
  {
    hide Scale;
    if k >= 31 {
      Period(c, k - 31);
      ScaleMod(c, k - 31);
    }
  }

  lemma OneExponent(k: nat)
    ensures Scale(1, k) == 1 <==> k % 31 == 0
  {
    hide Scale;
    ScaleMod(1, k);
    PowersAre(k % 31);
    StartsAtOne();
  }
}
