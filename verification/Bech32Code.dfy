/**
  The checksum of BIP 173 and BIP 350 (PolyMod in src/bech32.cpp) as a linear code: feeding a
  symbol multiplies the 30-bit state by x over GF(32) and adds the symbol, so sums of words
  have the sums of their remainders.
 */
module Bech32Code {

  type Word = seq<bv32>

  function Xor(x: bv32, y: bv32): bv32 { x ^ y }

  /** The generator for one of the five bits that leave the state. */
  function Term(b: bool, gen: bv32): bv32 { if b then gen else 0 }

  /** `c0 & mask`, where c0 is the symbol that leaves the state. */
  function Top(c: bv32, mask: bv32): bool { (c >> 25) & mask != 0 }

  function Rest(c: bv32): bv32 { (c & 0x1ffffff) << 5 }

  function Gen(b0: bool, b1: bool, b2: bool, b3: bool, b4: bool): bv32 {
    Xor(Xor(Xor(Xor(Term(b0, 0x3b6a57b2), Term(b1, 0x26508e6d)), Term(b2, 0x1ea119fa)), Term(b3, 0x3d4233dd)),
      Term(b4, 0x2a1462b3))
  }

  /** The state after a zero symbol. */
  function Shift(c: bv32): bv32 {
    Xor(Rest(c), Gen(Top(c, 1), Top(c, 2), Top(c, 4), Top(c, 8), Top(c, 16)))
  }

  /** The state after symbol d. */
  function Step(c: bv32, d: bv32): bv32 {
    Xor(Shift(c), d)
  }

  function Fold(c: bv32, v: Word): bv32
    decreases |v|
  {
    if v == [] then c else Fold(Step(c, v[0]), v[1..])
  }

  /** Symbols have five bits. */
  predicate Symbols(v: Word) {
    forall i :: 0 <= i < |v| ==> v[i] < 32
  }

  function PolyMod(v: Word): bv32 {
    Fold(1, v)
  }

  // ------------------------------------------------------------------ linearity

  lemma Comm(a: bv32, b: bv32)
    ensures Xor(a, b) == Xor(b, a)
  {
  }

  lemma Assoc(a: bv32, b: bv32, c: bv32)
    ensures Xor(Xor(a, b), c) == Xor(a, Xor(b, c))
  {
  }

  lemma Unit(a: bv32)
    ensures Xor(a, 0) == a && Xor(0, a) == a && Xor(a, a) == 0
  {
  }

  lemma Middle(a: bv32, b: bv32, c: bv32, d: bv32)
    ensures Xor(Xor(a, b), Xor(c, d)) == Xor(Xor(a, c), Xor(b, d))
  {
    hide Xor;
    Assoc(a, b, Xor(c, d));
    Assoc(b, c, d);
    Comm(b, c);
    Assoc(c, b, d);
    Assoc(a, c, Xor(b, d));
  }

  lemma TermLinear(a: bool, b: bool, gen: bv32)
    ensures Term(a != b, gen) == Xor(Term(a, gen), Term(b, gen))
  {
    hide Xor;
    Unit(gen);
    Unit(0);
  }

  lemma TopLinear(x: bv32, y: bv32)
    ensures Top(Xor(x, y), 1) == (Top(x, 1) != Top(y, 1))
    ensures Top(Xor(x, y), 2) == (Top(x, 2) != Top(y, 2))
    ensures Top(Xor(x, y), 4) == (Top(x, 4) != Top(y, 4))
    ensures Top(Xor(x, y), 8) == (Top(x, 8) != Top(y, 8))
    ensures Top(Xor(x, y), 16) == (Top(x, 16) != Top(y, 16))
  {
    hide Top, Xor;
    Top1Linear(x, y);
    Top2Linear(x, y);
    Top4Linear(x, y);
    Top8Linear(x, y);
    Top16Linear(x, y);
  }

  lemma Top1Linear(x: bv32, y: bv32) ensures Top(Xor(x, y), 1) == (Top(x, 1) != Top(y, 1)) {}
  lemma Top2Linear(x: bv32, y: bv32) ensures Top(Xor(x, y), 2) == (Top(x, 2) != Top(y, 2)) {}
  lemma Top4Linear(x: bv32, y: bv32) ensures Top(Xor(x, y), 4) == (Top(x, 4) != Top(y, 4)) {}
  lemma Top8Linear(x: bv32, y: bv32) ensures Top(Xor(x, y), 8) == (Top(x, 8) != Top(y, 8)) {}
  lemma Top16Linear(x: bv32, y: bv32) ensures Top(Xor(x, y), 16) == (Top(x, 16) != Top(y, 16)) {}

  lemma RestLinear(x: bv32, y: bv32)
    ensures Rest(Xor(x, y)) == Xor(Rest(x), Rest(y))
  {
  }

  lemma GenLinear(a0: bool, a1: bool, a2: bool, a3: bool, a4: bool, b0: bool, b1: bool, b2: bool, b3: bool, b4: bool)
    ensures Gen(a0 != b0, a1 != b1, a2 != b2, a3 != b3, a4 != b4)
      == Xor(Gen(a0, a1, a2, a3, a4), Gen(b0, b1, b2, b3, b4))
  {
    hide Xor, Term;
    TermLinear(a0, b0, 0x3b6a57b2);
    TermLinear(a1, b1, 0x26508e6d);
    TermLinear(a2, b2, 0x1ea119fa);
    TermLinear(a3, b3, 0x3d4233dd);
    TermLinear(a4, b4, 0x2a1462b3);
    var s0, t0 := Term(a0, 0x3b6a57b2), Term(b0, 0x3b6a57b2);
    var s1, t1 := Term(a1, 0x26508e6d), Term(b1, 0x26508e6d);
    var s2, t2 := Term(a2, 0x1ea119fa), Term(b2, 0x1ea119fa);
    var s3, t3 := Term(a3, 0x3d4233dd), Term(b3, 0x3d4233dd);
    Middle(s0, t0, s1, t1);
    Middle(Xor(s0, s1), Xor(t0, t1), s2, t2);
    Middle(Xor(Xor(s0, s1), s2), Xor(Xor(t0, t1), t2), s3, t3);
    Middle(Xor(Xor(Xor(s0, s1), s2), s3), Xor(Xor(Xor(t0, t1), t2), t3), Term(a4, 0x2a1462b3), Term(b4, 0x2a1462b3));
  }

  lemma ShiftLinear(x: bv32, y: bv32)
    ensures Shift(Xor(x, y)) == Xor(Shift(x), Shift(y))
  {
    hide Gen, Rest, Top, Xor;
    TopLinear(x, y);
    RestLinear(x, y);
    GenLinear(Top(x, 1), Top(x, 2), Top(x, 4), Top(x, 8), Top(x, 16), Top(y, 1), Top(y, 2), Top(y, 4), Top(y, 8),
      Top(y, 16));
    Middle(Rest(x), Rest(y), Gen(Top(x, 1), Top(x, 2), Top(x, 4), Top(x, 8), Top(x, 16)),
           Gen(Top(y, 1), Top(y, 2), Top(y, 4), Top(y, 8), Top(y, 16)));
  }

  function Sum(u: Word, v: Word): (w: Word)
    requires |u| == |v|
    ensures |w| == |u| && forall i :: 0 <= i < |w| ==> w[i] == Xor(u[i], v[i])
  {
    seq(|u|, i requires 0 <= i < |u| => Xor(u[i], v[i]))
  }

  /** The state is linear in the start state and in the symbols. */
  lemma {:induction false} Superposition(c: bv32, d: bv32, u: Word, v: Word)
    requires |u| == |v|
    ensures Fold(Xor(c, d), Sum(u, v)) == Xor(Fold(c, u), Fold(d, v))
    decreases |u|
  {
    hide Xor, Shift;
    if u != [] {
      ShiftLinear(c, d);
      Middle(Shift(c), Shift(d), u[0], v[0]);
      Superposition(Step(c, u[0]), Step(d, v[0]), u[1..], v[1..]);
      assert Sum(u, v)[1..] == Sum(u[1..], v[1..]);
    }
  }

  /** Words of one length leave remainders that differ by the remainder of their difference. */
  lemma RemainderDifference(u: Word, v: Word)
    requires |u| == |v|
    ensures Xor(PolyMod(u), PolyMod(v)) == Fold(0, Sum(u, v))
  {
    hide Fold, Xor;
    Unit(1);
    Superposition(1, 1, u, v);
  }

  // ------------------------------------------------------- the state never cancels

  const LIMIT: bv32 := 0x4000_0000

  lemma ShiftBounded(x: bv32)
    requires x < LIMIT
    ensures Shift(x) < LIMIT
  {
  }

  lemma StepBounded(x: bv32, d: bv32)
    requires x < LIMIT && d < 32
    ensures Step(x, d) < LIMIT
  {
    hide Shift;
    ShiftBounded(x);
  }

  /** Multiplication by x is injective. */
  lemma ShiftInjective(x: bv32)
    requires x < LIMIT && Shift(x) == 0
    ensures x == 0
  {
  }

  function Zeros(n: nat): (w: Word)
    ensures |w| == n && forall i :: 0 <= i < n ==> w[i] == 0
  {
    seq(n, _ => 0)
  }

  lemma {:induction false} FoldBounded(c: bv32, v: Word)
    requires c < LIMIT && Symbols(v)
    ensures Fold(c, v) < LIMIT
    decreases |v|
  {
    hide Step;
    if v != [] {
      StepBounded(c, v[0]);
      FoldBounded(Step(c, v[0]), v[1..]);
    }
  }

  lemma {:induction false} ZerosKeep(c: bv32, v: Word)
    requires c < LIMIT && forall i :: 0 <= i < |v| ==> v[i] == 0
    ensures c != 0 <==> Fold(c, v) != 0
    decreases |v|
  {
    hide Xor, Shift;
    if v != [] {
      Unit(Shift(c));
      if Shift(c) == 0 { ShiftInjective(c); }
      ZeroShift();
      ShiftBounded(c);
      ZerosKeep(Step(c, v[0]), v[1..]);
    }
  }

  lemma ZeroShift()
    ensures Shift(0) == 0
  {
  }

  /** A word with a single nonzero symbol has a nonzero remainder. */
  lemma {:induction false} SingleNonzero(e: Word, k: nat)
    requires k < |e| && Symbols(e) && e[k] != 0 && forall i :: 0 <= i < |e| && i != k ==> e[i] == 0
    ensures Fold(0, e) != 0
    decreases |e|
  {
    hide Xor, Shift;
    ZeroShift();
    Unit(e[0]);
    Unit(0);
    if k == 0 {
      ZerosKeep(e[0], e[1..]);
    } else {
      SingleNonzero(e[1..], k - 1);
    }
  }

  /** Changing one symbol changes the remainder. */
  lemma SingleErrorDetected(u: Word, v: Word, k: nat)
    requires k < |u| == |v| && Symbols(u) && Symbols(v) && u[k] != v[k]
    requires forall i :: 0 <= i < |u| && i != k ==> u[i] == v[i]
    ensures PolyMod(u) != PolyMod(v)
  {
    hide Xor, Shift, Step;
    var e := Sum(u, v);
    forall i | 0 <= i < |e| ensures e[i] < 32 && (e[i] == 0 <==> i != k) { Difference(u[i], v[i]); }
    SingleNonzero(e, k);
    RemainderDifference(u, v);
    Unit(PolyMod(u));
  }

  lemma Difference(x: bv32, y: bv32)
    requires x < 32 && y < 32
    ensures Xor(x, y) < 32 && (Xor(x, y) == 0 <==> x == y)
  {
  }

  lemma Cancel(x: bv32, y: bv32)
    ensures Xor(x, Xor(x, y)) == y
  {
    hide Xor;
    Assoc(x, x, y);
    Unit(x);
    Unit(y);
  }

  // ------------------------------------------------------------- the source's loop

  /** c becomes c ^ gen when the bit is set. */
  function If(c: bv32, b: bool, gen: bv32): bv32 {
    if b then Xor(c, gen) else c
  }

  lemma IfIs(c: bv32, b: bool, gen: bv32)
    ensures If(c, b, gen) == Xor(c, Term(b, gen))
  {
    hide Xor;
    Unit(c);
  }

  /** The order in which the source adds its terms does not matter. */
  lemma StepOrder(r: bv32, d: bv32, t0: bv32, t1: bv32, t2: bv32, t3: bv32, t4: bv32)
    ensures Xor(Xor(Xor(Xor(Xor(Xor(r, d), t0), t1), t2), t3), t4)
         == Xor(Xor(r, Xor(Xor(Xor(Xor(t0, t1), t2), t3), t4)), d)
  {
    hide Xor;
    var p, s1, s2, s3, s4 := Xor(r, d), Xor(t0, t1), Xor(Xor(t0, t1), t2), Xor(Xor(Xor(t0, t1), t2), t3),
      Xor(Xor(Xor(Xor(t0, t1), t2), t3), t4);
    Assoc(p, t0, t1);
    Assoc(p, s1, t2);
    Assoc(p, s2, t3);
    Assoc(p, s3, t4);
    Assoc(r, d, s4);
    Comm(d, s4);
    Assoc(r, s4, d);
  }

  method PolyModLoop(v: Word) returns (c: bv32)
    ensures c == PolyMod(v)
  {
    hide Xor, Term, Top, Rest, Fold;
    c := 1;
    for i := 0 to |v|
      invariant Fold(c, v[i..]) == PolyMod(v)
    {
      FoldUnfold(c, v[i..]);
      assert v[i..][1..] == v[i + 1..];
      ghost var before := c;
      var b0, b1, b2, b3, b4 := Top(c, 1), Top(c, 2), Top(c, 4), Top(c, 8), Top(c, 16);
      c := Xor(Rest(c), v[i]);
      IfIs(c, b0, 0x3b6a57b2);
      if b0 { c := Xor(c, 0x3b6a57b2); }
      IfIs(c, b1, 0x26508e6d);
      if b1 { c := Xor(c, 0x26508e6d); }
      IfIs(c, b2, 0x1ea119fa);
      if b2 { c := Xor(c, 0x1ea119fa); }
      IfIs(c, b3, 0x3d4233dd);
      if b3 { c := Xor(c, 0x3d4233dd); }
      IfIs(c, b4, 0x2a1462b3);
      if b4 { c := Xor(c, 0x2a1462b3); }
      StepOrder(Rest(before), v[i], Term(b0, 0x3b6a57b2), Term(b1, 0x26508e6d), Term(b2, 0x1ea119fa),
        Term(b3, 0x3d4233dd), Term(b4, 0x2a1462b3));
    }
    FoldUnfold(c, []);
  }

  lemma FoldUnfold(c: bv32, v: Word)
    ensures Fold(c, v) == if v == [] then c else Fold(Step(c, v[0]), v[1..])
  {
  }

  // --------------------------------------------------------------- the checksum

  function ChecksumConst(values: Word): bv32 {
    if values != [] && values[0] != 0 then 0x2bc830a3 else 1
  }

  /** The first i of the six symbols of a 30-bit word, as a number: the word shifted down 6 - i times. */
  function Lead(mod: bv32, i: nat): bv32
    decreases 6 - i
  {
    if i >= 6 then mod else Shr5(Lead(mod, i + 1))
  }

  function Shr5(x: bv32): bv32 { x >> 5 }

  /** `(mod >> (5 * (5 - i))) & 31` */
  function Symbol(mod: bv32, i: nat): bv32 {
    Lead(mod, i + 1) & 31
  }

  function Unpack(mod: bv32): (s: Word)
    ensures |s| == 6 && forall i :: 0 <= i < 6 ==> s[i] == Symbol(mod, i)
  {
    seq(6, i requires 0 <= i < 6 => Symbol(mod, i))
  }

  lemma UnpackSymbols(mod: bv32)
    ensures Symbols(Unpack(mod))
  {
    hide Lead;
    forall i | 0 <= i < 6 ensures Symbol(mod, i) < 32 { FiveBits(Lead(mod, i + 1)); }
  }

  lemma FiveBits(x: bv32)
    ensures x & 31 < 32
  {
  }

  function CreateChecksum(prefix: Word, values: Word): (s: Word)
    ensures |s| == 6
  {
    Unpack(Xor(PolyMod(prefix + values + Zeros(6)), ChecksumConst(values)))
  }

  /** Below 2^25 nothing leaves the state. */
  lemma SmallShift(x: bv32)
    requires x < 0x200_0000
    ensures Shift(x) == x << 5
  {
  }

  /** From the zero state, six symbols just line up. */
  lemma FoldSix(mod: bv32)
    requires mod < LIMIT
    ensures Fold(0, Unpack(mod)) == mod
  {
    LeadNone(mod);
    FoldFrom(mod, 0);
    assert Unpack(mod)[0..] == Unpack(mod);
  }

  lemma {:induction false} FoldFrom(mod: bv32, i: nat)
    requires mod < LIMIT && i <= 6
    ensures Fold(Lead(mod, i), Unpack(mod)[i..]) == mod
    decreases 6 - i
  {
    hide Fold, Step, Lead, Symbol;
    var s := Unpack(mod);
    FoldUnfold(Lead(mod, i), s[i..]);
    if i < 6 {
      LeadStep(mod, i);
      FoldFrom(mod, i + 1);
      assert s[i..][1..] == s[i + 1..];
    } else {
      LeadAll(mod);
    }
  }

  lemma LeadAll(mod: bv32)
    ensures Lead(mod, 6) == mod
  {
  }

  lemma LeadStep(mod: bv32, i: nat)
    requires mod < LIMIT && i < 6
    ensures Step(Lead(mod, i), Symbol(mod, i)) == Lead(mod, i + 1)
  {
    hide Step, Shr5;
    LeadBounded(mod, i + 1);
    LineUp(Lead(mod, i + 1));
  }

  lemma {:induction false} LeadBounded(mod: bv32, i: nat)
    requires mod < LIMIT
    ensures Lead(mod, i) < LIMIT
    decreases 6 - i
  {
    hide Shr5;
    if i < 6 {
      LeadBounded(mod, i + 1);
      Down(Lead(mod, i + 1));
    }
  }

  lemma Down(x: bv32)
    ensures Shr5(x) <= x
  {
  }

  /** Six times five bits are all there is. */
  lemma LeadNone(mod: bv32)
    requires mod < LIMIT
    ensures Lead(mod, 0) == 0
  {
    LeadMono(mod, 0x3fff_ffff, 0);
    LeadTop();
  }

  lemma {:induction false} LeadMono(x: bv32, y: bv32, i: nat)
    requires x <= y
    ensures Lead(x, i) <= Lead(y, i)
    decreases 6 - i
  {
    hide Shr5;
    if i < 6 {
      LeadMono(x, y, i + 1);
      DownMono(Lead(x, i + 1), Lead(y, i + 1));
    }
  }

  lemma DownMono(x: bv32, y: bv32)
    requires x <= y
    ensures Shr5(x) <= Shr5(y)
  {
  }

  lemma LeadTop()
    ensures Lead(0x3fff_ffff, 0) == 0
  {
    assert Lead(0x3fff_ffff, 5) == 0x1ff_ffff;
    assert Lead(0x3fff_ffff, 4) == 0xf_ffff;
    assert Lead(0x3fff_ffff, 3) == 0x7fff;
    assert Lead(0x3fff_ffff, 2) == 0x3ff;
    assert Lead(0x3fff_ffff, 1) == 0x1f;
  }

  /** The last symbol of a state follows the others. */
  lemma LineUp(y: bv32)
    requires y < LIMIT
    ensures Step(Shr5(y), y & 31) == y
  {
    hide Shift;
    SmallShift(y >> 5);
  }

  /** Appending the checksum makes the remainder the constant. */
  lemma ChecksumVerifies(prefix: Word, values: Word)
    requires Symbols(prefix) && Symbols(values)
    ensures PolyMod(prefix + (values + CreateChecksum(prefix, values))) == ChecksumConst(values)
  {
    hide Fold, Xor, Unpack;
    var u := prefix + values;
    var p, k := PolyMod(u + Zeros(6)), ChecksumConst(values);
    var s := CreateChecksum(prefix, values);
    assert prefix + (values + s) == u + s;
    FoldAppend(1, u, s);
    FoldAppend(1, u, Zeros(6));
    var c := Fold(1, u);
    FoldBounded(1, u + Zeros(6));
    XorBounded(p, k);
    FoldSix(Xor(p, k));
    Unit(c);
    forall i | 0 <= i < 6 ensures Sum(Zeros(6), s)[i] == s[i] { Unit(s[i]); }
    assert Sum(Zeros(6), s) == s;
    Superposition(c, 0, Zeros(6), s);
    Cancel(p, k);
  }

  lemma XorBounded(x: bv32, y: bv32)
    requires x < LIMIT && y < LIMIT
    ensures Xor(x, y) < LIMIT
  {
  }

  lemma {:induction false} FoldAppend(c: bv32, u: Word, v: Word)
    ensures Fold(c, u + v) == Fold(Fold(c, u), v)
    decreases |u|
  {
    hide Step;
    if u == [] {
      assert u + v == v;
    } else {
      FoldAppend(Step(c, u[0]), u[1..], v);
      assert (u + v)[1..] == u[1..] + v;
    }
  }
}
