/**
  SetCompact, GetCompact and GetBlockProof on 256-bit numbers, as their source computes them
  with shifts, and what they compute in terms of the encoding.
 */
module Compact {
  import opened Common
  import opened Limbs
  import opened Shifts
  import opened ArithUint
  import opened CompactModel

  lemma Width8()
    ensures BPow(8) == Unit(32)
  {
    BPowIsPow2(8);
    UnitIsPow2(32);
  }

  /** Cuts the number to 256 bits; the flags tell exactly when it was negative or cut. */
  method SetCompact(x: BaseUint, nCompact: Word) returns (negative: bool, overflow: bool)
    requires x.pn.Length == 8
    modifies x.pn
    ensures x.Val() == Magnitude(nCompact) % Unit(32)
    ensures negative <==> Magnitude(nCompact) != 0 && SignBit(nCompact)
    ensures overflow <==> Magnitude(nCompact) >= Unit(32)
  {
    hide V, BPow, Pow2, Unit;
    var nSize := nCompact / SIZE_UNIT;
    var nWord: nat := nCompact % SIGN;
    OverflowExact(nCompact);
    Width8();
    if nSize <= 3 {
      UnitIsPow2(3 - nSize);
      QuotientBound(nWord, Pow2(8 * (3 - nSize)));
      nWord := nWord / Pow2(8 * (3 - nSize));
      x.AssignU64(nWord);
      ShortIsSmall(nCompact);
    } else {
      UnitIsPow2(nSize - 3);
      x.AssignU64(nWord);
      x.ShiftLeft(8 * (nSize - 3));
      ZeroProduct(nWord, Unit(nSize - 3));
    }
    negative := nWord != 0 && (nCompact / SIGN) % 2 == 1;
    overflow := nWord != 0 && (nSize > 34 || (nWord > 0xff && nSize > 33) || (nWord > 0xffff && nSize > 32));
  }

  lemma ShortIsSmall(c: Word)
    requires Size(c) <= 3
    ensures Magnitude(c) % Unit(32) == Magnitude(c)
  {
    hide Unit;
    QuotientBound(Mantissa(c), Unit(3 - Size(c)));
    SmallUnits();
    UnitMono(3, 32);
    SmallDifference(Magnitude(c), 0, Unit(32));
  }

  lemma ZeroProduct(w: nat, u: nat)
    requires u > 0
    ensures w * u == 0 <==> w == 0
  {
    MulMono(1, w, u);
  }

  /** The compact form of a 256-bit number; both assertions of the source hold. */
  method GetCompact(x: BaseUint, fNegative: bool) returns (r: nat)
    requires x.pn.Length == 8
    ensures r == Encode(x.Val(), fNegative) < BASE
  {
    hide V, Value, BPow, Pow2, Unit, Bytes, Lead, Shape, Encode, Magnitude, SignBit, Size, Mantissa;
    ghost var v := x.Val();
    var bits := x.Bits();
    var nSize := (bits + 7) / 8;
    ByteCount(v, bits);
    LeadParts(v);
    EncodeParts(v, fNegative);
    ShapeOf(v);
    var nCompact: nat;
    if nSize <= 3 {
      UnitIsPow2(3 - nSize);
      var low := x.GetLow64();
      SmallDifference(v, 0, BASE * BASE);
      nCompact := low * Pow2(8 * (3 - nSize));
    } else {
      UnitIsPow2(nSize - 3);
      var bn := new BaseUint.Copy(x);
      bn.ShiftRight(8 * (nSize - 3));
      SmallDifference(Lead(v), 0, BASE * BASE);
      nCompact := bn.GetLow64();
    }
    assert nCompact == Lead(v);
    if (nCompact / SIGN) % 2 == 1 {
      nCompact := nCompact / 256;
      nSize := nSize + 1;
    }
    assert nCompact < SIGN && nSize < 256;
    r := nCompact + nSize * SIZE_UNIT;
    r := r + (if fNegative && nCompact != 0 then SIGN else 0);
    EncodeIs(v, fNegative);
  }

  lemma EncodeIs(v: nat, negative: bool)
    ensures Encode(v, negative) == Shape(v).0 * SIZE_UNIT + Shape(v).1
      + (if negative && Shape(v).1 != 0 then SIGN else 0)
  {
  }

  /** bits() rounded up to bytes. */
  lemma ByteCount(v: nat, bits: nat)
    requires bits == 0 <==> v == 0
    requires bits > 0 ==> Pow2(bits - 1) <= v < Pow2(bits)
    requires bits <= 256
    ensures Bytes(v) == (bits + 7) / 8 <= 32
    ensures Bytes(v) <= 3 ==> v < 0x1000000
  {
    hide Pow2, Unit, Bytes;
    SmallUnits();
    ZeroBytes();
    if bits > 0 {
      var n := (bits + 7) / 8;
      UnitIsPow2(n - 1);
      UnitIsPow2(n);
      Pow2Mono(8 * (n - 1), bits - 1);
      Pow2Mono(bits, 8 * n);
      BytesUnique(v, n);
      if n <= 3 { UnitMono(n, 3); }
    }
  }

  lemma LeadParts(v: nat)
    ensures Lead(v) < 0x1000000
    ensures Lead(v) == if Bytes(v) <= 3 then v * Unit(3 - Bytes(v)) else v / Unit(Bytes(v) - 3)
    ensures Shape(v) == if (Lead(v) / SIGN) % 2 == 1 then (Bytes(v) + 1, Lead(v) / 256) else (Bytes(v), Lead(v))
  {
    hide Unit, Bytes;
    if v > 0 {
      LeadFits(v);
    } else {
      SmallUnits();
      ZeroBytes();
    }
  }

  /** The expected number of hashes: 2^256 / (target + 1), without ever forming 2^256. */
  method GetBlockProof(nBits: Word) returns (proof: BaseUint)
    ensures fresh(proof) && fresh(proof.pn) && proof.pn.Length == 8
    ensures var t := Magnitude(nBits);
      proof.Val() == if t == 0 || SignBit(nBits) || t >= Unit(32) then 0 else Unit(32) / (t + 1)
  {
    hide V, Value, BPow, Pow2, Unit, Bytes, Lead, Shape, Encode, Magnitude, SignBit, Size, Mantissa;
    Width8();
    var target := new BaseUint(8);
    var fNegative, fOverflow := SetCompact(target, nBits);
    ghost var t := Magnitude(nBits);
    proof := new BaseUint(8);
    proof.AssignU64(0);
    var c := target.CompareTo(proof);
    if t < Unit(32) { SmallDifference(t, 0, Unit(32)); }
    if fNegative || fOverflow || c == 0 {
      return;
    }
    NotAllOnes(nBits);
    proof := Inverse(target);
  }

  /** (~target / (target + 1)) + 1 */
  method Inverse(target: BaseUint) returns (proof: BaseUint)
    requires target.pn.Length == 8 && 0 < target.Val() < target.Val() + 1 < Unit(32)
    ensures fresh(proof) && fresh(proof.pn) && proof.pn.Length == 8
    ensures proof.Val() == Unit(32) / (target.Val() + 1)
  {
    hide V, Value, BPow, Unit;
    Width8();
    ghost var t := target.Val();
    var one := new BaseUint(8);
    one.AssignU64(1);
    var next := new BaseUint.Copy(target);
    assert next.Val() == t;
    next.AddAssign(one);
    SmallDifference(t + 1, 0, Unit(32));
    proof := target.Complement();
    var ok := proof.DivAssign(next);
    ProofIdentity(t, Unit(32));
    proof.AddAssign(one);
  }

  /** No compact value is 2^256 - 1, so target + 1 never wraps to zero. */
  lemma NotAllOnes(c: Word)
    requires Magnitude(c) < Unit(32)
    ensures Magnitude(c) + 1 < Unit(32)
  {
    hide Unit;
    var n, w := Size(c), Mantissa(c);
    SmallUnits();
    UnitAdd(1, 31);
    if n <= 3 {
      QuotientBound(w, Unit(3 - n));
      UnitMono(3, 32);
    } else {
      UnitAdd(1, n - 4);
      MulAssoc(w, 256, Unit(n - 4));
      BothMultiples(w * Unit(n - 4), Unit(31));
    }
  }

  lemma BothMultiples(a: int, b: int)
    requires 256 * a < 256 * b
    ensures 256 * a + 1 < 256 * b
  {
  }

  lemma ProofIdentity(t: nat, m: nat)
    requires 0 < t < m
    ensures ((m - 1 - t) / (t + 1) + 1) % m == m / (t + 1)
  {
    var q := (m - 1 - t) / (t + 1);
    DivMod(m - 1 - t, t + 1);
    assert m == (q + 1) * (t + 1) + (m - 1 - t) % (t + 1);
    ModUnique((m - 1 - t) % (t + 1), q + 1, t + 1, m);
    MulMono(2, t + 1, q + 1);
    SmallDifference(q + 1, 0, m);
  }
}
