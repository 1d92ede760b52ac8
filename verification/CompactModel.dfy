/**
  The compact target encoding (arith_uint256::SetCompact and GetCompact): eight bits of size, a
  sign bit and a 23-bit mantissa, read as mantissa * 256^(size-3).
 */
module CompactModel {
  import opened Common
  import opened Limbs
  import opened Shifts

  const SIGN := 0x800000
  const SIZE_UNIT := 0x1000000

  function Unit(n: nat): (u: nat)
    ensures u > 0
  {
    if n == 0 then 1 else 256 * Unit(n - 1)
  }

  function Size(c: Word): nat { c / SIZE_UNIT }
  function Mantissa(c: Word): nat { c % SIGN }
  predicate SignBit(c: Word) { (c / SIGN) % 2 == 1 }

  /** The number a compact value stands for, before it is cut to 256 bits. */
  function Magnitude(c: Word): nat {
    if Size(c) <= 3 then
      QuotientBound(Mantissa(c), Unit(3 - Size(c)));
      Mantissa(c) / Unit(3 - Size(c))
    else Mantissa(c) * Unit(Size(c) - 3)
  }

  /** Length in bytes. */
  function Bytes(v: nat): nat {
    if v == 0 then 0 else 1 + Bytes(v / 256)
  }

  /** The leading three bytes. */
  function Lead(v: nat): nat {
    if Bytes(v) <= 3 then v * Unit(3 - Bytes(v)) else QuotientBound(v, Unit(Bytes(v) - 3)); v / Unit(Bytes(v) - 3)
  }

  /** Size and mantissa that GetCompact chooses: one byte less of mantissa when its top bit is set. */
  function Shape(v: nat): (nat, nat) {
    if Lead(v) >= SIGN then (Bytes(v) + 1, Lead(v) / 256) else (Bytes(v), Lead(v))
  }

  function Encode(v: nat, negative: bool): nat {
    Shape(v).0 * SIZE_UNIT + Shape(v).1 + (if negative && Shape(v).1 != 0 then SIGN else 0)
  }

  // ------------------------------------------------------------------ powers

  lemma SmallUnits()
    ensures Unit(0) == 1 && Unit(1) == 256 && Unit(2) == 0x10000 && Unit(3) == 0x1000000
  {
    assert Unit(2) == 256 * Unit(1);
    assert Unit(3) == 256 * Unit(2);
  }

  lemma {:induction false} UnitAdd(a: nat, b: nat)
    ensures Unit(a + b) == Unit(a) * Unit(b)
  {
    if a > 0 {
      UnitAdd(a - 1, b);
      MulAssoc(256, Unit(a - 1), Unit(b));
    }
  }

  lemma {:induction false} UnitIsPow2(n: nat)
    ensures Unit(n) == Pow2(8 * n)
  {
    if n > 0 {
      UnitIsPow2(n - 1);
      Pow2Add(8, 8 * (n - 1));
      assert Pow2(8) == 256;
    }
  }

  lemma UnitMono(a: nat, b: nat)
    requires a <= b
    ensures Unit(a) <= Unit(b)
  {
    UnitAdd(b - a, a);
    MulMono(1, Unit(b - a), Unit(a));
  }

  /** The length is the power of 256 that brackets the number. */
  lemma {:induction false} BytesBracket(v: nat)
    requires v > 0
    ensures Bytes(v) > 0 && Unit(Bytes(v) - 1) <= v < Unit(Bytes(v))
  {
    if v >= 256 {
      BytesBracket(v / 256);
      assert v == 256 * (v / 256) + v % 256;
    } else {
      assert v / 256 == 0;
    }
  }

  lemma BytesUnique(v: nat, n: nat)
    requires n > 0 && Unit(n - 1) <= v < Unit(n)
    ensures Bytes(v) == n
  {
    BytesBracket(v);
    if Bytes(v) < n { UnitMono(Bytes(v), n - 1); }
    if n < Bytes(v) { UnitMono(n, Bytes(v) - 1); }
  }

  // -------------------------------------------------------------- the shape

  /** m is the mantissa of v for size s: it says v to within one unit in its last place. */
  predicate Fits(v: nat, s: nat, m: nat) {
    && 0x8000 <= m < SIGN && s > 0
    && if s <= 3 then v * Unit(3 - s) == m else m * Unit(s - 3) <= v < (m + 1) * Unit(s - 3)
  }

  lemma LeadFits(v: nat)
    requires v > 0
    ensures 0x10000 <= Lead(v) < 0x1000000
    ensures Bytes(v) > 3 ==> Lead(v) * Unit(Bytes(v) - 3) <= v < (Lead(v) + 1) * Unit(Bytes(v) - 3)
  {
    hide Unit, Bytes;
    var n := Bytes(v);
    BytesBracket(v);
    SmallUnits();
    if n > 3 {
      var u := Unit(n - 3);
      UnitAdd(2, n - 3);
      UnitAdd(3, n - 3);
      DivMod(v, u);
      var q := v / u;
      if q < 0x10000 { MulMono(q + 1, 0x10000, u); }
      if q >= 0x1000000 { MulMono(0x1000000, q, u); }
    } else {
      LeadSmall(v, n);
    }
  }

  lemma LeadSmall(v: nat, n: nat)
    requires 0 < n <= 3 && Unit(n - 1) <= v < Unit(n)
    ensures 0x10000 <= v * Unit(3 - n) < 0x1000000
  {
    SmallUnits();
  }

  /** GetCompact's choice fits, for every nonzero number. */
  lemma ShapeFits(v: nat)
    requires v > 0
    ensures Fits(v, Shape(v).0, Shape(v).1)
  {
    hide Unit, Bytes, Lead;
    LeadFits(v);
    BytesBracket(v);
    SmallUnits();
    var n, l := Bytes(v), Lead(v);
    if l < SIGN {
      LeadIs(v);
    } else if n <= 3 {
      LeadIs(v);
      ShortCarry(v, n, l);
    } else {
      UnitAdd(1, n - 3);
      CutByte(v, l, Unit(n - 3), Unit(n - 2));
    }
  }

  lemma LeadIs(v: nat)
    ensures Bytes(v) <= 3 ==> Lead(v) == v * Unit(3 - Bytes(v))
  {
  }

  lemma ShortCarry(v: nat, n: nat, l: nat)
    requires 0 < n <= 3 && l == v * Unit(3 - n) && SIGN <= l < 0x1000000
    ensures Fits(v, n + 1, l / 256)
  {
    SmallUnits();
  }

  lemma CutByte(v: nat, l: nat, u: nat, u': nat)
    requires l * u <= v < (l + 1) * u && u' == 256 * u
    ensures (l / 256) * u' <= v < (l / 256 + 1) * u'
  {
    var h := l / 256;
    assert h * u' == (256 * h) * u && (h + 1) * u' == (256 * h + 256) * u;
    MulMono(256 * h, l, u);
    MulMono(l + 1, 256 * h + 256, u);
  }

  /** Nothing else fits: the bracket determines size and mantissa. */
  lemma FitsUnique(v: nat, s: nat, m: nat)
    requires Fits(v, s, m)
    ensures Shape(v) == (s, m)
  {
    if s <= 3 {
      ShortUnique(v, s, m);
    } else if m >= 0x10000 {
      LongWide(v, s, m);
    } else {
      LongNarrow(v, s, m);
    }
  }

  lemma ShortUnique(v: nat, s: nat, m: nat)
    requires 0 < s <= 3 && 0x8000 <= m < SIGN && v * Unit(3 - s) == m
    ensures Shape(v) == (s, m)
  {
    SmallUnits();
    if m >= 0x10000 {
      BytesUnique(v, s);
    } else {
      BytesUnique(v, s - 1);
    }
  }

  lemma LongWide(v: nat, s: nat, m: nat)
    requires s > 3 && 0x10000 <= m < SIGN && m * Unit(s - 3) <= v < (m + 1) * Unit(s - 3)
    ensures Shape(v) == (s, m)
  {
    hide Unit, Bytes;
    var u := Unit(s - 3);
    SmallUnits();
    UnitAdd(2, s - 3);
    UnitAdd(3, s - 3);
    MulMono(0x10000, m, u);
    MulMono(m + 1, 0x1000000, u);
    BytesUnique(v, s);
    QuotientIs(v, m, u);
  }

  lemma LongNarrow(v: nat, s: nat, m: nat)
    requires s > 3 && 0x8000 <= m < 0x10000 && m * Unit(s - 3) <= v < (m + 1) * Unit(s - 3)
    ensures Shape(v) == (s, m)
  {
    hide Unit, Bytes;
    var u := Unit(s - 4);
    SmallUnits();
    UnitAdd(1, s - 4);
    UnitAdd(2, s - 4);
    UnitAdd(3, s - 4);
    NarrowBounds(v, m, u);
    BytesUnique(v, s - 1);
    CoarseQuotient(v, m, u);
    if s == 4 { assert v * Unit(0) == v; }
  }

  lemma NarrowBounds(v: nat, m: nat, u: nat)
    requires 0x8000 <= m < 0x10000 && m * (256 * u) <= v < (m + 1) * (256 * u)
    ensures (256 * m) * u <= v < (256 * m + 256) * u && 0x10000 * u <= v < 0x1000000 * u
  {
    assert m * (256 * u) == (256 * m) * u && (m + 1) * (256 * u) == (256 * m + 256) * u;
    MulMono(0x10000, 256 * m, u);
    MulMono(256 * m + 256, 0x1000000, u);
  }

  lemma QuotientIs(v: nat, m: nat, u: nat)
    requires u > 0 && m * u <= v < (m + 1) * u
    ensures v / u == m
  {
    ModUnique(v - m * u, m, u, v);
  }

  lemma CoarseQuotient(v: nat, m: nat, u: nat)
    requires u > 0 && (256 * m) * u <= v < (256 * m + 256) * u
    ensures 256 * m <= v / u < 256 * m + 256
  {
    DivMod(v, u);
    var q := v / u;
    MulMono(q + 1, 256 * m, u);
    MulMono(256 * m + 256, q, u);
  }

  // ------------------------------------------------------------- the theorems

  /** What GetCompact asserts about its own result, and what the word it returns is made of. */
  lemma EncodeParts(v: nat, negative: bool)
    requires Bytes(v) <= 32
    ensures Encode(v, negative) < BASE
    ensures Size(Encode(v, negative)) == Shape(v).0 < 256 && Mantissa(Encode(v, negative)) == Shape(v).1
    ensures SignBit(Encode(v, negative)) <==> negative && v != 0
  {
    hide Unit, Bytes, Lead, Shape;
    ShapeOf(v);
    var n, m := Shape(v).0, Shape(v).1;
    PackedParts(n, m, negative && m != 0);
  }

  lemma ShapeOf(v: nat)
    ensures Shape(v).0 <= Bytes(v) + 1 && Shape(v).1 < SIGN
    ensures v == 0 <==> Shape(v).1 == 0
    ensures v == 0 ==> Shape(v) == (0, 0)
  {
    SmallUnits();
    if v > 0 { ShapeFits(v); }
  }

  lemma PackedParts(n: nat, m: nat, sign: bool)
    requires n < 256 && m < SIGN
    ensures var c := n * SIZE_UNIT + m + (if sign then SIGN else 0);
      c < BASE && c / SIZE_UNIT == n && c % SIGN == m && ((c / SIGN) % 2 == 1 <==> sign)
  {
  }

  /** SetCompact after GetCompact: the number rounded down, keeping at least 15 leading bits. */
  lemma RoundsDown(v: nat, negative: bool)
    requires Bytes(v) <= 32
    ensures Encode(v, negative) < BASE
    ensures Magnitude(Encode(v, negative)) <= v
    ensures (v - Magnitude(Encode(v, negative))) * 0x8000 <= v
    ensures SignBit(Encode(v, negative)) <==> negative && v != 0
  {
    hide Unit, Bytes, Lead, Shape;
    EncodeParts(v, negative);
    ShapeOf(v);
    if v > 0 {
      ShapeFits(v);
      var s, m := Shape(v).0, Shape(v).1;
      if s <= 3 {
        ModUnique(0, v, Unit(3 - s), m);
      } else {
        LowPlaces(v, m, Unit(s - 3));
      }
    } else {
      SmallUnits();
    }
  }

  lemma LowPlaces(v: nat, m: nat, u: nat)
    requires 0x8000 <= m && m * u <= v < (m + 1) * u
    ensures (v - m * u) * 0x8000 <= v
  {
    MulMono(0x8000, m, u);
  }

  /** No compact value lies strictly between: GetCompact gives the greatest one not above v. */
  lemma Greatest(v: nat, negative: bool, c: Word)
    requires Bytes(v) <= 32 && Magnitude(c) <= v
    ensures Encode(v, negative) < BASE
    ensures Magnitude(c) <= Magnitude(Encode(v, negative))
  {
    hide Unit, Bytes, Lead, Shape;
    EncodeParts(v, negative);
    ShapeOf(v);
    SmallUnits();
    if v > 0 {
      ShapeFits(v);
      var s, m := Shape(v).0, Shape(v).1;
      if s <= 3 {
        ModUnique(0, v, Unit(3 - s), m);
      } else {
        NothingBetween(v, s, m, c);
      }
    }
  }

  lemma NothingBetween(v: nat, s: nat, m: nat, c: Word)
    requires s > 3 && Fits(v, s, m) && Magnitude(c) <= v
    ensures Magnitude(c) <= m * Unit(s - 3)
  {
    hide Unit;
    var n, w, u := Size(c), Mantissa(c), Unit(s - 3);
    if n >= s {
      UnitAdd(n - s, s - 3);
      MulAssoc(w, Unit(n - s), u);
      WholeMultiple(w * Unit(n - s), m, u, v);
    } else {
      MulMono(0x8000, m, u);
      ShorterIsSmaller(c, s);
    }
  }

  /** A multiple of u that is at most v is at most the greatest one. */
  lemma WholeMultiple(k: nat, m: nat, u: nat, v: nat)
    requires k * u <= v < (m + 1) * u
    ensures k * u <= m * u
  {
    if k > m { MulMono(m + 1, k, u); } else { MulMono(k, m, u); }
  }

  /** Whatever is encoded in fewer than s bytes stays below the least normal value of s bytes. */
  lemma ShorterIsSmaller(c: Word, s: nat)
    requires s > 3 && Size(c) < s
    ensures Magnitude(c) <= 0x8000 * Unit(s - 3)
  {
    hide Unit;
    var n, w := Size(c), Mantissa(c);
    SmallUnits();
    if n <= 3 {
      QuotientBound(w, Unit(3 - n));
      UnitMono(1, s - 3);
    } else {
      UnitAdd(1, s - 4);
      UnitMono(n - 3, s - 4);
      BelowSign(w, Unit(n - 3), Unit(s - 4));
    }
  }

  lemma BelowSign(w: nat, a: nat, b: nat)
    requires w <= SIGN && a <= b
    ensures w * a <= SIGN * b
  {
    MulMono(a, b, w);
    MulMono(w, SIGN, b);
  }

  /** Rounding preserves order. */
  lemma Monotone(v: nat, w: nat, nv: bool, nw: bool)
    requires v <= w && Bytes(v) <= 32 && Bytes(w) <= 32
    ensures Encode(v, nv) < BASE && Encode(w, nw) < BASE
    ensures Magnitude(Encode(v, nv)) <= Magnitude(Encode(w, nw))
  {
    hide *;
    RoundsDown(v, nv);
    Greatest(w, nw, Encode(v, nv));
  }

  /** Below 2^23 nothing is lost. */
  lemma ExactBelow(v: nat, negative: bool)
    requires v < SIGN
    ensures Encode(v, negative) < BASE && Magnitude(Encode(v, negative)) == v
  {
    hide Unit, Bytes, Lead, Shape;
    SmallBytes(v);
    EncodeParts(v, negative);
    ShapeOf(v);
    SmallUnits();
    if v > 0 {
      ShapeFits(v);
      ShortShape(v);
      ModUnique(0, v, Unit(3 - Shape(v).0), Shape(v).1);
    }
  }

  lemma SmallBytes(v: nat)
    requires v < 0x1000000
    ensures Bytes(v) <= 3
  {
    hide Unit, Bytes;
    SmallUnits();
    ZeroBytes();
    if v > 0 {
      BytesBracket(v);
      if Bytes(v) > 3 { UnitMono(3, Bytes(v) - 1); }
    }
  }

  lemma ShortShape(v: nat)
    requires 0 < v < SIGN
    ensures Shape(v).0 <= 3
  {
    hide Unit, Bytes;
    SmallBytes(v);
    SmallUnits();
    if Bytes(v) == 3 { assert Lead(v) == v; }
  }

  /** A larger number never gets a smaller compact form. */
  lemma EncodeMonotone(v: nat, w: nat)
    requires v <= w && Bytes(v) <= 32 && Bytes(w) <= 32
    ensures Encode(v, false) <= Encode(w, false)
  {
    hide Unit, Bytes, Lead, Shape;
    ShapeOf(v);
    ShapeOf(w);
    if v > 0 {
      ShapeFits(v);
      ShapeFits(w);
      ShapeOrder(v, w, Shape(v).0, Shape(v).1, Shape(w).0, Shape(w).1);
    }
  }

  lemma ShapeOrder(v: nat, w: nat, s: nat, m: nat, t: nat, n: nat)
    requires v <= w && Fits(v, s, m) && Fits(w, t, n)
    ensures s < t || (s == t && m <= n)
  {
    hide Unit;
    SmallUnits();
    if s > t {
      SizeBelow(w, t, n);
      SizeAbove(v, s, m);
      UnitMono(t, s - 1);
    } else if s == t {
      if s > 3 {
        Places(m, n, v, w, Unit(s - 3));
      } else {
        MulMono(v, w, Unit(3 - s));
      }
    }
  }

  /** A number that fits size t is below half of 256^t, and not below half of 256^(t-1). */
  lemma SizeBelow(w: nat, t: nat, n: nat)
    requires Fits(w, t, n)
    ensures 2 * w < Unit(t)
  {
    hide Unit;
    SmallUnits();
    if t > 3 {
      UnitAdd(3, t - 3);
      MulMono(n + 1, SIGN, Unit(t - 3));
    }
  }

  lemma SizeAbove(v: nat, s: nat, m: nat)
    requires Fits(v, s, m)
    ensures 2 * v >= Unit(s - 1)
  {
    hide Unit;
    SmallUnits();
    if s > 3 {
      UnitAdd(2, s - 3);
      MulMono(0x8000, m, Unit(s - 3));
    }
  }

  lemma Places(m: nat, n: nat, v: nat, w: nat, u: nat)
    requires u > 0 && v <= w && m * u <= v && w < (n + 1) * u
    ensures m <= n
  {
    MulMono(n + 1, m, u);
  }

  /** Encoding what was decoded from an encoding changes nothing. */
  lemma Idempotent(v: nat, negative: bool)
    requires Bytes(v) <= 32
    ensures Encode(v, negative) < BASE
    ensures var c := Encode(v, negative); Encode(Magnitude(c), Magnitude(c) != 0 && SignBit(c)) == c
  {
    hide Unit, Bytes, Lead, Shape, Magnitude, Canonical, SignBit, Encode;
    EncodedIsCanonical(v, negative);
    RoundsDown(v, negative);
    BytesMono(Magnitude(Encode(v, negative)), v);
    RoundTrip(Encode(v, negative));
  }

  lemma BytesMono(v: nat, w: nat)
    requires v <= w
    ensures Bytes(v) <= Bytes(w)
  {
    hide Unit, Bytes;
    ZeroBytes();
    if v > 0 {
      BytesBracket(v);
      BytesBracket(w);
      if Bytes(v) > Bytes(w) { UnitMono(Bytes(w), Bytes(v) - 1); }
    }
  }

  /** The compact values in normal form: no leading zero byte, no digits that would be dropped. */
  predicate Canonical(c: Word) {
    c == 0 || (Size(c) > 0 && Mantissa(c) >= 0x8000 && (Size(c) < 3 ==> Mantissa(c) % Unit(3 - Size(c)) == 0))
  }

  lemma CanonicalFits(c: Word)
    requires Canonical(c) && c != 0
    ensures Fits(Magnitude(c), Size(c), Mantissa(c))
  {
    hide Unit;
    SmallUnits();
    var n, m := Size(c), Mantissa(c);
    if n <= 3 {
      DivMod(m, Unit(3 - n));
    } else {
      MulMono(m, m + 1, Unit(n - 3));
      Larger(m, Unit(n - 3));
    }
  }

  lemma Larger(m: nat, u: nat)
    requires u > 0
    ensures m * u < (m + 1) * u
  {
  }

  lemma {:induction false} EncodedIsCanonical(v: nat, negative: bool)
    requires Bytes(v) <= 32
    ensures Encode(v, negative) < BASE && Canonical(Encode(v, negative))
  {
    hide Unit, Bytes, Lead, Shape;
    EncodeParts(v, negative);
    ShapeOf(v);
    if v > 0 {
      ShapeFits(v);
      var s, m := Shape(v).0, Shape(v).1;
      if s < 3 { ModUnique(0, v, Unit(3 - s), m); }
    }
  }

  /** GetCompact after SetCompact gives the word back exactly when it is in normal form. */
  lemma RoundTrip(c: Word)
    requires Bytes(Magnitude(c)) <= 32
    ensures Encode(Magnitude(c), Magnitude(c) != 0 && SignBit(c)) == c <==> Canonical(c)
  {
    hide Unit, Bytes, Lead, Shape, Magnitude, Canonical;
    var v := Magnitude(c);
    EncodedIsCanonical(v, v != 0 && SignBit(c));
    if Canonical(c) && c != 0 {
      CanonicalFits(c);
      FitsUnique(v, Size(c), Mantissa(c));
      NonZero(c);
    } else if c == 0 {
      ShapeOf(v);
      ZeroIsZero();
    }
  }

  lemma ZeroIsZero()
    ensures Magnitude(0) == 0
  {
    SmallUnits();
  }

  lemma NonZero(c: Word)
    requires Fits(Magnitude(c), Size(c), Mantissa(c))
    ensures Magnitude(c) > 0
    ensures c == Size(c) * SIZE_UNIT + Mantissa(c) + (if SignBit(c) then SIGN else 0)
  {
    hide Unit;
    WordParts(c);
    if Size(c) > 3 { MulMono(0x8000, Mantissa(c), Unit(Size(c) - 3)); }
  }

  lemma WordParts(c: Word)
    ensures c == Size(c) * SIZE_UNIT + Mantissa(c) + (if SignBit(c) then SIGN else 0)
  {
  }

  // ------------------------------------------------------------- the flags

  /** The test SetCompact makes for overflow, on the mantissa it has already shifted down. */
  predicate OverflowTest(size: nat, word: nat) {
    word != 0 && (size > 34 || (word > 0xff && size > 33) || (word > 0xffff && size > 32))
  }

  /** The test is exact: it says whether the number needs more than 256 bits. */
  lemma OverflowExact(c: Word)
    ensures OverflowTest(Size(c), if Size(c) <= 3 then Magnitude(c) else Mantissa(c)) <==> Magnitude(c) >= Unit(32)
  {
    hide Unit;
    if Size(c) <= 3 {
      SmallUnits();
      QuotientBound(Mantissa(c), Unit(3 - Size(c)));
      UnitMono(3, 32);
    } else {
      OverflowLong(Size(c), Mantissa(c));
    }
  }

  lemma OverflowLong(n: nat, w: nat)
    requires n > 3 && w < SIGN
    ensures OverflowTest(n, w) <==> w * Unit(n - 3) >= Unit(32)
  {
    hide Unit;
    SmallUnits();
    if n <= 32 {
      UnitMono(n - 3, 29);
      UnitAdd(3, 29);
      Below(w, 0x1000000, Unit(n - 3), Unit(29));
    } else if n == 33 {
      UnitAdd(2, 30);
      Threshold(w, 0x10000, Unit(30));
    } else if n == 34 {
      UnitAdd(1, 31);
      Threshold(w, 0x100, Unit(31));
    } else {
      UnitMono(32, n - 3);
      MulMono(1, w, Unit(n - 3));
    }
  }

  lemma Threshold(w: nat, t: nat, u: nat)
    requires u > 0
    ensures w * u >= t * u <==> w >= t
  {
    MulMono(t, w, u);
    MulMono(w + 1, t, u);
  }

  lemma Below(w: nat, t: nat, u: nat, u': nat)
    requires w < t && u <= u' && u' > 0
    ensures w * u < t * u'
  {
    MulMono(u, u', w);
    MulMono(w + 1, t, u');
  }

  lemma ZeroBytes()
    ensures Bytes(0) == 0
  {
  }
}
