/**
  base_uint as it is written: an array of limbs updated in place by carry, shift and
  division loops, for any width.  Each operator is proved to be the integer operation modulo
  2^(32*width); 64-bit intermediates never overflow.
 */
module ArithUint {
  import opened Common
  import opened Limbs
  import opened Shifts

  lemma Distribute(a: int, b: int, c: int, p: int)
    ensures (a + b + c) * p == a * p + b * p + c * p
  {
  }

  /** One limb of addition, subtraction or multiplication: sums carry over to the next limb. */
  lemma CarryStep(done: int, carry: int, term: int, w: int, carry': int, p: int, total: int)
    requires done + carry * p == total && carry + term == w + carry' * BASE
    ensures done + w * p + carry' * (BASE * p) == total + term * p
  {
    assert (carry + term) * p == carry * p + term * p;
    assert (w + carry' * BASE) * p == w * p + carry' * BASE * p;
    assert carry' * (BASE * p) == carry' * BASE * p;
  }

  class BaseUint {
    const pn: array<Word>

    ghost function Val(): nat
      reads pn
    {
      Value(pn[..])
    }

    constructor (width: nat)
      ensures fresh(pn) && pn.Length == width && forall k :: 0 <= k < width ==> pn[k] == 0
    {
      pn := new Word[width](_ => 0);
    }

    constructor Copy(b: BaseUint)
      ensures fresh(pn) && pn[..] == b.pn[..] && pn.Length == b.pn.Length
    {
      pn := new Word[b.pn.Length](i requires 0 <= i < b.pn.Length reads b.pn => b.pn[i]);
    }

    /** operator+= */
    method AddAssign(b: BaseUint)
      requires b.pn.Length == pn.Length
      modifies pn
      ensures Val() == (old(Val()) + old(b.Val())) % BPow(pn.Length)
    {
      hide V, BPow;
      ghost var s, t := pn[..], b.pn[..];
      var carry := 0;
      VZero(s); VZero(t);
      for i := 0 to pn.Length
        invariant 0 <= carry <= 1
        invariant forall k :: i <= k < pn.Length ==> pn[k] == s[k] && b.pn[k] == t[k]
        invariant V(pn[..], i) + carry * BPow(i) == V(s, i) + V(t, i)
      {
        ghost var before := pn[..];
        var x: int, y: int := pn[i], b.pn[i];
        var n := carry + x + y;
        assert n < BASE * BASE;
        CarryStep(V(before, i), carry, x + y, n % BASE, n / BASE, BPow(i), V(s, i) + V(t, i));
        Distribute(x, y, 0, BPow(i));
        pn[i] := n % BASE;
        carry := n / BASE;
        Same(before, pn[..], i);
        VNext(s, i); VNext(t, i); VNext(pn[..], i);
      }
      Bounded(pn[..], pn.Length);
      ModUnique(Val(), carry, BPow(pn.Length), Value(s) + Value(t));
    }

    /** operator*=(uint32_t) */
    method MulWordAssign(b32: Word)
      modifies pn
      ensures Val() == (old(Val()) * b32) % BPow(pn.Length)
    {
      hide V, BPow;
      ghost var s := pn[..];
      var carry := 0;
      VZero(s);
      for i := 0 to pn.Length
        invariant 0 <= carry < BASE
        invariant forall k :: i <= k < pn.Length ==> pn[k] == s[k]
        invariant V(pn[..], i) + carry * BPow(i) == V(s, i) * b32
      {
        ghost var before := pn[..];
        var x: int, b: int := pn[i], b32;
        ProductFits(x, b, carry, 0);
        var n := carry + b * x;
        assert n < BASE * BASE;
        CarryStep(V(before, i), carry, b * x, n % BASE, n / BASE, BPow(i), V(s, i) * b);
        Factor(V(s, i), x, BPow(i), b);
        pn[i] := n % BASE;
        carry := n / BASE;
        Same(before, pn[..], i);
        VNext(s, i); VNext(pn[..], i);
      }
      Bounded(pn[..], pn.Length);
      ModUnique(Val(), carry, BPow(pn.Length), Value(s) * b32);
    }

    /** operator++ (prefix): the carry runs up while limbs wrap to zero. */
    method Increment()
      requires pn.Length > 0
      modifies pn
      ensures Val() == (old(Val()) + 1) % BPow(pn.Length)
    {
      hide V, BPow;
      ghost var s := pn[..];
      var i := 0;
      VZero(s); VNext(s, 0);
      pn[0] := if pn[0] == BASE - 1 then 0 else pn[0] + 1;
      VZero(pn[..]); VNext(pn[..], 0);
      while pn[i] == 0 && i < pn.Length - 1
        invariant 0 <= i < pn.Length
        invariant forall k :: i < k < pn.Length ==> pn[k] == s[k]
        invariant V(pn[..], i + 1) + (if pn[i] == 0 then BPow(i + 1) else 0) == V(s, i + 1) + 1
        decreases pn.Length - i
      {
        ghost var before := pn[..];
        i := i + 1;
        pn[i] := if pn[i] == BASE - 1 then 0 else pn[i] + 1;
        Same(before, pn[..], i);
        VNext(s, i); VNext(pn[..], i);
        Factor(1, s[i], BPow(i), 1);
      }
      Tail(pn[..], s, i + 1, pn.Length);
      Bounded(pn[..], pn.Length);
      ModUnique(Val(), if pn[i] == 0 then 1 else 0, BPow(pn.Length), Value(s) + 1);
    }

    /** operator-- (prefix): the borrow runs up while limbs wrap to all ones. */
    method Decrement()
      requires pn.Length > 0
      modifies pn
      ensures Val() == (old(Val()) - 1) % BPow(pn.Length)
    {
      hide V, BPow;
      ghost var s := pn[..];
      var i := 0;
      VZero(s); VNext(s, 0);
      pn[0] := if pn[0] == 0 then BASE - 1 else pn[0] - 1;
      VZero(pn[..]); VNext(pn[..], 0);
      while pn[i] == BASE - 1 && i < pn.Length - 1
        invariant 0 <= i < pn.Length
        invariant forall k :: i < k < pn.Length ==> pn[k] == s[k]
        invariant V(pn[..], i + 1) + 1 == V(s, i + 1) + if pn[i] == BASE - 1 then BPow(i + 1) else 0
        decreases pn.Length - i
      {
        ghost var before := pn[..];
        i := i + 1;
        pn[i] := if pn[i] == 0 then BASE - 1 else pn[i] - 1;
        Same(before, pn[..], i);
        VNext(s, i); VNext(pn[..], i);
        BorrowStep(s[i], pn[i], BPow(i));
      }
      Tail(pn[..], s, i + 1, pn.Length);
      Bounded(pn[..], pn.Length);
      ModUnique(Val(), if pn[i] == BASE - 1 then -1 else 0, BPow(pn.Length), Value(s) - 1);
    }

    /** operator~ */
    method Complement() returns (ret: BaseUint)
      ensures fresh(ret) && fresh(ret.pn) && ret.pn.Length == pn.Length
      ensures ret.Val() == BPow(pn.Length) - 1 - Val()
    {
      hide V, BPow;
      ret := new BaseUint(pn.Length);
      VZero(pn[..]); VZero(ret.pn[..]);
      for i := 0 to pn.Length
        invariant V(ret.pn[..], i) == BPow(i) - 1 - V(pn[..], i)
        invariant pn[..] == old(pn[..])
      {
        ghost var before := ret.pn[..];
        ret.pn[i] := BASE - 1 - pn[i];
        Same(before, ret.pn[..], i);
        VNext(pn[..], i); VNext(ret.pn[..], i);
        ComplementStep(pn[i], BPow(i));
      }
    }

    /** operator- (unary) */
    method Negate() returns (ret: BaseUint)
      requires pn.Length > 0
      ensures fresh(ret) && fresh(ret.pn) && ret.pn.Length == pn.Length
      ensures ret.Val() == (-(Val() as int)) % BPow(pn.Length)
    {
      hide V, BPow;
      Bounded(pn[..], pn.Length);
      ret := Complement();
      ret.Increment();
      NegateMod(Val(), BPow(pn.Length));
    }

    /** operator-= */
    method SubAssign(b: BaseUint)
      requires b.pn.Length == pn.Length > 0
      modifies pn
      ensures Val() == (old(Val()) - old(b.Val())) % BPow(pn.Length)
    {
      hide V, BPow;
      var neg := b.Negate();
      ghost var x, y := Val(), b.Val();
      AddAssign(neg);
      SubMod(x, y, BPow(pn.Length));
    }

    /** CompareTo: the sign of the comparison. */
    method CompareTo(b: BaseUint) returns (r: int)
      requires b.pn.Length == pn.Length
      ensures r == if Val() < b.Val() then -1 else if Val() > b.Val() then 1 else 0
    {
      hide V, BPow;
      var i := pn.Length;
      while i > 0
        invariant 0 <= i <= pn.Length
        invariant forall k :: i <= k < pn.Length ==> pn[k] == b.pn[k]
      {
        i := i - 1;
        if pn[i] < b.pn[i] {
          HighestLimbDecides(pn[..], b.pn[..], i);
          return -1;
        }
        if pn[i] > b.pn[i] {
          HighestLimbDecides(b.pn[..], pn[..], i);
          return 1;
        }
      }
      assert pn[..] == b.pn[..];
      return 0;
    }

    /** One row of schoolbook multiplication: add aj * b, shifted by j limbs. */
    method MulRow(aj: Word, j: nat, b: BaseUint) returns (ghost c: int)
      requires b.pn.Length == pn.Length && j < pn.Length
      requires b.pn == pn ==> forall k :: 0 <= k < pn.Length ==> pn[k] == 0
      modifies pn
      ensures b.pn == pn ==> forall k :: 0 <= k < pn.Length ==> pn[k] == 0
      ensures b.pn != pn ==>
                Val() + c * BPow(pn.Length) == old(Val()) + (aj * BPow(j)) * V(b.pn[..], pn.Length - j)
    {
      hide V, BPow;
      ghost var s, t := pn[..], b.pn[..];
      var carry := 0;
      VZero(t);
      var i := 0;
      while i + j < pn.Length
        invariant 0 <= i <= pn.Length - j && 0 <= carry < BASE
        invariant b.pn == pn ==> carry == 0 && pn[..] == s
        invariant b.pn != pn ==> b.pn[..] == t
        invariant forall k :: i + j <= k < pn.Length ==> pn[k] == s[k]
        invariant b.pn != pn ==> V(pn[..], i + j) + carry * BPow(i + j) == V(s, i + j) + (aj * BPow(j)) * V(t, i)
      {
        ghost var before := pn[..];
        var x: int, y: int, z: int := aj, b.pn[i], pn[i + j];
        ProductFits(y, x, carry, z);
        var n := carry + z + x * y;
        assert n < BASE * BASE;
        if b.pn != pn {
          RowStep(s, t, before, i, j, x, carry, n);
        } else {
          assert n == 0;
        }
        pn[i + j] := n % BASE;
        carry := n / BASE;
        if b.pn != pn { RowNext(before, pn[..], i + j); }
        i := i + 1;
      }
      c := carry;
    }

    /**
      operator*=(const base_uint&).  The accumulator is cleared before b is read, so the
      product is right exactly when b is another object; x *= x gives zero.
     */
    method MulAssign(b: BaseUint)
      requires b.pn.Length == pn.Length
      modifies pn
      ensures b.pn != pn ==> Val() == (old(Val()) * old(b.Val())) % BPow(pn.Length)
      ensures b.pn == pn ==> Val() == 0
    {
      hide V, BPow;
      var a := new BaseUint.Copy(this);
      ghost var s, t := pn[..], b.pn[..];
      Clear();
      Zeros(pn[..], pn.Length);
      VZero(s);
      ghost var c := 0;
      for j := 0 to pn.Length
        invariant a.pn[..] == s
        invariant b.pn == pn ==> forall k :: 0 <= k < pn.Length ==> pn[k] == 0
        invariant b.pn != pn ==> b.pn[..] == t && Val() + c * BPow(pn.Length) == V(s, j) * Value(t)
      {
        ghost var before := Val();
        ghost var c1 := MulRow(a.pn[j], j, b);
        Split(t, pn.Length - j, pn.Length);
        ghost var hi := V(t[pn.Length - j..], j);
        BPowAdd(j, pn.Length - j);
        VNext(s, j);
        if b.pn != pn {
          RowSum(before, Val(), c, c1, s[j], BPow(j), V(t, pn.Length - j), hi, BPow(pn.Length - j), V(s, j), Value(t));
        }
        c := c1 + c + s[j] * hi;
      }
      if b.pn == pn {
        Zeros(pn[..], pn.Length);
      } else {
        Bounded(pn[..], pn.Length);
        ModUnique(Val(), c, BPow(pn.Length), Value(s) * Value(t));
      }
    }

    /** operator<<= : bits moved past the top are lost. */
    method ShiftLeft(shift: nat)
      modifies pn
      ensures Val() == (old(Val()) * Pow2(shift)) % BPow(pn.Length)
    {
      hide V, BPow, Pow2, Or, Left, Right, Crossing;
      var a := new BaseUint.Copy(this);
      ghost var src := pn[..];
      Clear();
      var k, s, width := shift / 32, shift % 32, pn.Length;
      ghost var lost := 0;
      if k <= width { ShlStart(src, pn[..], k, s); }
      for i := 0 to width
        invariant a.pn[..] == src
        invariant forall t :: i + k < t < width ==> pn[t] == 0
        invariant i + k < width ==> pn[i + k] == Crossing(src, i, s)
        invariant i + k <= width ==>
          V(pn[..], i + k) + Crossing(src, i, s) * BPow(i + k) == (V(src, i) * Pow2(s)) * BPow(k)
        invariant k < width <= i + k ==>
          Val() + lost * BPow(width) == (V(src, width - k) * Pow2(s)) * BPow(k)
        invariant k >= width ==> forall t :: 0 <= t < width ==> pn[t] == 0
      {
        ghost var before := pn[..];
        CrossingNext(src, i, s);
        if i + k + 1 < width && s != 0 {
          pn[i + k + 1] := Or(pn[i + k + 1], Right(a.pn[i], 32 - s));
        }
        if i + k < width {
          CrossingFits(src, i, s);
          pn[i + k] := Or(pn[i + k], Left(a.pn[i], s));
          ShlStep(src, before, pn[..], i, k, s);
          if i + k + 1 == width { lost := Crossing(src, i + 1, s); }
        }
      }
      ShlEnd(src, pn[..], k, s, lost);
    }

    /** operator>>= */
    method ShiftRight(shift: nat)
      modifies pn
      ensures Val() == old(Val()) / Pow2(shift)
    {
      hide V, BPow, Pow2, Or, Left, Right, ShrDone;
      var a := new BaseUint.Copy(this);
      ghost var src := pn[..];
      Clear();
      var k, s, width := shift / 32, shift % 32, pn.Length;
      for i := 0 to width
        invariant a.pn[..] == src
        invariant forall t :: 0 <= t < width && i - k <= t ==> pn[t] == 0
        invariant k < i ==> pn[i - k - 1] == Right(src[i - 1], s)
        invariant k < i ==> ShrDone(src[k..], pn[..], i - k, s)
      {
        ghost var before := pn[..];
        if i > k { DownPair(src[i - 1], src[i], s); }
        if i - k - 1 >= 0 && s != 0 {
          pn[i - k - 1] := Or(pn[i - k - 1], Left(a.pn[i], 32 - s));
        }
        if i - k >= 0 {
          OrNothing(Right(a.pn[i], s));
          pn[i - k] := Or(pn[i - k], Right(a.pn[i], s));
          ShrStep(src[k..], before, pn[..], i - k, s);
        }
      }
      ShrEnd(src, pn[..], k, s);
    }

    /** bits(): the position of the highest set bit, counted from one; zero for zero. */
    method Bits() returns (r: nat)
      ensures r <= 32 * pn.Length
      ensures r == 0 <==> Val() == 0
      ensures r > 0 ==> Pow2(r - 1) <= Val() < Pow2(r)
    {
      hide V, BPow, Pow2;
      var pos := pn.Length;
      while pos > 0
        invariant 0 <= pos <= pn.Length
        invariant forall k :: pos <= k < pn.Length ==> pn[k] == 0
      {
        pos := pos - 1;
        if pn[pos] != 0 {
          var bits := 31;
          BaseIsPow2();
          while bits > 0
            invariant 0 <= bits <= 31 && pn[pos] < Pow2(bits + 1)
          {
            BitTest(pn[pos], bits);
            if (pn[pos] / Pow2(bits)) % 2 == 1 {
              TopBit(pn[..], pos, bits);
              return 32 * pos + bits + 1;
            }
            bits := bits - 1;
          }
          LowestBit();
          TopBit(pn[..], pos, 0);
          return 32 * pos + 1;
        }
      }
      Zeros(pn[..], pn.Length);
      return 0;
    }

    /** One round of the division loop decides quotient bit shift. */
    method DivBit(num: BaseUint, div: BaseUint, shift: nat, ghost d: nat)
      requires num.pn.Length == div.pn.Length == pn.Length > 0
      requires num.pn != div.pn && num.pn != pn && div.pn != pn
      requires div.Val() == Scaled(d, shift) && Clearable(pn[..], shift)
      requires num.Val() < Scaled(d, shift + 1)
      modifies pn, num.pn, div.pn
      ensures Dividend(Val(), d, num.Val()) == old(Dividend(Val(), d, num.Val()))
      ensures num.Val() < Scaled(d, shift)
      ensures shift > 0 ==> div.Val() == Scaled(d, shift - 1) && Clearable(pn[..], shift - 1)
    {
      hide V, BPow, Pow2, Or, Clearable, Scaled, Dividend;
      ghost var q, r, before := Val(), num.Val(), pn[..];
      var c := num.CompareTo(div);
      NextBit(d, shift);
      if c >= 0 {
        Bounded(num.pn[..], num.pn.Length);
        SmallDifference(r, div.Val(), BPow(num.pn.Length));
        num.SubAssign(div);
        BitFits(pn[..], shift);
        pn[shift / 32] := Or(pn[shift / 32], Pow2(shift % 32));
        SetBit(before, pn[..], shift);
        TakeBit(q, d, r, shift);
      }
      BitsBelow(before, pn[..], shift);
      div.ShiftRight(1);
    }

    /**
      operator/= : shift and subtract.  The target is already zero when division by zero is
      thrown, which the result ok == false stands for.
     */
    method DivAssign(b: BaseUint) returns (ok: bool)
      requires b.pn.Length == pn.Length > 0
      modifies pn
      ensures ok <==> old(b.Val()) != 0
      ensures !ok ==> Val() == 0
      ensures ok ==> Val() == old(Val()) / old(b.Val())
    {
      hide V, BPow, Pow2, Or, Clearable, Scaled, Dividend;
      var div := new BaseUint.Copy(b);
      var num := new BaseUint.Copy(this);
      ghost var d, n := div.Val(), num.Val();
      Clear();
      Zeros(pn[..], pn.Length);
      var numBits := num.Bits();
      var divBits := div.Bits();
      if divBits == 0 {
        return false;
      }
      if divBits > numBits {
        QuotientZero(n, d, numBits, divBits);
        return true;
      }
      var shift: int := numBits - divBits;
      Aligned(n, d, numBits, divBits, pn.Length);
      div.ShiftLeft(shift);
      NoBitsYet(pn[..], shift);
      while shift >= 0
        invariant -1 <= shift < 32 * pn.Length
        invariant shift >= 0 ==> div.Val() == Scaled(d, shift) && Clearable(pn[..], shift)
        invariant num.Val() < Scaled(d, shift + 1)
        invariant Dividend(Val(), d, num.Val()) == n
      {
        DivBit(num, div, shift, d);
        shift := shift - 1;
      }
      Divided(n, d, Val(), num.Val());
      return true;
    }

    /** operator=(uint64_t) */
    method AssignU64(b: nat)
      requires pn.Length >= 2 && b < BASE * BASE
      modifies pn
      ensures Val() == b
    {
      hide V, BPow;
      pn[0] := b % BASE;
      pn[1] := b / BASE;
      for i := 2 to pn.Length
        invariant pn[0] == b % BASE && pn[1] == b / BASE
        invariant forall k :: 2 <= k < i ==> pn[k] == 0
      {
        pn[i] := 0;
      }
      TopZeros(pn[..], 2);
      LowTwo(pn[..]);
    }

    /** GetLow64 */
    method GetLow64() returns (r: nat)
      requires pn.Length >= 2
      ensures r == Val() % (BASE * BASE)
    {
      hide V, BPow;
      r := pn[0] + pn[1] * BASE;
      LowTwo(pn[..]);
      Split(pn[..], 2, pn.Length);
      ModUnique(r, V(pn[..][2..], pn.Length - 2), BASE * BASE, Val());
    }

    /** `*this = 0` */
    method Clear()
      modifies pn
      ensures forall k :: 0 <= k < pn.Length ==> pn[k] == 0
    {
      for i := 0 to pn.Length
        invariant forall k :: 0 <= k < i ==> pn[k] == 0
      {
        pn[i] := 0;
      }
    }
  }

  /** A limb less one, and what is borrowed from the next. */
  lemma BorrowStep(x: Word, y: Word, p: int)
    requires y == if x == 0 then BASE - 1 else x - 1
    ensures y * p + p == x * p + if y == BASE - 1 then BASE * p else 0
  {
    assert y == BASE - 1 <==> x == 0;
    assert (x - 1) * p == x * p - p;
  }

  lemma Factor(v: int, x: int, p: int, b: int)
    ensures (v + x * p) * b == v * b + (b * x) * p
  {
    assert (x * p) * b == (b * x) * p;
  }

  /** carry + pn[i+j] + a.pn[j] * b.pn[i] fits 64 bits and leaves a carry of one limb. */
  lemma ProductFits(x: int, y: int, carry: int, z: int)
    requires 0 <= x < BASE && 0 <= y < BASE && 0 <= carry < BASE && 0 <= z < BASE
    ensures 0 <= carry + z + y * x < BASE * BASE
    ensures (carry + z + y * x) / BASE < BASE
  {
    MulMono(y, BASE - 1, x);
    MulMono(0, y, x);
  }

  lemma ComplementStep(x: int, p: int)
    ensures (BASE - 1 - x) * p == BASE * p - p - x * p
  {
  }

  lemma NegateMod(v: nat, m: nat)
    requires v < m
    ensures (m - 1 - v + 1) % m == (-(v as int)) % m
  {
    if v == 0 {
      ModUnique(0, 1, m, m);
      ModUnique(0, 0, m, 0);
    } else {
      ModUnique(m - v, 0, m, m - v);
      ModUnique(m - v, -1, m, 0 - v);
    }
  }

  lemma SubMod(x: int, y: int, m: nat)
    requires m > 0
    ensures (x + (-y) % m) % m == (x - y) % m
  {
    var r := (-y) % m;
    var q := (-y) / m;
    assert -y == q * m + r;
    var t := (x + r) / m;
    assert x + r == t * m + (x + r) % m;
    assert (t + q) * m == t * m + q * m;
    ModUnique((x + r) % m, t + q, m, x - y);
  }

  /** The arithmetic of one inner round. */
  lemma RowStep(s: seq<Word>, t: seq<Word>, before: seq<Word>, i: nat, j: nat, x: int, carry: int, n: int)
    requires |s| == |t| == |before| && i + j < |s|
    requires n == carry + s[i + j] + x * t[i] && n >= 0
    requires V(before, i + j) + carry * BPow(i + j) == V(s, i + j) + (x * BPow(j)) * V(t, i)
    ensures V(before, i + j) + (n % BASE) * BPow(i + j) + (n / BASE) * BPow(i + j + 1)
         == V(s, i + j + 1) + (x * BPow(j)) * V(t, i + 1)
  {
    hide V, BPow;
    var y: int, z: int := t[i], s[i + j];
    CarryStep(V(before, i + j), carry, z + x * y, n % BASE, n / BASE, BPow(i + j),
      V(s, i + j) + (x * BPow(j)) * V(t, i));
    RowTerm(x, BPow(j), V(t, i), y, BPow(i), z);
    BPowAdd(i, j);
    VNext(s, i + j);
    VNext(t, i);
  }

  lemma RowNext(before: seq<Word>, after: seq<Word>, k: nat)
    requires |before| == |after| && k < |after| && forall q :: 0 <= q < k ==> before[q] == after[q]
    ensures V(after, k + 1) == V(before, k) + after[k] * BPow(k)
  {
    Same(before, after, k);
  }

  lemma RowTerm(x: int, pj: int, v: int, y: int, pi: int, z: int)
    ensures (x * pj) * (v + y * pi) + z * (pi * pj) == (x * pj) * v + (z + x * y) * (pi * pj)
  {
    assert (x * pj) * (y * pi) == (x * y) * (pi * pj);
    assert (z + x * y) * (pi * pj) == z * (pi * pj) + (x * y) * (pi * pj);
  }

  /** A number is its low limbs plus its high limbs at their place. */
  lemma {:induction false} Split(s: seq<Word>, m: nat, n: nat)
    requires m <= n <= |s|
    ensures V(s, n) == V(s, m) + V(s[m..], n - m) * BPow(m)
  {
    hide V, BPow;
    if m == n {
      VZero(s[m..]);
    } else {
      Split(s, m, n - 1);
      VNext(s, n - 1);
      VNext(s[m..], n - 1 - m);
      BPowAdd(n - 1 - m, m);
      Distribute(V(s[m..], n - 1 - m), s[n - 1] * BPow(n - 1 - m), 0, BPow(m));
      MulAssoc(s[n - 1], BPow(n - 1 - m), BPow(m));
    }
  }

  lemma RowSum(v: int, v': int, c: int, c1: int, x: int, pj: int, low: int, hi: int, pm: int, done: int, total: int)
    requires v' + c1 * (pj * pm) == v + (x * pj) * low
    requires v + c * (pj * pm) == done * total && total == low + hi * pm
    ensures v' + (c1 + c + x * hi) * (pj * pm) == (done + x * pj) * total
  {
    assert (done + x * pj) * total == done * total + (x * pj) * total;
    assert (x * pj) * (low + hi * pm) == (x * pj) * low + (x * pj) * (hi * pm);
    assert (x * pj) * (hi * pm) == (x * hi) * (pj * pm);
    Distribute(c1, c, x * hi, pj * pm);
  }

  // ---------------------------------------------------------------- shifting

  /** What limb i - 1 sends up into limb i when limbs move by s bits. */
  function Crossing(src: seq<Word>, i: nat, s: nat): Word
    requires i <= |src| && s <= 32
  {
    if i == 0 then 0 else Right(src[i - 1], 32 - s)
  }

  lemma CrossingFits(src: seq<Word>, i: nat, s: nat)
    requires i <= |src| && s <= 32
    ensures i < |src| ==> Or(Crossing(src, i, s), Left(src[i], s)) == Crossing(src, i, s) + Left(src[i], s) < BASE
  {
    if i > 0 { UpParts(src[i - 1], s); }
    if i < |src| {
      UpParts(src[i], s);
      OrWord(Crossing(src, i, s), Left(src[i], s), s);
    }
  }

  lemma CrossingNext(src: seq<Word>, i: nat, s: nat)
    requires i < |src| && s <= 32
    ensures Crossing(src, i + 1, s) == Right(src[i], 32 - s)
    ensures Or(0, Crossing(src, i + 1, s)) == Crossing(src, i + 1, s)
    ensures s == 0 ==> Crossing(src, i + 1, s) == 0
  {
    UpParts(src[i], s);
  }

  lemma ShlStart(src: seq<Word>, zero: seq<Word>, k: nat, s: nat)
    requires k <= |src| == |zero| && s <= 32 && forall t :: 0 <= t < |zero| ==> zero[t] == 0
    ensures V(zero, k) + Crossing(src, 0, s) * BPow(k) == (V(src, 0) * Pow2(s)) * BPow(k)
    ensures Crossing(src, 0, s) == 0
  {
    hide V, BPow, Pow2;
    Zeros(zero, k);
    VZero(src);
  }

  lemma ShlStep(src: seq<Word>, before: seq<Word>, after: seq<Word>, i: nat, k: nat, s: nat)
    requires |src| == |before| == |after| && i + k < |src| && s <= 32
    requires forall t :: 0 <= t < i + k ==> before[t] == after[t]
    requires after[i + k] == Crossing(src, i, s) + Left(src[i], s)
    requires V(before, i + k) + Crossing(src, i, s) * BPow(i + k) == (V(src, i) * Pow2(s)) * BPow(k)
    ensures V(after, i + k + 1) + Crossing(src, i + 1, s) * BPow(i + k + 1) == (V(src, i + 1) * Pow2(s)) * BPow(k)
  {
    hide V, BPow, Pow2, Left, Right;
    var x, c, p := src[i], Crossing(src, i, s), Pow2(s);
    UpParts(x, s);
    CarryStep(V(before, i + k), c, x * p, c + Left(x, s), Right(x, 32 - s), BPow(i + k), (V(src, i) * p) * BPow(k));
    RowNext(before, after, i + k);
    VNext(src, i);
    VNext(after, i + k);
    BPowAdd(i, k);
    ShlTerm(V(src, i), x, p, BPow(i), BPow(k));
  }

  lemma ShlTerm(v: int, x: int, p: int, bi: int, bk: int)
    ensures ((v + x * bi) * p) * bk == (v * p) * bk + (x * p) * (bi * bk)
  {
    assert ((x * bi) * p) * bk == (x * p) * (bi * bk);
    assert ((v + x * bi) * p) * bk == (v * p + (x * bi) * p) * bk;
  }

  lemma ShlEnd(src: seq<Word>, r: seq<Word>, k: nat, s: nat, lost: int)
    requires |src| == |r|
    requires k < |r| ==> Value(r) + lost * BPow(|r|) == (V(src, |r| - k) * Pow2(s)) * BPow(k)
    requires k >= |r| ==> forall t :: 0 <= t < |r| ==> r[t] == 0
    ensures Value(r) == (Value(src) * Pow2(32 * k + s)) % BPow(|r|)
  {
    hide V, BPow, Pow2;
    BPowIsPow2(k);
    Pow2Add(32 * k, s);
    var n, p := |r|, Pow2(s);
    Bounded(r, n);
    if k < n {
      Split(src, n - k, n);
      var hi := V(src[n - k..], k);
      BPowAdd(n - k, k);
      ShlLost(Value(r), lost, V(src, n - k), hi, p, BPow(n - k), BPow(k));
    } else {
      Zeros(r, n);
      BPowAdd(k - n, n);
      ShlAll(Value(src), p, BPow(k - n), BPow(n));
    }
  }

  lemma ShlLost(r: nat, lost: int, v: int, hi: int, p: int, bm: nat, bk: nat)
    requires r + lost * (bm * bk) == (v * p) * bk && r < bm * bk
    ensures r == ((v + hi * bm) * (bk * p)) % (bm * bk)
  {
    ShlTerm(v, hi, p, bm, bk);
    assert ((v + hi * bm) * p) * bk == (v + hi * bm) * (bk * p);
    Distribute(lost, hi * p, 0, bm * bk);
    ModUnique(r, lost + hi * p, bm * bk, (v + hi * bm) * (bk * p));
  }

  lemma ShlAll(v: int, p: int, bd: int, bn: nat)
    requires bn > 0
    ensures (v * ((bd * bn) * p)) % bn == 0
  {
    assert v * ((bd * bn) * p) == (v * p * bd) * bn;
    ModUnique(0, v * p * bd, bn, v * ((bd * bn) * p));
  }

  lemma OrNothing(x: nat)
    ensures Or(0, x) == x
  {
  }

  /** The bits of y left in their limb and the bits of x crossing down do not meet. */
  lemma DownPair(y: Word, x: Word, s: nat)
    requires s <= 32
    ensures Or(Right(y, s), Left(x, 32 - s)) == Right(y, s) + Left(x, 32 - s) < BASE
    ensures Left(x, 32 - s) == (x % Pow2(s)) * Pow2(32 - s)
    ensures s == 0 ==> Left(x, 32 - s) == 0
  {
    UpParts(y, 32 - s);
    UpParts(x, 32 - s);
    OrWord(Right(y, s), Left(x, 32 - s), 32 - s);
  }

  /** The first m limbs of r hold the first m limbs of h moved down by s bits. */
  ghost predicate ShrDone(h: seq<Word>, r: seq<Word>, m: nat, s: nat)
    requires 0 < m <= |h| <= |r|
  {
    V(r, m) * Pow2(s) + h[0] % Pow2(s) == V(h, m)
  }

  lemma ShrStep(h: seq<Word>, before: seq<Word>, after: seq<Word>, m: nat, s: nat)
    requires m < |h| <= |before| == |after| && s <= 32
    requires after[m] == Right(h[m], s)
    requires forall t :: 0 <= t < m - 1 ==> before[t] == after[t]
    requires m > 0 ==> after[m - 1] == before[m - 1] + (h[m] % Pow2(s)) * Pow2(32 - s)
    requires m > 0 ==> ShrDone(h, before, m, s)
    ensures ShrDone(h, after, m + 1, s)
  {
    hide V, BPow, Pow2;
    var x, p, q := h[m], Pow2(s), Pow2(32 - s);
    DivMod(x, p);
    VNext(after, m);
    VNext(h, m);
    if m == 0 {
      VZero(h);
      VZero(after);
    } else {
      Raised(before, after, m - 1, m, (x % p) * q);
      VNext(h, m - 1);
      Pow2Add(s, 32 - s);
      BaseIsPow2();
      ShrTerm(V(before, m), x / p, x % p, p, q, BPow(m - 1), BPow(m));
    }
  }

  lemma ShrTerm(v: int, d: int, r: int, p: int, q: int, bm1: int, bm: int)
    requires p * q == BASE && bm == BASE * bm1
    ensures (v + (r * q) * bm1 + d * bm) * p == v * p + (d * p + r) * bm
  {
    assert ((r * q) * bm1) * p == r * ((p * q) * bm1);
    assert (d * bm) * p == (d * p) * bm;
    Distribute(v, (r * q) * bm1, d * bm, p);
    Distribute(d * p, r, 0, bm);
  }

  lemma ShrEnd(src: seq<Word>, r: seq<Word>, k: nat, s: nat)
    requires |src| == |r|
    requires k < |r| ==> ShrDone(src[k..], r, |r| - k, s) && forall t :: |r| - k <= t < |r| ==> r[t] == 0
    requires k >= |r| ==> forall t :: 0 <= t < |r| ==> r[t] == 0
    ensures Value(r) == Value(src) / Pow2(32 * k + s)
  {
    hide V, BPow, Pow2;
    BPowIsPow2(k);
    Pow2Add(32 * k, s);
    var n, p := |r|, Pow2(s);
    if k < n {
      TopZeros(r, n - k);
      Split(src, k, n);
      Bounded(src, k);
      DivMod(src[k], p);
      ShrQuotient(Value(r), src[k] % p, p, V(src, k), BPow(k), Value(src));
    } else {
      Zeros(r, n);
      Bounded(src, n);
      BPowAdd(k - n, n);
      MulMono(1, BPow(k - n), BPow(n));
      MulMono(1, p, BPow(k));
      ModUnique(Value(src), 0, BPow(k) * p, Value(src));
    }
  }

  lemma ShrQuotient(v: int, r: int, p: nat, low: nat, bk: nat, total: int)
    requires 0 <= r < p && low < bk && total == low + (v * p + r) * bk
    ensures bk * p > 0 && v == total / (bk * p)
  {
    MulMono(r + 1, p, bk);
    MulMono(0, r, bk);
    Distribute(v * p, r, 0, bk);
    assert (v * p) * bk == v * (bk * p);
    ModUnique(low + r * bk, v, bk * p, total);
  }

  lemma LowTwo(s: seq<Word>)
    requires |s| >= 2
    ensures V(s, 2) == s[0] + s[1] * BASE && BPow(2) == BASE * BASE
  {
    hide V, BPow;
    VZero(s);
    VNext(s, 0);
    VNext(s, 1);
  }

  // -------------------------------------------------------- bits and division

  lemma LowestBit()
    ensures Pow2(0) == 1 && Pow2(1) == 2
  {
  }

  /** Below 2^(b+1), bit b is set exactly from 2^b on. */
  lemma BitTest(x: nat, b: nat)
    requires x < Pow2(b + 1)
    ensures (x / Pow2(b)) % 2 == 1 <==> x >= Pow2(b)
  {
    if x >= Pow2(b) {
      ModUnique(x - Pow2(b), 1, Pow2(b), x);
    } else {
      ModUnique(x, 0, Pow2(b), x);
    }
  }

  lemma TopBit(s: seq<Word>, pos: nat, b: nat)
    requires pos < |s| && b < 32 && Pow2(b) <= s[pos] < Pow2(b + 1)
    requires forall k :: pos < k < |s| ==> s[k] == 0
    ensures Pow2(32 * pos + b) <= Value(s) < Pow2(32 * pos + b + 1)
    ensures Value(s) > 0
  {
    hide V, BPow, Pow2;
    LeadingLimb(s, pos);
    BPowIsPow2(pos);
    Pow2Add(b, 32 * pos);
    Pow2Add(b + 1, 32 * pos);
    MulMono(Pow2(b), s[pos], BPow(pos));
    var x: int := s[pos];
    MulMono(x + 1, Pow2(b + 1), BPow(pos));
  }

  lemma Pow2Mono(a: nat, b: nat)
    requires a <= b
    ensures Pow2(a) <= Pow2(b)
  {
    Pow2Add(b - a, a);
    MulMono(1, Pow2(b - a), Pow2(a));
  }

  lemma QuotientZero(n: nat, d: nat, numBits: nat, divBits: nat)
    requires numBits < divBits && Pow2(divBits - 1) <= d
    requires if numBits == 0 then n == 0 else n < Pow2(numBits)
    ensures d > 0 && n / d == 0
  {
    Pow2Mono(numBits, divBits - 1);
    ModUnique(n, 0, d, n);
  }

  /** Shifting the divisor up to the dividend's top bit loses nothing and brackets the dividend. */
  lemma Aligned(n: nat, d: nat, numBits: nat, divBits: nat, width: nat)
    requires 0 < divBits <= numBits <= 32 * width
    requires Pow2(divBits - 1) <= d < Pow2(divBits) && n < Pow2(numBits)
    ensures (d * Pow2(numBits - divBits)) % BPow(width) == Scaled(d, numBits - divBits)
    ensures n < Scaled(d, numBits - divBits + 1) && Dividend(0, d, n) == n
  {
    hide Pow2, BPow;
    var shift := numBits - divBits;
    Pow2Add(divBits, shift);
    Pow2Add(divBits - 1, shift + 1);
    ProductBelow(d, Pow2(divBits), Pow2(shift));
    MulMono(Pow2(divBits - 1), d, Pow2(shift + 1));
    BPowIsPow2(width);
    Pow2Mono(numBits, 32 * width);
    SmallDifference(d * Pow2(shift), 0, BPow(width));
  }

  lemma ProductBelow(d: nat, e: nat, p: nat)
    requires d < e && p > 0
    ensures 0 <= d * p < e * p
  {
    MulMono(d + 1, e, p);
  }

  /** The divisor moved up by shift bits. */
  function Scaled(d: nat, shift: nat): int {
    d * Pow2(shift)
  }

  /** What quotient and remainder stand for. */
  function Dividend(q: nat, d: nat, r: nat): int {
    q * d + r
  }

  lemma NextBit(d: nat, shift: nat)
    ensures Scaled(d, shift + 1) == 2 * Scaled(d, shift)
    ensures shift > 0 ==> Scaled(d, shift) / Pow2(1) == Scaled(d, shift - 1)
  {
    assert Pow2(shift + 1) == 2 * Pow2(shift);
    LowestBit();
    if shift > 0 { assert d * (2 * Pow2(shift - 1)) == 2 * (d * Pow2(shift - 1)); }
  }

  lemma TakeBit(q: nat, d: nat, r: nat, shift: nat)
    requires r >= Scaled(d, shift)
    ensures Dividend(q + Pow2(shift), d, r - Scaled(d, shift)) == Dividend(q, d, r)
  {
    hide Pow2;
    assert (q + Pow2(shift)) * d == q * d + d * Pow2(shift);
  }

  lemma Divided(n: nat, d: nat, q: nat, r: nat)
    requires Dividend(q, d, r) == n && r < Scaled(d, 0)
    ensures d > 0 && q == n / d
  {
    LowestBit();
    ModUnique(r, q, d, n);
  }

  lemma SmallDifference(x: nat, y: nat, m: nat)
    requires y <= x < m
    ensures (x - y) % m == x - y
  {
    ModUnique(x - y, 0, m, x - y);
  }

  /** No quotient bit at or below position shift has been set. */
  ghost predicate Clearable(s: seq<Word>, shift: nat) {
    && shift < 32 * |s|
    && (forall k :: 0 <= k < shift / 32 ==> s[k] == 0)
    && s[shift / 32] % Pow2(shift % 32 + 1) == 0
  }

  lemma NoBitsYet(s: seq<Word>, shift: nat)
    requires shift < 32 * |s| && forall k :: 0 <= k < |s| ==> s[k] == 0
    ensures Clearable(s, shift)
  {
    hide Pow2;
    ModUnique(0, 0, Pow2(shift % 32 + 1), 0);
  }

  lemma BitFits(s: seq<Word>, shift: nat)
    requires Clearable(s, shift)
    ensures shift / 32 < |s|
    ensures Or(s[shift / 32], Pow2(shift % 32)) == s[shift / 32] + Pow2(shift % 32) < BASE
  {
    var e := shift % 32;
    Pow2Mono(e, 31);
    BaseIsPow2();
    OrWord(Pow2(e), s[shift / 32], e + 1);
  }

  lemma SetBit(before: seq<Word>, after: seq<Word>, shift: nat)
    requires |before| == |after| && shift < 32 * |before|
    requires after[shift / 32] == before[shift / 32] + Pow2(shift % 32)
    requires forall k :: 0 <= k < |after| && k != shift / 32 ==> after[k] == before[k]
    ensures Value(after) == Value(before) + Pow2(shift)
  {
    hide V, BPow, Pow2;
    Raised(before, after, shift / 32, |after|, Pow2(shift % 32));
    BPowIsPow2(shift / 32);
    Pow2Add(shift % 32, 32 * (shift / 32));
  }

  lemma BitsBelow(before: seq<Word>, after: seq<Word>, shift: nat)
    requires Clearable(before, shift) && |before| == |after|
    requires forall k :: 0 <= k < |after| && k != shift / 32 ==> after[k] == before[k]
    requires after[shift / 32] == before[shift / 32] || after[shift / 32] == before[shift / 32] + Pow2(shift % 32)
    ensures shift > 0 ==> Clearable(after, shift - 1)
  {
    hide Pow2;
    var e := shift % 32;
    if e > 0 {
      assert shift / 32 == (shift - 1) / 32 && (shift - 1) % 32 == e - 1;
      Doubling(e);
      HalfMultiple(before[shift / 32], Pow2(e));
    } else if shift > 0 {
      assert (shift - 1) / 32 == shift / 32 - 1;
      SmallDifference(0, 0, Pow2((shift - 1) % 32 + 1));
    }
  }

  lemma Doubling(e: nat)
    ensures Pow2(e + 1) == 2 * Pow2(e)
  {
  }

  lemma HalfMultiple(x: nat, p: nat)
    requires p > 0 && x % (2 * p) == 0
    ensures x % p == 0 && (x + p) % p == 0
  {
    DivMod(x, 2 * p);
    var k := x / (2 * p);
    assert k * (2 * p) == (2 * k) * p;
    ModUnique(0, 2 * k, p, x);
    ModUnique(0, 2 * k + 1, p, x + p);
  }
}
