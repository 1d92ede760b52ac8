/**
  ConvertBits (src/bech32.h): regrouping a stream of bits.  The accumulator is a 32-bit word
  that wraps around; only its low bits are ever read.  Bytes wider than a group are accepted, as
  in the code, and mix with bits that are still pending; what is said about values is said of
  groups that are within their width.
 */
module ConvertBits {
  import opened Common
  import opened Limbs
  import opened Numerals
  import opened Shifts

  /** Digits of a fixed number are determined by their value. */
  lemma {:induction false} NumInjective(x: seq<nat>, y: seq<nat>, base: nat)
    requires base > 1 && Ok(x, base) && Ok(y, base) && |x| == |y| && Num(x, base) == Num(y, base)
    ensures x == y
  {
    if x != [] {
      var n := |x| - 1;
      ModUnique(x[n], Num(x[..n], base), base, Num(x, base));
      ModUnique(y[n], Num(y[..n], base), base, Num(y, base));
      NumInjective(x[..n], y[..n], base);
      assert x == x[..n] + [x[n]] && y == y[..n] + [y[n]];
    }
  }

  /** The unread low part of the accumulator. */
  function Pending(val: nat, bits: nat): nat {
    DivMod(val, Pow2(bits));
    val % Pow2(bits)
  }

  /** `(val << from) | d` on 32 bits. */
  function Accumulate(val: Word, d: nat, from: nat): (r: Word)
    requires d < BASE
  {
    BaseIsPow2();
    OrBound(Left(val, from), d, 32);
    Or(Left(val, from), d)
  }

  /** The accumulator after all bytes of the input. */
  function AccumulateAll(input: seq<nat>, from: nat): Word
    requires Ok(input, 256)
  {
    if input == [] then 0 else Accumulate(AccumulateAll(input[..|input| - 1], from), input[|input| - 1], from)
  }

  lemma AccumulateNext(input: seq<nat>, i: nat, from: nat)
    requires Ok(input, 256) && i < |input|
    ensures AccumulateAll(input[..i + 1], from) == Accumulate(AccumulateAll(input[..i], from), input[i], from)
  {
    assert input[..i + 1][..i] == input[..i];
  }

  lemma {:induction false} OrBound(x: nat, y: nat, k: nat)
    requires x < Pow2(k) && y < Pow2(k)
    ensures Or(x, y) < Pow2(k)
  {
    if x > 0 && y > 0 { OrBound(x / 2, y / 2, k - 1); }
  }

  /** Reading a group appends it to the pending bits; the wrap-around at 32 bits is not seen. */
  lemma ReadStep(val: Word, d: nat, bits: nat, from: nat)
    requires d < Pow2(from) && d < BASE && bits + from <= 32
    ensures Pending(Accumulate(val, d, from), bits + from) == Pending(val, bits) * Pow2(from) + d
  {
    hide Pow2, Or, Left;
    UpParts(val, from);
    OrDisjoint(d, Left(val, from), from);
    Pow2Add(bits, from);
    Pow2Add(bits + from, 32 - bits - from);
    BaseIsPow2();
    var x := val * Pow2(from) + d;
    assert x == Right(val, 32 - from) * BASE + Accumulate(val, d, from);
    ModUnique(Accumulate(val, d, from), Right(val, 32 - from), BASE, x);
    ReadParts(val, d, Pow2(bits), Pow2(from), Pow2(32 - bits - from));
  }

  lemma ReadParts(val: nat, d: nat, p: nat, f: nat, t: nat)
    requires p > 0 && f > 0 && t > 0 && d < f
    ensures p * f > 0 && (p * f) * t > 0 && ((val * f + d) % ((p * f) * t)) % (p * f) == (val % p) * f + d
  {
    var x := val * f + d;
    var m := p * f;
    ModMod(x, m, t);
    DivMod(val, p);
    var q, r := val / p, val % p;
    Spread(q, r, f, p);
    assert q * (f * p) == q * m;
    BoundStep(r, p, f, d);
    ModUnique(r * f + d, q, m, x);
  }

  lemma ModMod(x: nat, m: nat, t: nat)
    requires m > 0 && t > 0
    ensures m * t > 0 && (x % (m * t)) % m == x % m
  {
    MulMono(1, m, t);
    var n := m * t;
    DivMod(x, n);
    var r := x % n;
    DivMod(r, m);
    assert (x / n) * (m * t) == ((x / n) * t) * m;
    assert ((x / n) * t + r / m) * m == ((x / n) * t) * m + (r / m) * m;
    ModUnique(r % m, (x / n) * t + r / m, m, x);
  }

  /** The top group of the pending bits. */
  function Group(val: nat, bits: nat, to: nat): nat {
    DivMod(val, Pow2(bits));
    DivMod(val / Pow2(bits), Pow2(to));
    (val / Pow2(bits)) % Pow2(to)
  }

  lemma WriteStep(val: nat, bits: nat, to: nat)
    ensures Group(val, bits, to) < Pow2(to)
    ensures Pending(val, bits + to) == Group(val, bits, to) * Pow2(bits) + Pending(val, bits)
  {
    hide Pow2;
    Pow2Add(to, bits);
    WriteParts(val, Pow2(bits), Pow2(to));
  }

  lemma WriteParts(val: nat, p: nat, t: nat)
    requires p > 0 && t > 0
    ensures t * p > 0 && 0 <= (val / p) % t < t && val % (t * p) == ((val / p) % t) * p + val % p
  {
    MulMono(1, t, p);
    DivMod(val, p);
    var q, r := val / p, val % p;
    DivMod(q, t);
    var a, g := q / t, q % t;
    assert (a * t + g) * p == a * (t * p) + g * p;
    BoundStep(g, t, p, r);
    ModUnique(g * p + r, a, t * p, val);
  }

  /** The pending bits moved up to a full group. */
  function Padded(val: nat, bits: nat, to: nat): nat
    requires bits <= to
  {
    DivMod(val * Pow2(to - bits), Pow2(to));
    (val * Pow2(to - bits)) % Pow2(to)
  }

  lemma PadStep(val: nat, bits: nat, to: nat)
    requires bits <= to
    ensures Padded(val, bits, to) == Pending(val, bits) * Pow2(to - bits) < Pow2(to)
  {
    hide Pow2;
    Pow2Add(bits, to - bits);
    PadParts(val, Pow2(bits), Pow2(to - bits));
  }

  lemma PadParts(val: nat, p: nat, s: nat)
    requires p > 0 && s > 0
    ensures p * s > 0 && (val * s) % (p * s) == (val % p) * s < p * s
  {
    MulMono(1, p, s);
    DivMod(val, p);
    var q, r := val / p, val % p;
    assert (q * p + r) * s == q * (p * s) + r * s;
    ProductLess(r, p, s);
    ModUnique(r * s, q, p * s, val * s);
  }

  lemma ProductLess(r: nat, p: nat, s: nat)
    requires r < p && s > 0
    ensures 0 <= r * s < p * s
  {
    MulMono(r + 1, p, s);
  }

  /** What both loops keep: the groups written and the pending bits are the groups read. */
  ghost predicate Kept(input: seq<nat>, from: nat, out: seq<nat>, to: nat, val: nat, bits: nat) {
    && Ok(out, Pow2(to)) && |out| * to + bits == |input| * from
    && (Ok(input, Pow2(from)) ==> Num(input, Pow2(from)) == Num(out, Pow2(to)) * Pow2(bits) + Pending(val, bits))
  }

  lemma KeptRead(input: seq<nat>, d: nat, from: nat, out: seq<nat>, to: nat, val: Word, bits: nat)
    requires Kept(input, from, out, to, val, bits) && d < BASE && bits + from <= 32
    ensures Kept(input + [d], from, out, to, Accumulate(val, d, from), bits + from)
  {
    hide Pow2, Num, Pending, Accumulate;
    assert (|input| + 1) * from == |input| * from + from;
    if Ok(input + [d], Pow2(from)) {
      assert (input + [d])[|input|] == d && (input + [d])[..|input|] == input;
      NumAppend(input, d, Pow2(from));
      ReadStep(val, d, bits, from);
      Pow2Add(bits, from);
      Regroup(Num(out, Pow2(to)), Pow2(bits), Pending(val, bits), Pow2(from));
    }
  }

  lemma Regroup(o: int, p: int, r: int, f: int)
    ensures (o * p + r) * f == o * (p * f) + r * f
  {
  }

  lemma KeptWrite(input: seq<nat>, from: nat, out: seq<nat>, to: nat, val: nat, bits: nat)
    requires Kept(input, from, out, to, val, bits + to)
    ensures Kept(input, from, out + [Group(val, bits, to)], to, val, bits)
  {
    hide Pow2, Num, Pending, Group;
    var g := Group(val, bits, to);
    NumAppend(out, g, Pow2(to));
    WriteStep(val, bits, to);
    Pow2Add(to, bits);
    Regroup(Num(out, Pow2(to)), Pow2(to), g, Pow2(bits));
    assert (|out| + 1) * to == |out| * to + to;
  }

  /** The bits that groups of k bits hold. */
  function BitLength(s: seq<nat>, k: nat): int {
    |s| * k
  }

  /** A value followed by k zero bits. */
  function Raised(v: nat, k: nat): int {
    v * Pow2(k)
  }

  /** With padding the last group is filled up with zero bits; without, nothing but zero bits may be left over. */
  method Convert(from: nat, to: nat, pad: bool, input: seq<nat>)
    returns (ok: bool, out: seq<nat>, ghost slack: nat, ghost rest: nat)
    requires 1 <= from <= 8 && 1 <= to <= 8 && Ok(input, 256)
    ensures Ok(out, Pow2(to)) && slack < to
    ensures pad ==> ok && BitLength(out, to) == BitLength(input, from) + slack
    ensures pad && Ok(input, Pow2(from)) ==> Num(out, Pow2(to)) == Raised(Num(input, Pow2(from)), slack)
    ensures !pad ==> BitLength(out, to) + slack == BitLength(input, from)
    ensures !pad ==> rest == Pending(AccumulateAll(input, from), slack) < Pow2(slack)
    ensures !pad ==> (ok <==> slack < from && rest == 0)
    ensures !pad && Ok(input, Pow2(from)) ==> Num(input, Pow2(from)) == Raised(Num(out, Pow2(to)), slack) + rest
  {
    hide Pow2, Num, Kept, Group, Padded, Pending, Accumulate;
    var val: Word, bits: nat := 0, 0;
    out := [];
    KeptStart(from, to);
    for i := 0 to |input|
      invariant bits < to && Kept(input[..i], from, out, to, val, bits)
      invariant val == AccumulateAll(input[..i], from)
    {
      AccumulateNext(input, i, from);
      KeptRead(input[..i], input[i], from, out, to, val, bits);
      assert input[..i + 1] == input[..i] + [input[i]];
      val := Accumulate(val, input[i], from);
      bits := bits + from;
      while bits >= to
        invariant Kept(input[..i + 1], from, out, to, val, bits)
      {
        bits := bits - to;
        KeptWrite(input[..i + 1], from, out, to, val, bits);
        out := out + [Group(val, bits, to)];
      }
    }
    assert input[..|input|] == input;
    KeptEnd(input, from, out, to, val, bits);
    ok, slack, rest := true, bits, Pending(val, bits);
    var last := Padded(val, bits, to);
    if pad {
      slack := if bits == 0 then 0 else to - bits;
      if bits != 0 {
        out := out + [last];
      }
    } else if bits >= from || last != 0 {
      ok := false;
    }
  }

  lemma KeptStart(from: nat, to: nat)
    ensures Kept([], from, [], to, 0, 0)
  {
  }

  lemma KeptEnd(input: seq<nat>, from: nat, out: seq<nat>, to: nat, val: nat, bits: nat)
    requires Kept(input, from, out, to, val, bits) && bits < to
    ensures Ok(out, Pow2(to)) && Pending(val, bits) < Pow2(bits)
    ensures |out| * to + bits == |input| * from
    ensures Ok(input, Pow2(from)) ==> Num(input, Pow2(from)) == Num(out, Pow2(to)) * Pow2(bits) + Pending(val, bits)
    ensures Padded(val, bits, to) == 0 <==> Pending(val, bits) == 0
    ensures bits == 0 && Ok(input, Pow2(from)) ==> Num(out, Pow2(to)) == Num(input, Pow2(from)) * Pow2(0)
    ensures bits > 0 ==>
      var out' := out + [Padded(val, bits, to)];
      && Ok(out', Pow2(to)) && |out'| * to == |input| * from + (to - bits)
      && (Ok(input, Pow2(from)) ==> Num(out', Pow2(to)) == Num(input, Pow2(from)) * Pow2(to - bits))
  {
    hide Pow2, Num, Padded;
    PadStep(val, bits, to);
    DivMod(val, Pow2(bits));
    var o, p, s, r := Num(out, Pow2(to)), Pow2(bits), Pow2(to - bits), Pending(val, bits);
    MulMono(1, r, s);
    NumAppend(out, Padded(val, bits, to), Pow2(to));
    Pow2Add(bits, to - bits);
    Regroup(o, p, r, s);
    assert (|out| + 1) * to == |out| * to + to;
    PowZeroOne(val);
  }

  lemma PowZeroOne(val: nat)
    ensures Pow2(0) == 1 && Pending(val, 0) == 0
  {
  }

  // -------------------------------------------------------------- round trips

  /** A length and a remainder are determined by the number of bits. */
  lemma SameLength(a: nat, b: nat, s: nat, t: nat, m: nat)
    requires m > 0 && s < m && t < m && a * m + s == b * m + t
    ensures a == b && s == t
  {
    ModUnique(s, a, m, a * m + s);
    ModUnique(t, b, m, a * m + s);
  }

  lemma SameBits(x: seq<nat>, y: seq<nat>, s: nat, t: nat, k: nat)
    requires k > 0 && s < k && t < k && BitLength(x, k) + s == BitLength(y, k) + t
    ensures |x| == |y| && s == t
  {
    SameLength(|x|, |y|, s, t, k);
  }

  lemma SameRaised(x: nat, z: nat, rest: nat, k: nat)
    requires rest < Pow2(k) && Raised(x, k) == Raised(z, k) + rest
    ensures x == z && rest == 0
  {
    SameLength(x, z, 0, rest, Pow2(k));
  }

  /** Wide groups to narrow ones, padded, and back: the same groups, and nothing is left over. */
  lemma PaddedRoundTrip(x: seq<nat>, y: seq<nat>, z: seq<nat>, from: nat, to: nat, slack: nat, slack': nat, rest: nat)
    requires 0 < to <= from && Ok(x, Pow2(from)) && Ok(z, Pow2(from)) && slack < to && slack' < from
      && rest < Pow2(slack')
    requires BitLength(y, to) == BitLength(x, from) + slack && Num(y, Pow2(to)) == Raised(Num(x, Pow2(from)), slack)
    requires BitLength(z, from) + slack' == BitLength(y, to)
    requires Num(y, Pow2(to)) == Raised(Num(z, Pow2(from)), slack') + rest
    ensures z == x && slack' < to && rest == 0
  {
    hide Num, Pow2, Ok, BitLength, Raised;
    SameBits(x, z, slack, slack', from);
    SameRaised(Num(x, Pow2(from)), Num(z, Pow2(from)), rest, slack);
    BaseAbove(from);
    NumInjective(x, z, Pow2(from));
  }

  lemma BaseAbove(k: nat)
    requires k > 0
    ensures Pow2(k) > 1
  {
  }

  /** Encoding pads, decoding accepts, and the groups come back: for addresses, bytes and groups of five bits. */
  method ThereAndBack(from: nat, to: nat, x: seq<nat>) returns (y: seq<nat>, z: seq<nat>, ok: bool)
    requires 1 <= to <= from <= 8 && Ok(x, Pow2(from))
    ensures Ok(y, Pow2(to)) && ok && z == x
  {
    hide Num, Pow2, BitLength, Raised;
    ghost var slack, slack', rest;
    Bytes(from, x);
    ok, y, slack, rest := Convert(from, to, true, x);
    Bytes(to, y);
    ok, z, slack', rest := Convert(to, from, false, y);
    PaddedRoundTrip(x, y, z, from, to, slack, slack', rest);
  }

  /** What is accepted without padding is canonical: padding the result again gives the input back. */
  method BackAndThere(from: nat, to: nat, y: seq<nat>) returns (ok: bool, z: seq<nat>, w: seq<nat>)
    requires 1 <= to <= from <= 8 && Ok(y, Pow2(to))
    ensures ok ==> Ok(z, Pow2(from)) && w == y
  {
    hide Num, Pow2, BitLength, Raised;
    ghost var slack, slack', rest;
    w := [];
    Bytes(to, y);
    ok, z, slack, rest := Convert(to, from, false, y);
    if ok {
      Bytes(from, z);
      var padded;
      padded, w, slack', rest := Convert(from, to, true, z);
      SameBits(w, y, slack, slack', to);
      BaseAbove(to);
      NumInjective(w, y, Pow2(to));
    }
  }

  lemma Bytes(k: nat, x: seq<nat>)
    requires k <= 8 && Ok(x, Pow2(k))
    ensures Ok(x, 256)
  {
    Pow2Add(k, 8 - k);
    assert Pow2(8) == 256;
    MulMono(1, Pow2(8 - k), Pow2(k));
  }
}
