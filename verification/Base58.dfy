/**
  EncodeBase58 and DecodeBase58 (src/base58.cpp): what they compute in terms of numerals, the
  round trips, and the in-place digit loops of the source proved to compute it.
 */
module Base58 {
  import opened Common
  import opened Limbs
  import opened Numerals
  import opened Base58Bounds

  // ---------------------------------------------------------------- alphabet

  /** The 58 characters in order: digits and letters without 0, I, O and l. */
  function CharOf(d: nat): (c: char)
    requires d < 58
    ensures !IsSpace(c) && c != '\0' && (c == '1' <==> d == 0)
  {
    if d < 9 then ('1' as int + d) as char
    else if d < 17 then ('A' as int + d - 9) as char
    else if d < 22 then ('J' as int + d - 17) as char
    else if d < 33 then ('P' as int + d - 22) as char
    else if d < 44 then ('a' as int + d - 33) as char
    else ('m' as int + d - 44) as char
  }

  /** The position of a character in the alphabet, or -1. */
  function DigitOf(c: char): (d: int)
    ensures -1 <= d < 58
  {
    if '1' <= c <= '9' then c as int - '1' as int
    else if 'A' <= c <= 'H' then c as int - 'A' as int + 9
    else if 'J' <= c <= 'N' then c as int - 'J' as int + 17
    else if 'P' <= c <= 'Z' then c as int - 'P' as int + 22
    else if 'a' <= c <= 'k' then c as int - 'a' as int + 33
    else if 'm' <= c <= 'z' then c as int - 'm' as int + 44
    else -1
  }

  lemma AlphabetInverse(d: nat, c: char)
    ensures d < 58 ==> DigitOf(CharOf(d)) == d
    ensures DigitOf(c) >= 0 ==> CharOf(DigitOf(c)) == c
  {
  }

  predicate IsSpace(c: char) {
    c == ' ' || '\t' <= c <= '\r'
  }

  // ------------------------------------------------------------ specification

  type Bytes = b: seq<nat> | Ok(b, 256) witness []

  function Leading<T(==)>(s: seq<T>, x: T): (n: nat)
    ensures n <= |s| && (forall i :: 0 <= i < n ==> s[i] == x) && (n < |s| ==> s[n] != x)
  {
    if s == [] || s[0] != x then 0 else 1 + Leading(s[1..], x)
  }

  function Text(d: seq<nat>): (t: string)
    requires Ok(d, 58)
    ensures |t| == |d| && forall i :: 0 <= i < |d| ==> t[i] == CharOf(d[i])
  {
    seq(|d|, i requires 0 <= i < |d| => CharOf(d[i]))
  }

  function Repeat<T>(x: T, n: nat): (s: seq<T>)
    ensures |s| == n && forall i :: 0 <= i < n ==> s[i] == x
  {
    seq(n, _ => x)
  }

  function Encode(b: Bytes): string {
    var z := Leading(b, 0);
    Repeat('1', z) + Text(Digits(Num(b[z..], 256), 58))
  }

  /** Up to the first terminator. */
  function CString(s: string): (r: string)
    ensures r <= s && '\0' !in r && (r != s ==> s[|r|] == '\0')
  {
    if s == [] || s[0] == '\0' then [] else [s[0]] + CString(s[1..])
  }

  function SkipSpaces(s: string): (r: string) {
    if s != [] && IsSpace(s[0]) then SkipSpaces(s[1..]) else s
  }

  /** The first word: up to the first space. */
  function Word1(s: string): (r: string)
    ensures r <= s && (forall i :: 0 <= i < |r| ==> !IsSpace(r[i])) && (|r| < |s| ==> IsSpace(s[|r|]))
  {
    if s == [] || IsSpace(s[0]) then [] else [s[0]] + Word1(s[1..])
  }

  predicate AllDigits(w: string) {
    forall i :: 0 <= i < |w| ==> DigitOf(w[i]) >= 0
  }

  function Values(w: string): (d: seq<nat>)
    requires AllDigits(w)
    ensures |d| == |w| && Ok(d, 58) && forall i :: 0 <= i < |w| ==> d[i] == DigitOf(w[i])
  {
    seq(|w|, i requires 0 <= i < |w| => DigitOf(w[i]))
  }

  function Decode(s: string): Option<Bytes> {
    var t := SkipSpaces(CString(s));
    var z := Leading(t, '1');
    var w := Word1(t[z..]);
    if !AllDigits(w) || SkipSpaces(t[z + |w|..]) != [] then None
    else Some(DecodeBytes(z, w))
  }

  function DecodeBytes(z: nat, w: string): Bytes
    requires AllDigits(w)
  {
    Repeat(0, z) + Digits(Num(Values(w), 58), 256)
  }

  // -------------------------------------------------------------- round trips

  lemma {:induction false} LeadingIs<T>(x: T, n: nat, rest: seq<T>)
    requires rest != [] ==> rest[0] != x
    ensures Leading(Repeat(x, n) + rest, x) == n
  {
    if n > 0 {
      LeadingIs(x, n - 1, rest);
      assert (Repeat(x, n) + rest)[1..] == Repeat(x, n - 1) + rest;
    }
  }

  lemma SplitLeading<T>(s: seq<T>, x: T)
    ensures s == Repeat(x, Leading(s, x)) + s[Leading(s, x)..]
  {
    hide Leading, Repeat;
  }

  lemma {:induction false} NoTerminator(s: string)
    requires forall i :: 0 <= i < |s| ==> s[i] != '\0'
    ensures CString(s) == s
  {
  }

  lemma NoSpaces(s: string)
    requires forall i :: 0 <= i < |s| ==> !IsSpace(s[i])
    ensures SkipSpaces(s) == s && Word1(s) == s
  {
  }

  lemma TextIsDigits(d: seq<nat>)
    requires Ok(d, 58)
    ensures AllDigits(Text(d)) && Values(Text(d)) == d
    ensures CString(Text(d)) == Text(d) && SkipSpaces(Text(d)) == Text(d) && Word1(Text(d)) == Text(d)
  {
    hide CharOf, DigitOf, IsSpace, CString, SkipSpaces, Word1;
    var t := Text(d);
    NoTerminator(t);
    NoSpaces(t);
    forall i | 0 <= i < |d| ensures DigitOf(t[i]) == d[i] { AlphabetInverse(d[i], 'x'); }
  }

  /** The text half of the round trip: ones and then digits are read as such. */
  lemma DecodeText(z: nat, d: seq<nat>)
    requires Ok(d, 58) && (d != [] ==> d[0] != 0)
    ensures AllDigits(Text(d)) && Decode(Repeat('1', z) + Text(d)) == Some(DecodeBytes(z, Text(d)))
    ensures DecodeBytes(z, Text(d)) == Repeat(0, z) + Digits(Num(d, 58), 256)
  {
    hide Digits, Num, CharOf, DigitOf, IsSpace, CString, SkipSpaces, Word1, Leading, AllDigits, Values;
    var e := Repeat('1', z) + Text(d);
    TextIsDigits(d);
    OneIsNoSpace();
    NoTerminator(e);
    NoSpaces(e);
    LeadingIs('1', z, Text(d));
    assert e[z..] == Text(d);
    NoSpaces(e[z + |d|..]);
  }

  lemma OneIsNoSpace()
    ensures !IsSpace('1')
  {
  }

  /** Decoding what was encoded gives the bytes back, leading zeros included. */
  lemma DecodeEncode(b: Bytes)
    ensures Decode(Encode(b)) == Some(b)
  {
    hide Digits, Num, Decode, Leading, Text, Repeat;
    var z := Leading(b, 0);
    var v := Num(b[z..], 256);
    DigitsNum(v, 58);
    DecodeText(z, Digits(v, 58));
    DigitsUnique(b[z..], 256);
    SplitLeading(b, 0);
  }

  /** What is left of a text without the spaces around its first word. */
  /** An encoding worked out: a zero byte and three more, the most significant first. */
  lemma FourBytesEncoded()
    ensures Encode([0, 0x62, 0x62, 0x63]) == "1a3gW"
  {
    hide Digits, CharOf, Num, Ok;
    var b: seq<nat>, d := [0, 0x62, 0x62, 0x63], [33, 2, 39, 29];
    OneZero(b);
    assert b[1..] == [0x62, 0x62, 0x63];
    Three(0x62, 0x62, 0x63, 256);
    SixMillion(d);
    assert Repeat('1', 1) == "1";
    Letters();
    assert Text(d) == "a3gW";
    assert "1" + "a3gW" == "1a3gW";
  }

  lemma OneZero(b: seq<nat>)
    requires |b| > 1 && b[0] == 0 && b[1] != 0
    ensures Leading(b, 0) == 1
  {
    assert b[1..][0] == b[1];
  }

  lemma SixMillion(d: seq<nat>)
    requires d == [33, 2, 39, 29]
    ensures Ok(d, 58) && Digits(6447715, 58) == d
  {
    hide Digits, Num;
    Three(33, 2, 39, 58);
    NumAppend([33, 2, 39], 29, 58);
    assert [33, 2, 39] + [29] == d;
    DigitsUnique(d, 58);
  }

  lemma Letters()
    ensures CharOf(33) == 'a' && CharOf(2) == '3' && CharOf(39) == 'g' && CharOf(29) == 'W'
  {
  }

  lemma Three(x: nat, y: nat, z: nat, base: nat)
    ensures Num([x, y, z], base) == (x * base + y) * base + z
  {
    NumAppend([], x, base);
    NumAppend([x], y, base);
    NumAppend([x, y], z, base);
    assert [x] + [y] == [x, y] && [x, y] + [z] == [x, y, z] && [] + [x] == [x];
  }

  function Trimmed(s: string): string {
    Word1(SkipSpaces(CString(s)))
  }

  /** Encoding what was decoded gives the text back, without the spaces around it. */
  lemma EncodeDecode(s: string)
    requires Decode(s).Some?
    ensures Encode(Decode(s).value) == Trimmed(s)
  {
    hide Digits, Num, CString, SkipSpaces, Word1;
    var t := SkipSpaces(CString(s));
    var z := Leading(t, '1');
    var w := Word1(t[z..]);
    var d := Values(w);
    if w != [] { OneIsZero(w[0]); }
    DigitsUnique(d, 58);
    var v := Num(d, 58);
    DigitsNum(v, 256);
    LeadingIs(0, z, Digits(v, 256));
    var b := DecodeBytes(z, w);
    assert b[z..] == Digits(v, 256);
    forall i | 0 <= i < |w| ensures CharOf(d[i]) == w[i] { AlphabetInverse(0, w[i]); }
    assert Text(d) == w;
    OnesAreWord(t, z);
  }

  lemma {:induction false} OnesAreWord(t: string, z: nat)
    requires z <= |t| && forall i :: 0 <= i < z ==> t[i] == '1'
    ensures Word1(t) == Repeat('1', z) + Word1(t[z..])
  {
    hide Repeat, Word1, IsSpace;
    if z == 0 {
      assert t[0..] == t;
      assert Repeat('1', 0) == [];
    } else {
      OnesAreWord(t[1..], z - 1);
      assert t[1..][z - 1..] == t[z..];
      WordOfOne(t);
      assert Repeat('1', z) == ['1'] + Repeat('1', z - 1);
    }
  }

  lemma WordOfOne(t: string)
    requires t != [] && t[0] == '1'
    ensures Word1(t) == ['1'] + Word1(t[1..])
  {
  }

  lemma OneIsZero(c: char)
    ensures DigitOf(c) == 0 <==> c == '1'
  {
  }

  // -------------------------------------------------------------- the digit loop

  /** "b = b * mul + add" in place, from the last digit on; returns the digits in use. */
  method MulAdd(b: array<nat>, base: nat, mul: nat, add: nat, length: nat) returns (i: nat)
    requires base > 1 && Ok(b[..], base) && length <= b.Length
    requires forall k :: 0 <= k < b.Length - length ==> b[k] == 0
    requires mul * Num(b[..], base) + add < Pow(base, b.Length)
    modifies b
    ensures Ok(b[..], base) && Num(b[..], base) == mul * old(Num(b[..], base)) + add
    ensures i <= b.Length && forall k :: 0 <= k < b.Length - i ==> b[k] == 0
  {
    hide Num, Pow, Carried, Rem, Quot;
    ghost var before := b[..];
    var carry: nat := add;
    i := 0;
    NothingCarried(add, mul, base);
    assert b[b.Length..] == [] == before[b.Length..];
    while (carry != 0 || i < length) && i < b.Length
      invariant 0 <= i <= b.Length && Ok(b[..], base)
      invariant forall k :: 0 <= k < b.Length - i ==> b[k] == before[k]
      invariant Carried(b[b.Length - i..], before[b.Length - i..], carry, mul, add, base)
    {
      var pos := b.Length - 1 - i;
      ghost var done := b[pos + 1..];
      var x := b[pos];
      CarriedStep(done, before[pos + 1..], carry, mul, add, base, x);
      carry := carry + mul * x;
      b[pos] := Rem(carry, base);
      assert b[pos..] == [Rem(carry, base)] + done && before[pos..] == [x] + before[pos + 1..];
      carry := Quot(carry, base);
      i := i + 1;
    }
    CarriedEnd(b[..], before, carry, mul, add, base, b.Length - i);
    assert carry == 0;
  }

  /** What the carry loop keeps: the digits done and the carry make the product of the digits read. */
  ghost predicate Carried(done: seq<nat>, from: seq<nat>, carry: nat, mul: nat, add: nat, base: nat) {
    |done| == |from| && Num(done, base) + carry * Pow(base, |done|) == mul * Num(from, base) + add
  }

  function Rem(n: nat, base: nat): (r: nat)
    requires base > 1
    ensures r < base
  {
    QuotientOk(n, base);
    n % base
  }

  function Quot(n: nat, base: nat): nat
    requires base > 1
  {
    QuotientOk(n, base);
    n / base
  }

  lemma NothingCarried(add: nat, mul: nat, base: nat)
    ensures Carried([], [], add, mul, add, base)
  {
  }

  lemma CarriedStep(done: seq<nat>, from: seq<nat>, carry: nat, mul: nat, add: nat, base: nat, x: nat)
    requires base > 1 && Carried(done, from, carry, mul, add, base)
    ensures carry + mul * x >= 0
    ensures Carried([Rem(carry + mul * x, base)] + done, [x] + from, Quot(carry + mul * x, base), mul, add, base)
  {
    hide Num, Pow;
    MulMono(0, mul, x);
    var n: nat := carry + mul * x;
    QuotientOk(n, base);
    NumCons(n % base, done, base);
    NumCons(x, from, base);
    Next(base, |done|);
    DigitStep(Num(done, base), carry, Pow(base, |done|), mul, x, Num(from, base), add, base);
  }

  lemma CarriedEnd(b: seq<nat>, before: seq<nat>, carry: nat, mul: nat, add: nat, base: nat, rest: nat)
    requires rest <= |b| == |before| && Carried(b[rest..], before[rest..], carry, mul, add, base)
    requires forall k :: 0 <= k < rest ==> b[k] == before[k] == 0
    requires rest > 0 ==> carry == 0
    requires base > 1 && mul * Num(before, base) + add < Pow(base, |b|)
    ensures carry == 0 && Num(b, base) == mul * Num(before, base) + add
  {
    hide Num, Pow;
    LeadingZeros(b, rest, base);
    LeadingZeros(before, rest, base);
    if rest == 0 { NoCarry(carry, Pow(base, |b|)); }
  }

  lemma QuotientOk(x: nat, base: nat)
    requires base > 1
    ensures 0 <= x / base && 0 <= x % base < base && x == (x / base) * base + x % base
  {
    if x > 0 { QuotientLess(x, base); }
  }

  lemma DigitStep(v: int, c: int, p: int, mul: int, x: int, w: int, add: int, base: int)
    requires base > 1 && v + c * p == mul * w + add
    ensures ((c + mul * x) % base) * p + v + ((c + mul * x) / base) * (base * p) == mul * (x * p + w) + add
  {
    var n := c + mul * x;
    assert n == (n / base) * base + n % base;
    assert n * p == (n % base) * p + (n / base) * (base * p) by { Regroup(n / base, base, n % base, p); }
    assert n * p == c * p + mul * (x * p) by { Regroup(mul, x, c, p); }
    assert mul * (x * p + w) == mul * (x * p) + mul * w;
  }

  lemma Regroup(q: int, b: int, r: int, p: int)
    ensures (q * b + r) * p == r * p + q * (b * p)
  {
  }

  lemma NoCarry(carry: nat, p: nat)
    requires p > 0
    ensures carry * p < p ==> carry == 0
  {
    MulMono(1, carry, p);
  }

  /** Appending one digit stays within the buffer. */
  lemma Room(d: seq<nat>, x: nat, from: nat, total: nat, to: nat, size: nat)
    requires from > 1 && Ok(d, from) && x < from && |d| < total && Pow(from, total) <= Pow(to, size)
    ensures from * Num(d, from) + x == Num(d + [x], from) < Pow(to, size)
  {
    hide Num, Pow;
    NumAppend(d, x, from);
    NumBound(d + [x], from);
    PowMono(from, |d| + 1, total);
  }

  /** The digits in use, without leading zeros. */
  method StripZeros(b: array<nat>, base: nat, length: nat) returns (d: seq<nat>)
    requires base > 1 && Ok(b[..], base) && length <= b.Length
    requires forall k :: 0 <= k < b.Length - length ==> b[k] == 0
    ensures d == Digits(Num(b[..], base), base)
  {
    hide Num, Digits;
    var it := b.Length - length;
    while it != b.Length && b[it] == 0
      invariant 0 <= it <= b.Length && forall k :: 0 <= k < it ==> b[k] == 0
    {
      it := it + 1;
    }
    d := b[it..];
    LeadingZeros(b[..], it, base);
    DigitsUnique(d, base);
  }

  method EncodeBase58(bytes: Bytes) returns (str: string)
    ensures str == Encode(bytes)
  {
    hide Num, Digits, Pow, Leading, CharOf, Repeat, Text;
    var zeroes := 0;
    while zeroes != |bytes| && bytes[zeroes] == 0
      invariant 0 <= zeroes <= |bytes| && forall k :: 0 <= k < zeroes ==> bytes[k] == 0
    {
      zeroes := zeroes + 1;
    }
    LeadingOf(bytes, 0, zeroes);
    var digits := ToBase58(bytes[zeroes..]);
    str := Repeat('1', zeroes);
    for i := 0 to |digits|
      invariant str == Repeat('1', zeroes) + Text(digits)[..i]
    {
      assert Text(digits)[..i + 1] == Text(digits)[..i] + [CharOf(digits[i])];
      str := str + [CharOf(digits[i])];
    }
    assert Text(digits)[..|digits|] == Text(digits);
  }

  /** The conversion loop of EncodeBase58. */
  method ToBase58(rest: Bytes) returns (digits: seq<nat>)
    ensures digits == Digits(Num(rest, 256), 58)
  {
    hide Num, Digits, Pow;
    var n := |rest|;
    var size: nat := n * 138 / 100 + 1;
    EncodeFits(n);
    var b58 := new nat[size](_ => 0);
    ZeroValue(b58[..], 58);
    ZeroValue(rest[..0], 256);
    var length: nat, p := 0, 0;
    while p != n
      invariant 0 <= p <= n && length <= size && Ok(b58[..], 58)
      invariant Num(b58[..], 58) == Num(rest[..p], 256)
      invariant forall k :: 0 <= k < size - length ==> b58[k] == 0
    {
      assert rest[..p + 1] == rest[..p] + [rest[p]];
      Room(rest[..p], rest[p], 256, n, 58, size);
      length := MulAdd(b58, 58, 256, rest[p], length);
      p := p + 1;
    }
    assert rest[..n] == rest;
    digits := StripZeros(b58, 58, length);
  }

  lemma LeadingOf<T>(s: seq<T>, x: T, n: nat)
    requires n <= |s| && (forall k :: 0 <= k < n ==> s[k] == x) && (n < |s| ==> s[n] != x)
    ensures Leading(s, x) == n
  {
    LeadingIs(x, n, s[n..]);
    assert s == Repeat(x, n) + s[n..];
  }

  lemma {:induction false} ZeroValue(d: seq<nat>, base: nat)
    requires forall i :: 0 <= i < |d| ==> d[i] == 0
    ensures Num(d, base) == 0
  {
    LeadingZeros(d, |d|, base);
  }

  method DecodeBase58(s: string) returns (ok: bool, vch: seq<nat>)
    ensures ok == Decode(s).Some?
    ensures ok ==> vch == Decode(s).value
  {
    hide Num, Digits, Pow, SkipSpaces, Word1, CString, Leading, DigitOf, IsSpace, AllDigits, Values, CharOf;
    var psz := CString(s);
    var p := 0;
    p := Skip(psz, 0);
    ghost var t := psz[p..];
    ghost var start := p;
    var zeroes := 0;
    while p < |psz| && psz[p] == '1'
      invariant zeroes == p - start && start <= p <= |psz| && forall k :: start <= k < p ==> psz[k] == '1'
    {
      zeroes := zeroes + 1;
      p := p + 1;
    }
    LeadingOf(t, '1', zeroes);
    assert t[zeroes..] == psz[p..];
    ghost var w := Word1(psz[p..]);
    ok, vch, p := ReadWord(psz, p);
    if !ok {
      return false, [];
    }
    assert t[zeroes + |w|..] == psz[p..];
    p := Skip(psz, p);
    if p < |psz| {
      return false, [];
    }
    vch := Repeat(0, zeroes) + vch;
  }

  method Skip(s: string, p: nat) returns (q: nat)
    requires p <= |s|
    ensures p <= q <= |s| && s[q..] == SkipSpaces(s[p..])
  {
    hide SkipSpaces;
    q := p;
    while q < |s| && IsSpace(s[q])
      invariant p <= q <= |s| && SkipSpaces(s[q..]) == SkipSpaces(s[p..])
    {
      SkipUnfold(s, q);
      q := q + 1;
    }
    SkipUnfold(s, q);
  }

  lemma SkipUnfold(s: string, q: nat)
    requires q <= |s|
    ensures SkipSpaces(s[q..]) == if q < |s| && IsSpace(s[q]) then SkipSpaces(s[q + 1..]) else s[q..]
  {
    if q < |s| { assert s[q..][1..] == s[q + 1..]; }
  }

  /** The digit characters up to a space, as bytes. */
  method ReadWord(psz: string, p0: nat) returns (ok: bool, bytes: seq<nat>, p: nat)
    requires p0 <= |psz|
    ensures ok == AllDigits(Word1(psz[p0..]))
    ensures ok ==> bytes == Digits(Num(Values(Word1(psz[p0..])), 58), 256) && p == p0 + |Word1(psz[p0..])|
  {
    hide Num, Digits, Pow, Word1, DigitOf, IsSpace;
    ghost var w := Word1(psz[p0..]);
    var n := |psz| - p0;
    var size := n * 733 / 1000 + 1;
    DecodeFits(n);
    var b256 := new nat[size](_ => 0);
    ZeroValue(b256[..], 256);
    ZeroValue(Values(w[..0]), 58);
    var length: nat := 0;
    p := p0;
    while p < |psz| && !IsSpace(psz[p])
      invariant p0 <= p <= p0 + |w| && length <= size && Ok(b256[..], 256)
      invariant AllDigits(w[..p - p0]) && Num(b256[..], 256) == Num(Values(w[..p - p0]), 58)
      invariant forall k :: 0 <= k < size - length ==> b256[k] == 0
    {
      assert psz[p] == psz[p0..][p - p0];
      ghost var v := w[..p - p0];
      assert w[p - p0] == psz[p];
      var digit := DigitOf(psz[p]);
      if digit == -1 {
        return false, [], p;
      }
      assert w[..p + 1 - p0] == v + [psz[p]];
      assert Values(v + [psz[p]]) == Values(v) + [digit];
      Room(Values(v), digit, 58, n, 256, size);
      length := MulAdd(b256, 256, 58, digit, length);
      p := p + 1;
    }
    assert w[..|w|] == w;
    bytes := StripZeros(b256, 256, length);
    ok := true;
  }
}
