/**
  bech32::Encode and bech32::Decode (src/bech32.cpp) on strings of bytes, with the checksum of
  Bech32Code: round trip, and detection of one or two wrong symbols.
 */
module Bech32 {
  import opened Common
  import opened Bech32Code
  import opened Bech32Orbits
  import opened Bech32Tables
  import opened Bech32Distance

  /** Five-bit groups. */
  predicate Groups(v: seq<nat>) {
    forall i :: 0 <= i < |v| ==> v[i] < 32
  }

  datatype Decoded = Decoded(hrp: string, data: seq<nat>)

  // --------------------------------------------------------------- characters

  /** CHARSET */
  function CharFor(d: nat): char {
    if d == 0 then 'q' else if d == 1 then 'p' else if d == 2 then 'z' else if d == 3 then 'r'
    else if d == 4 then 'y' else if d == 5 then '9' else if d == 6 then 'x' else if d == 7 then '8'
    else if d == 8 then 'g' else if d == 9 then 'f' else if d == 10 then '2' else if d == 11 then 't'
    else if d == 12 then 'v' else if d == 13 then 'd' else if d == 14 then 'w' else if d == 15 then '0'
    else if d == 16 then 's' else if d == 17 then '3' else if d == 18 then 'j' else if d == 19 then 'n'
    else if d == 20 then '5' else if d == 21 then '4' else if d == 22 then 'k' else if d == 23 then 'h'
    else if d == 24 then 'c' else if d == 25 then 'e' else if d == 26 then '6' else if d == 27 then 'm'
    else if d == 28 then 'u' else if d == 29 then 'a' else if d == 30 then '7'
    else 'l'
  }

  /** CHARSET_REV for lower-case characters. */
  function RevLower(c: char): int {
    if c == 'q' then 0 else if c == 'p' then 1 else if c == 'z' then 2 else if c == 'r' then 3
    else if c == 'y' then 4 else if c == '9' then 5 else if c == 'x' then 6 else if c == '8' then 7
    else if c == 'g' then 8 else if c == 'f' then 9 else if c == '2' then 10 else if c == 't' then 11
    else if c == 'v' then 12 else if c == 'd' then 13 else if c == 'w' then 14 else if c == '0' then 15
    else if c == 's' then 16 else if c == '3' then 17 else if c == 'j' then 18 else if c == 'n' then 19
    else if c == '5' then 20 else if c == '4' then 21 else if c == 'k' then 22 else if c == 'h' then 23
    else if c == 'c' then 24 else if c == 'e' then 25 else if c == '6' then 26 else if c == 'm' then 27
    else if c == 'u' then 28 else if c == 'a' then 29 else if c == '7' then 30 else if c == 'l' then 31
    else -1
  }

  function LowerCase(c: char): char {
    if 'A' <= c <= 'Z' then ((c as int) - ('A' as int) + ('a' as int)) as char else c
  }

  /** CHARSET_REV: both rows of letters hold the same values; -1 if the character stands for nothing. */
  function Rev(c: char): int {
    RevLower(LowerCase(c))
  }

  predicate IsLower(c: char) { 'a' <= c <= 'z' }
  predicate IsUpper(c: char) { 'A' <= c <= 'Z' }
  predicate Printable(c: char) { 33 as char <= c <= 126 as char }

  lemma CharsetInverse(d: nat)
    requires d < 32
    ensures RevLower(CharFor(d)) == d
  {
  }

  lemma CharsetIs(d: nat)
    requires d < 32
    ensures CharFor(d) == "qpzry9x8gf2tvdw0s3jn54khce6mua7l"[d]
  {
  }

  lemma CharsetKind(d: nat)
    requires d < 32
    ensures CharFor(d) != '1' && Printable(CharFor(d)) && !IsUpper(CharFor(d))
  {
  }

  lemma RevRange(c: char)
    ensures -1 <= RevLower(c) < 32 && RevLower('1') == -1
  {
  }

  // ----------------------------------------------------------------- symbols

  function Sym(d: nat): bv32
    requires d < 32
  {
    d as bv32
  }

  function Group(x: bv32): nat {
    x as nat
  }

  function ToWord(v: seq<nat>): (w: Word)
    requires Groups(v)
    ensures |w| == |v| && forall i :: 0 <= i < |v| ==> w[i] == Sym(v[i])
  {
    seq(|v|, i requires 0 <= i < |v| => Sym(v[i]))
  }

  function FromWord(w: Word): (v: seq<nat>)
    ensures |v| == |w| && forall i :: 0 <= i < |w| ==> v[i] == Group(w[i])
  {
    seq(|w|, i requires 0 <= i < |w| => Group(w[i]))
  }

  lemma SymbolRange(d: nat)
    requires d < 32
    ensures Sym(d) < 32 && Group(Sym(d)) == d && (Sym(d) == 0 <==> d == 0)
  {
  }

  lemma GroupRange(x: bv32)
    requires x < 32
    ensures Group(x) < 32 && Sym(Group(x)) == x
  {
  }

  lemma ToWordSymbols(v: seq<nat>)
    requires Groups(v)
    ensures Symbols(ToWord(v)) && ChecksumConst(ToWord(v)) == if v != [] && v[0] != 0 then 0x2bc830a3 else 1
  {
    hide Sym;
    forall i | 0 <= i < |v| ensures ToWord(v)[i] < 32 { SymbolRange(v[i]); }
    if v != [] { SymbolRange(v[0]); }
  }

  // ------------------------------------------------------- human-readable part

  /** `c >> 5` for a byte. */
  function High(c: char): bv32 {
    Sym((c as int) % 256 / 32)
  }

  /** `c & 0x1f` */
  function Low(c: char): bv32 {
    Sym((c as int) % 32)
  }

  function HrpExpand(hrp: string): (w: Word)
    ensures |w| == 2 * |hrp| + 1
  {
    seq(|hrp|, i requires 0 <= i < |hrp| => High(hrp[i])) + [0] + seq(|hrp|, i requires 0 <= i < |hrp| => Low(hrp[i]))
  }

  lemma HrpSymbols(hrp: string)
    ensures Symbols(HrpExpand(hrp))
  {
    hide High, Low;
    forall i | 0 <= i < |hrp| ensures High(hrp[i]) < 32 && Low(hrp[i]) < 32 { ByteParts(hrp[i]); }
  }

  lemma ByteParts(c: char)
    ensures High(c) < 32 && Low(c) < 32
    ensures Group(High(c)) == (c as int) % 256 / 32 && Group(Low(c)) == (c as int) % 32
  {
    hide Sym, Group;
    SymbolRange((c as int) % 256 / 32);
    SymbolRange((c as int) % 32);
  }

  /** The high three bits of every character come first, then a zero, then the low five bits of every character. */
  lemma HrpExpandIs(hrp: string, i: nat)
    requires i < |hrp| && (hrp[i] as int) < 256
    ensures var w := HrpExpand(hrp);
      && Group(w[i]) == (hrp[i] as int) / 32 && w[|hrp|] == 0 && Group(w[|hrp| + 1 + i]) == (hrp[i] as int) % 32
  {
    hide High, Low, Group, HrpExpand, Sym;
    HrpPlaces(hrp, i);
    ByteParts(hrp[i]);
  }

  lemma HrpPlaces(hrp: string, i: nat)
    requires i < |hrp|
    ensures var w := HrpExpand(hrp);
      w[i] == High(hrp[i]) && w[|hrp|] == 0 && w[|hrp| + 1 + i] == Low(hrp[i])
  {
    hide High, Low, Sym;
  }

  /** Different bytes differ in one of their two parts. */
  lemma BytesDiffer(c: char, d: char)
    requires c != d && (c as int) < 256 && (d as int) < 256
    ensures High(c) != High(d) || Low(c) != Low(d)
  {
    hide High, Low, Group;
    ByteParts(c);
    ByteParts(d);
    PartsDiffer(c as int, d as int);
  }

  lemma PartsDiffer(x: nat, y: nat)
    requires x != y && x < 256 && y < 256
    ensures x % 256 / 32 != y % 256 / 32 || x % 32 != y % 32
  {
  }

  // ------------------------------------------------------------ specification

  predicate VerifyChecksum(hrp: string, values: seq<nat>)
    requires Groups(values)
  {
    PolyMod(HrpExpand(hrp) + ToWord(values)) == ChecksumConst(ToWord(values))
  }

  function Checksum(hrp: string, values: seq<nat>): (s: seq<nat>)
    requires Groups(values)
    ensures |s| == 6
  {
    FromWord(CreateChecksum(HrpExpand(hrp), ToWord(values)))
  }

  function Chars(v: seq<nat>): (s: string)
    ensures |s| == |v| && forall i :: 0 <= i < |v| ==> s[i] == CharFor(v[i])
  {
    seq(|v|, i requires 0 <= i < |v| => CharFor(v[i]))
  }

  function Encode(hrp: string, values: seq<nat>): string
    requires Groups(values)
  {
    hrp + "1" + Chars(values + Checksum(hrp, values))
  }

  /** The last position of a character, or -1. */
  function RFind(s: string, c: char): (r: int)
    ensures -1 <= r < |s| && (r >= 0 ==> s[r] == c) && forall i :: r < i < |s| ==> s[i] != c
  {
    if s == [] then -1 else if s[|s| - 1] == c then |s| - 1 else RFind(s[..|s| - 1], c)
  }

  predicate AcceptableChars(s: string) {
    && (forall i :: 0 <= i < |s| ==> Printable(s[i]))
    && !((exists i :: 0 <= i < |s| && IsLower(s[i])) && (exists i :: 0 <= i < |s| && IsUpper(s[i])))
  }

  function Lowered(s: string): (r: string)
    ensures |r| == |s| && forall i :: 0 <= i < |s| ==> r[i] == LowerCase(s[i])
  {
    seq(|s|, i requires 0 <= i < |s| => LowerCase(s[i]))
  }

  predicate AllRev(s: string) {
    forall i :: 0 <= i < |s| ==> Rev(s[i]) != -1
  }

  function RevAll(s: string): (v: seq<nat>)
    requires AllRev(s)
    ensures |v| == |s| && Groups(v) && forall i :: 0 <= i < |s| ==> v[i] == Rev(s[i])
  {
    assert forall i :: 0 <= i < |s| ==> 0 <= Rev(s[i]) < 32 by {
      forall i | 0 <= i < |s| ensures 0 <= Rev(s[i]) < 32 { RevRange(LowerCase(s[i])); }
    }
    seq(|s|, i requires 0 <= i < |s| => Rev(s[i]))
  }

  function Decode(s: string): Option<Decoded> {
    var pos := RFind(s, '1');
    if !AcceptableChars(s) || |s| > 90 || pos < 1 || pos + 7 > |s| || !AllRev(s[pos + 1..]) then None
    else
      var hrp, values := Lowered(s[..pos]), RevAll(s[pos + 1..]);
      if VerifyChecksum(hrp, values) then Some(Decoded(hrp, values[..|values| - 6])) else None
  }

  // ----------------------------------------------------------------- theorems

  /** What BIP 173 asks of a human-readable part that is to be read back: lower case, visible. */
  predicate ValidHrp(hrp: string) {
    hrp != [] && forall i :: 0 <= i < |hrp| ==> Printable(hrp[i]) && !IsUpper(hrp[i])
  }

  lemma ChecksumGroups(hrp: string, v: seq<nat>)
    requires Groups(v)
    ensures Groups(Checksum(hrp, v)) && ToWord(Checksum(hrp, v)) == CreateChecksum(HrpExpand(hrp), ToWord(v))
  {
    hide Unpack, PolyMod, Sym, Group;
    var w := CreateChecksum(HrpExpand(hrp), ToWord(v));
    UnpackSymbols(Xor(PolyMod(HrpExpand(hrp) + ToWord(v) + Zeros(6)), ChecksumConst(ToWord(v))));
    forall i | 0 <= i < 6 ensures FromWord(w)[i] < 32 && Sym(FromWord(w)[i]) == w[i] { GroupRange(w[i]); }
  }

  /** Decoding takes the first symbol for the version, be it of the data or, if there is none, of the checksum. */
  predicate VersionStands(hrp: string, v: seq<nat>)
    requires Groups(v)
  {
    v != [] || Checksum(hrp, v)[0] == 0
  }

  /** What Encode appends is what Decode looks for, if the version it sees is that of the data. */
  lemma EncodedVerifies(hrp: string, v: seq<nat>)
    requires Groups(v)
    ensures Groups(v + Checksum(hrp, v)) && (VerifyChecksum(hrp, v + Checksum(hrp, v)) <==> VersionStands(hrp, v))
  {
    hide PolyMod, CreateChecksum, ChecksumConst, Sym, HrpExpand, Checksum;
    ChecksumGroups(hrp, v);
    HrpSymbols(hrp);
    ToWordSymbols(v);
    var c := Checksum(hrp, v);
    assert ToWord(v + c) == ToWord(v) + ToWord(c);
    ChecksumVerifies(HrpExpand(hrp), ToWord(v));
    ToWordSymbols(v + c);
  }

  lemma EncodedShape(hrp: string, v: seq<nat>)
    requires Groups(v)
    ensures var e := Encode(hrp, v); var d := v + Checksum(hrp, v);
      && |e| == |hrp| + |v| + 7 && e[..|hrp|] == hrp && RFind(e, '1') == |hrp|
      && (forall i :: |hrp| < i < |e| ==> Printable(e[i]) && !IsUpper(e[i]))
      && AllRev(e[|hrp| + 1..]) && RevAll(e[|hrp| + 1..]) == d
  {
    hide CharFor, Rev, Printable, IsUpper, Checksum, RFind;
    var e, n := Encode(hrp, v), |hrp|;
    var d := v + Checksum(hrp, v);
    ChecksumGroups(hrp, v);
    assert e[n] == '1' && e[n + 1..] == Chars(d);
    CharsKind(d);
    forall i | n < i < |e| ensures e[i] != '1' && Printable(e[i]) && !IsUpper(e[i]) {
      assert e[i] == Chars(d)[i - n - 1];
    }
  }

  lemma CharsKind(d: seq<nat>)
    requires Groups(d)
    ensures AllRev(Chars(d)) && RevAll(Chars(d)) == d
    ensures forall i :: 0 <= i < |d| ==> Chars(d)[i] != '1' && Printable(Chars(d)[i]) && !IsUpper(Chars(d)[i])
  {
    hide CharFor, RevLower, Printable, IsUpper;
    forall i | 0 <= i < |d|
      ensures Rev(Chars(d)[i]) == d[i] && Chars(d)[i] != '1' && Printable(Chars(d)[i]) && !IsUpper(Chars(d)[i])
    {
      CharsetInverse(d[i]);
      CharsetKind(d[i]);
      NotUpper(CharFor(d[i]));
    }
  }

  lemma NotUpper(c: char)
    ensures !IsUpper(c) <==> LowerCase(c) == c
  {
  }

  /** The round trip holds exactly for valid human-readable parts within 90 characters, if the version stands. */
  lemma RoundTrip(hrp: string, v: seq<nat>)
    requires Groups(v)
    ensures Decode(Encode(hrp, v)) == Some(Decoded(hrp, v)) <==>
      ValidHrp(hrp) && |hrp| + |v| + 7 <= 90 && VersionStands(hrp, v)
    ensures ValidHrp(hrp) && !VersionStands(hrp, v) ==> Decode(Encode(hrp, v)).None?
  {
    hide VerifyChecksum, Encode, VersionStands, Rev, Printable, IsUpper, LowerCase;
    var e := Encode(hrp, v);
    var n := |hrp|;
    EncodedShape(hrp, v);
    EncodedVerifies(hrp, v);
    forall i | 0 <= i < n ensures !IsUpper(hrp[i]) <==> LowerCase(hrp[i]) == hrp[i] { NotUpper(hrp[i]); }
    if ValidHrp(hrp) {
      assert Lowered(e[..n]) == hrp;
      forall i | 0 <= i < |e| ensures Printable(e[i]) && !IsUpper(e[i]) {
        if i < n { assert e[i] == e[..n][i] == hrp[i]; } else if i == n { OneIsPrintable(); }
      }
      assert AcceptableChars(e);
    }
    if Decode(e) == Some(Decoded(hrp, v)) {
      forall i | 0 <= i < n ensures Printable(hrp[i]) && !IsUpper(hrp[i]) {
        assert e[i] == e[..n][i] == hrp[i];
        assert Lowered(e[..n])[i] == LowerCase(hrp[i]);
      }
    }
  }

  lemma OneIsPrintable()
    ensures Printable('1') && !IsUpper('1')
  {
  }

  /** The difference of two words that both verify, and what remainder it leaves. */
  lemma VerifiedDifference(hrp: string, u: seq<nat>, v: seq<nat>) returns (e: Word, n: nat)
    requires Groups(u) && Groups(v) && |u| == |v| > 0 && VerifyChecksum(hrp, u) && VerifyChecksum(hrp, v)
    ensures |e| == n + |u| && Symbols(e) && ZeroFrom(e, 0, n)
    ensures forall i :: 0 <= i < |u| ==> (e[n + i] == 0 <==> u[i] == v[i])
    ensures Fold(0, e) == if u[0] == 0 <==> v[0] == 0 then 0 else GAP
  {
    hide PolyMod, ChecksumConst, Sym, HrpExpand, Xor, Fold;
    ToWordSymbols(u);
    ToWordSymbols(v);
    HrpSymbols(hrp);
    var p := HrpExpand(hrp);
    var x, y := p + ToWord(u), p + ToWord(v);
    n, e := |p|, Sum(x, y);
    RemainderDifference(x, y);
    ConstDifference();
    forall i | 0 <= i < |e| ensures e[i] < 32 && (e[i] == 0 <==> x[i] == y[i]) { Difference(x[i], y[i]); }
    forall i | 0 <= i < |u| ensures e[n + i] == 0 <==> u[i] == v[i] {
      SymbolRange(u[i]);
      SymbolRange(v[i]);
    }
  }

  lemma ConstDifference()
    ensures Xor(1, 1) == 0 && Xor(0x2bc830a3, 0x2bc830a3) == 0
    ensures Xor(1, 0x2bc830a3) == GAP && Xor(0x2bc830a3, 1) == GAP && Xor(1, GAP) == 0x2bc830a3
  {
  }

  /** Two words for one human-readable part that differ in a single symbol never both verify. */
  lemma SingleSymbol(hrp: string, u: seq<nat>, v: seq<nat>, k: nat)
    requires Groups(u) && Groups(v) && k < |u| == |v| && u[k] != v[k]
    requires forall i :: 0 <= i < |u| && i != k ==> u[i] == v[i]
    requires |u| <= 89 || (u[0] == 0 <==> v[0] == 0)
    ensures !(VerifyChecksum(hrp, u) && VerifyChecksum(hrp, v))
  {
    hide VerifyChecksum, Fold;
    if VerifyChecksum(hrp, u) && VerifyChecksum(hrp, v) {
      var e, n := VerifiedDifference(hrp, u, v);
      forall i | 0 <= i < |e| && i != n + k ensures e[i] == 0 { if i >= n { assert u[i - n] == v[i - n]; } }
      if u[0] == 0 <==> v[0] == 0 {
        SingleNonzero(e, n + k);
      } else if |u| == 1 {
        FoldFirst(e, n);
        FoldUnfold(e[n], e[n + 1..]);
      } else {
        TwoNotGap(e, n, |e| - 1);
      }
    }
  }

  /** Nor do two words that differ in two symbols, within the length of a string. */
  lemma TwoSymbols(hrp: string, u: seq<nat>, v: seq<nat>, j: nat, k: nat)
    requires Groups(u) && Groups(v) && j < k < |u| == |v| <= 89 && u[j] != v[j]
    requires forall i :: 0 <= i < |u| && i != j && i != k ==> u[i] == v[i]
    ensures !(VerifyChecksum(hrp, u) && VerifyChecksum(hrp, v))
  {
    hide VerifyChecksum, Fold;
    if VerifyChecksum(hrp, u) && VerifyChecksum(hrp, v) {
      var e, n := VerifiedDifference(hrp, u, v);
      forall i | 0 <= i < |e| && i != n + j && i != n + k ensures e[i] == 0 {
        if i >= n { assert u[i - n] == v[i - n]; }
      }
      if u[0] == 0 <==> v[0] == 0 {
        TwoNonzero(e, n + j, n + k);
      } else {
        TwoNotGap(e, n + j, n + k);
      }
    }
  }

  /** Nor do two that differ in three, if their first symbols are both zero or both not. */
  lemma ThreeSymbols(hrp: string, u: seq<nat>, v: seq<nat>, i: nat, j: nat, k: nat)
    requires Groups(u) && Groups(v) && i < j < k < |u| == |v| <= 89 && u[i] != v[i]
    requires forall n :: 0 <= n < |u| && n != i && n != j && n != k ==> u[n] == v[n]
    requires u[0] == 0 <==> v[0] == 0
    ensures !(VerifyChecksum(hrp, u) && VerifyChecksum(hrp, v))
  {
    hide VerifyChecksum, Fold;
    if VerifyChecksum(hrp, u) && VerifyChecksum(hrp, v) {
      var e, n := VerifiedDifference(hrp, u, v);
      forall m | 0 <= m < |e| && m != n + i && m != n + j && m != n + k ensures e[m] == 0 {
        if m >= n { assert u[m - n] == v[m - n]; }
      }
      ThreeNonzero(e, n + i, n + j, n + k);
    }
  }

  /** A data symbol with another one added to it. */
  function Plus(d: nat, x: nat): nat
    requires d < 32 && x < 32
  {
    Group(Xor(Sym(d), Sym(x)))
  }

  lemma PlusIs(d: nat, x: nat)
    requires d < 32 && x < 32
    ensures Plus(d, x) < 32 && Xor(Sym(d), Sym(Plus(d, x))) == Sym(x)
  {
    hide Sym, Group, Xor;
    SymbolRange(d);
    SymbolRange(x);
    Difference(Sym(d), Sym(x));
    GroupRange(Xor(Sym(d), Sym(x)));
    Cancel(Sym(d), Sym(x));
  }

  /** Three symbols of a word of 80, the first one zero. */
  function ThreeChanged(u: seq<nat>): seq<nat>
    requires Groups(u) && |u| == 80
  {
    u[0 := Plus(u[0], 20)][10 := Plus(u[10], 19)][21 := Plus(u[21], 20)]
  }

  /**
    Where the version changes from zero, three symbols are not enough: such a word has a neighbour
    that verifies, too.
   */
  lemma ThreeAcross(hrp: string, u: seq<nat>)
    requires Groups(u) && |u| == 80 && u[0] == 0 && VerifyChecksum(hrp, u)
    ensures Groups(ThreeChanged(u)) && ThreeChanged(u)[0] == 20 && VerifyChecksum(hrp, ThreeChanged(u))
  {
    hide PolyMod, ChecksumConst, Sym, HrpExpand, Xor, Fold, Plus, ShiftBy;
    PlusIs(0, 20);
    PlusIs(u[10], 19);
    PlusIs(u[21], 20);
    ZeroPlus(20);
    var v, p := ThreeChanged(u), HrpExpand(hrp);
    ToWordSymbols(u);
    ToWordSymbols(v);
    var x, y, n := p + ToWord(u), p + ToWord(v), |p|;
    var e := Sum(x, y);
    RemainderDifference(x, y);
    forall i | 0 <= i < |e| && i != n && i != n + 10 && i != n + 21 ensures e[i] == 0 { Unit(x[i]); }
    SymbolValues();
    assert e[n] == 20 && e[n + 10] == 19 && e[n + 21] == 20;
    FoldThree(e, n, n + 10, n + 21);
    ThreeReachGap();
    Cancel(PolyMod(x), PolyMod(y));
    ConstDifference();
  }

  lemma ZeroPlus(x: nat)
    requires x < 32
    ensures Plus(0, x) == x
  {
    hide Xor;
    SymbolRange(x);
    Unit(Sym(x));
  }

  lemma SymbolValues()
    ensures Sym(19) == 19 && Sym(20) == 20
  {
  }

  /** t is like s up to the separator, and has data symbols wherever s has. */
  predicate Respelled(s: string, t: string) {
    var pos := RFind(s, '1');
    |t| == |s| && pos >= 0 && t[..pos + 1] == s[..pos + 1] && forall i :: pos < i < |s| ==> Rev(t[i]) != -1
  }

  lemma SameSeparator(s: string, t: string)
    requires Respelled(s, t) && AllRev(s[RFind(s, '1') + 1..])
    ensures RFind(t, '1') == RFind(s, '1') && AllRev(t[RFind(s, '1') + 1..]) && t[..RFind(s, '1')] == s[..RFind(s, '1')]
  {
    hide Rev, RFind;
    var pos := RFind(s, '1');
    OneIsNoSymbol();
    forall i | 0 <= i < |s| ensures s[i] == '1' <==> t[i] == '1' {
      if i <= pos { assert t[..pos + 1][i] == s[..pos + 1][i]; } else { assert s[pos + 1..][i - pos - 1] == s[i]; }
    }
    SameRFind(s, t);
    assert t[..pos] == t[..pos + 1][..pos] && s[..pos] == s[..pos + 1][..pos];
  }

  /** Both strings decode: their symbols verify under one human-readable part, and there are at most 89 of them. */
  lemma BothDecoded(s: string, t: string) returns (u: seq<nat>, v: seq<nat>)
    requires Respelled(s, t) && Decode(s).Some? && Decode(t).Some?
    ensures var pos := RFind(s, '1');
      && 1 <= pos && |u| == |v| == |s| - pos - 1 <= 89 && Groups(u) && Groups(v)
      && (forall i :: 0 <= i < |u| ==> u[i] == Rev(s[i + pos + 1]) && v[i] == Rev(t[i + pos + 1]))
      && VerifyChecksum(Lowered(s[..pos]), u) && VerifyChecksum(Lowered(s[..pos]), v)
  {
    hide VerifyChecksum, Rev, RFind, AcceptableChars;
    SameSeparator(s, t);
    var pos := RFind(s, '1');
    u, v := RevAll(s[pos + 1..]), RevAll(t[pos + 1..]);
    forall i | 0 <= i < |u| ensures u[i] == Rev(s[i + pos + 1]) && v[i] == Rev(t[i + pos + 1]) {
      assert s[pos + 1..][i] == s[i + pos + 1] && t[pos + 1..][i] == t[i + pos + 1];
    }
  }

  /** The characters of a string that decodes. */
  lemma DecodedChars(s: string)
    requires Decode(s).Some?
    ensures RFind(s, '1') >= 1 && forall i :: RFind(s, '1') < i < |s| ==> Rev(s[i]) != -1
  {
    hide VerifyChecksum, Rev, RFind, AcceptableChars;
    var pos := RFind(s, '1');
    forall i | pos < i < |s| ensures Rev(s[i]) != -1 { assert s[pos + 1..][i - pos - 1] == s[i]; }
  }

  /** A valid string with one data character replaced by one for another symbol is rejected. */
  lemma WrongCharacter(s: string, k: nat, c: char)
    requires Decode(s).Some? && RFind(s, '1') < k < |s|
    requires Rev(c) != -1 && Rev(c) != Rev(s[k])
    ensures Decode(s[k := c]).None?
  {
    hide VerifyChecksum, Decode, Rev, RFind;
    var pos := RFind(s, '1');
    var t := s[k := c];
    DecodedChars(s);
    if Decode(t).Some? {
      var u, v := BothDecoded(s, t);
      SingleSymbol(Lowered(s[..pos]), u, v, k - pos - 1);
    }
  }

  /** And so is one with two data characters replaced. */
  lemma TwoWrongCharacters(s: string, j: nat, k: nat, c: char, d: char)
    requires Decode(s).Some? && RFind(s, '1') < j < k < |s|
    requires Rev(c) != -1 && Rev(c) != Rev(s[j]) && Rev(d) != -1
    ensures Decode(s[j := c][k := d]).None?
  {
    hide VerifyChecksum, Decode, Rev, RFind;
    var pos := RFind(s, '1');
    var t := s[j := c][k := d];
    DecodedChars(s);
    if Decode(t).Some? {
      var u, v := BothDecoded(s, t);
      TwoSymbols(Lowered(s[..pos]), u, v, j - pos - 1, k - pos - 1);
    }
  }

  /** And one with three, unless the version changes from zero or to zero. */
  lemma ThreeWrongCharacters(s: string, i: nat, j: nat, k: nat, c: char, d: char, e: char)
    requires Decode(s).Some? && RFind(s, '1') < i < j < k < |s|
    requires Rev(c) != -1 && Rev(c) != Rev(s[i]) && Rev(d) != -1 && Rev(e) != -1
    requires i == RFind(s, '1') + 1 ==> (Rev(c) == 0 <==> Rev(s[i]) == 0)
    ensures Decode(s[i := c][j := d][k := e]).None?
  {
    hide VerifyChecksum, Decode, Rev, RFind;
    var pos := RFind(s, '1');
    var t := s[i := c][j := d][k := e];
    DecodedChars(s);
    if Decode(t).Some? {
      var u, v := BothDecoded(s, t);
      ThreeSymbols(Lowered(s[..pos]), u, v, i - pos - 1, j - pos - 1, k - pos - 1);
    }
  }

  lemma OneIsNoSymbol()
    ensures Rev('1') == -1
  {
    RevRange('1');
  }

  lemma SameRFind(s: string, t: string)
    requires |s| == |t| && forall i :: 0 <= i < |s| ==> (s[i] == '1' <==> t[i] == '1')
    ensures RFind(s, '1') == RFind(t, '1')
  {
  }

  /** Two human-readable parts that differ in one character never both verify with the same symbols. */
  lemma SingleHrpCharacter(g: string, h: string, v: seq<nat>, k: nat)
    requires Groups(v) && k < |g| == |h| <= 87 && g[k] != h[k] && (g[k] as int) < 256 && (h[k] as int) < 256
    requires forall i :: 0 <= i < |g| && i != k ==> g[i] == h[i]
    ensures !(VerifyChecksum(g, v) && VerifyChecksum(h, v))
  {
    hide PolyMod, ChecksumConst, Sym, Xor, Fold, High, Low;
    if VerifyChecksum(g, v) && VerifyChecksum(h, v) {
      var x, y := HrpExpand(g) + ToWord(v), HrpExpand(h) + ToWord(v);
      var e, j := Sum(x, y), |g| + 1 + k;
      ToWordSymbols(v);
      HrpSymbols(g);
      HrpSymbols(h);
      RemainderDifference(x, y);
      Cancel(PolyMod(x), PolyMod(y));
      forall i | 0 <= i < |e| ensures e[i] < 32 && (e[i] == 0 <==> x[i] == y[i]) { Difference(x[i], y[i]); }
      forall i | 0 <= i < |e| && i != k && i != j ensures e[i] == 0 { OtherPlaces(g, h, v, k, i); }
      BytesDiffer(g[k], h[k]);
      assert x[k] == High(g[k]) && y[k] == High(h[k]) && x[j] == Low(g[k]) && y[j] == Low(h[k]);
      Unit(PolyMod(x));
      if e[k] == 0 { SingleNonzero(e, j); } else { TwoNonzero(e, k, j); }
    }
  }

  lemma OtherPlaces(g: string, h: string, v: seq<nat>, k: nat, i: nat)
    requires Groups(v) && k < |g| == |h| && i < 2 * |g| + 1 + |v| && i != k && i != |g| + 1 + k
    requires forall i :: 0 <= i < |g| && i != k ==> g[i] == h[i]
    ensures (HrpExpand(g) + ToWord(v))[i] == (HrpExpand(h) + ToWord(v))[i]
  {
    hide High, Low, Sym;
    if |g| < i < 2 * |g| + 1 { assert g[i - |g| - 1] == h[i - |g| - 1]; }
  }

  /** A valid string with one character of its human-readable part replaced by another letter is rejected. */
  lemma WrongHrpCharacter(s: string, k: nat, c: char)
    requires Decode(s).Some? && k < RFind(s, '1') && LowerCase(c) != LowerCase(s[k])
    ensures Decode(s[k := c]).None?
  {
    hide VerifyChecksum, Rev, RFind;
    var t, pos := s[k := c], RFind(s, '1');
    LastAfter(s, t, k);
    if Decode(t).Some? {
      assert t[pos + 1..] == s[pos + 1..];
      var g, h := Lowered(s[..pos]), Lowered(t[..pos]);
      forall i | 0 <= i < pos && i != k ensures g[i] == h[i] { assert s[i] == t[i]; }
      assert g[k] == LowerCase(s[k]) && h[k] == LowerCase(c);
      LowerByte(s[k]);
      LowerByte(c);
      assert Printable(s[k]) && Printable(t[k]);
      SingleHrpCharacter(g, h, RevAll(s[pos + 1..]), k);
    }
  }

  lemma LowerByte(c: char)
    ensures Printable(c) ==> (LowerCase(c) as int) < 256
  {
  }

  lemma LastAfter(s: string, t: string, k: nat)
    requires |s| == |t| && k < RFind(s, '1') && forall i :: 0 <= i < |s| && i != k ==> s[i] == t[i]
    ensures RFind(t, '1') == RFind(s, '1')
  {
    hide RFind;
    var pos := RFind(s, '1');
    assert t[pos] == '1';
    forall i | pos < i < |t| ensures t[i] != '1' { assert s[i] == t[i]; }
  }

  // ------------------------------------------------------------ the source's loops

  method EncodeString(hrp: string, values: seq<nat>) returns (ret: string)
    requires Groups(values)
    ensures ret == Encode(hrp, values)
  {
    hide PolyMod, Unpack, CharFor, HrpExpand, ToWord, Xor;
    var enc := HrpExpand(hrp) + ToWord(values);
    var c := PolyModLoop(enc + Zeros(6));
    var mod := Xor(c, ChecksumConst(ToWord(values)));
    var combined := values + FromWord(Unpack(mod));
    ret := hrp + "1";
    for i := 0 to |combined|
      invariant ret == hrp + "1" + Chars(combined)[..i]
    {
      ret := ret + [CharFor(combined[i])];
    }
    assert Chars(combined)[..|combined|] == Chars(combined);
  }

  /** The scan for unacceptable characters and mixed case. */
  method ScanChars(str: string) returns (ok: bool)
    ensures ok == AcceptableChars(str)
  {
    hide Printable;
    var lower, upper := false, false;
    ok := true;
    var i := 0;
    while ok && i < |str|
      invariant 0 <= i <= |str|
      invariant ok ==> forall k :: 0 <= k < i ==> Printable(str[k])
      invariant !ok ==> exists k :: 0 <= k < |str| && !Printable(str[k])
      invariant lower <==> exists k :: 0 <= k < i && IsLower(str[k])
      invariant upper <==> exists k :: 0 <= k < i && IsUpper(str[k])
    {
      if !Printable(str[i]) { ok := false; }
      if IsLower(str[i]) { lower := true; }
      if IsUpper(str[i]) { upper := true; }
      i := i + 1;
    }
    if lower && upper { ok := false; }
  }

  method DecodeString(str: string) returns (r: Option<Decoded>)
    ensures r == Decode(str)
  {
    hide Rev, AcceptableChars, VerifyChecksum, RevAll;
    var ok := ScanChars(str);
    var pos := RFind(str, '1');
    if !(ok && |str| <= 90 && pos >= 1 && pos + 7 <= |str|) {
      return None;
    }
    var tail := str[pos + 1..];
    var values: seq<nat> := [];
    for i := 0 to |tail|
      invariant |values| == i && Groups(values)
      invariant forall k :: 0 <= k < i ==> Rev(tail[k]) != -1 && values[k] == Rev(tail[k])
    {
      var rev := Rev(tail[i]);
      if rev == -1 {
        return None;
      }
      RevBounds(tail[i]);
      values := values + [rev];
    }
    assert values == RevAll(tail);
    var hrp := "";
    for i := 0 to pos
      invariant hrp == Lowered(str[..pos])[..i]
    {
      hrp := hrp + [LowerCase(str[i])];
    }
    assert Lowered(str[..pos])[..pos] == Lowered(str[..pos]);
    if VerifyChecksum(hrp, values) {
      return Some(Decoded(hrp, values[..|values| - 6]));
    }
    return None;
  }

  lemma RevBounds(c: char)
    ensures -1 <= Rev(c) < 32
  {
    hide RevLower, LowerCase;
    RevRange(LowerCase(c));
  }
}
