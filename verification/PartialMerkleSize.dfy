/**
  The serialized size of a partial Merkle tree, against the guarantee that src/merkleblock.h
  states: at most 10 + ceil(32.25 N) bytes for N stored hashes.  The guarantee allows for 2N-1
  flag bits; a node with a single child needs one more, so it fails exactly where the flag bits
  beyond 2N-1 need more room than the two length prefixes leave.
 */
module PartialMerkleSize {
  import opened Common
  import opened PartialMerkle
  import opened PartialMerkleRoundTrip

  /** WriteCompactSize: the bytes of a length prefix. */
  function PrefixSize(n: nat): nat {
    if n < 253 then 1 else if n <= 0xFFFF then 3 else if n <= 0xFFFF_FFFF then 5 else 9
  }

  /** Transaction count, hashes and packed flag bits, each list with its length. */
  function SerializedSize(t: Tree): nat {
    var flagBytes := (|t.vBits| + 7) / 8;
    4 + PrefixSize(|t.vHash|) + 32 * |t.vHash| + PrefixSize(flagBytes) + flagBytes
  }

  /** 10 + ceil(32.25 N) */
  function Documented(n: nat): nat {
    10 + 32 * n + (n + 3) / 4
  }

  // ------------------------------------- counting from the list length and the mask

  /** How many hashes a node stores. */
  ghost function Stored(n: nat, vMatch: seq<bool>, h: nat, pos: nat): nat
    decreases h
  {
    if h == 0 || !ParentOfMatch(vMatch, h, pos) then 1
    else
      var right := if 2 * pos + 1 < Width(n, h - 1) then Stored(n, vMatch, h - 1, 2 * pos + 1) else 0;
      Stored(n, vMatch, h - 1, 2 * pos) + right
  }

  lemma {:induction false} StoredIs(H: Hasher, txids: seq<Hash>, vMatch: seq<bool>, h: nat, pos: nat)
    requires pos < Width(|txids|, h)
    ensures |Build(H, txids, vMatch, h, pos).hashes| == Stored(|txids|, vMatch, h, pos)
    decreases h
  {
    hide Width, ParentOfMatch;
    if h > 0 && ParentOfMatch(vMatch, h, pos) {
      ChildrenExist(|txids|, h, pos);
      StoredIs(H, txids, vMatch, h - 1, 2 * pos);
      if 2 * pos + 1 < Width(|txids|, h - 1) { StoredIs(H, txids, vMatch, h - 1, 2 * pos + 1); }
    }
  }

  /** The hashes stored for a list, and the single-child nodes passed on the way. */
  ghost function Hashes(n: nat, vMatch: seq<bool>): nat {
    Stored(n, vMatch, Height(n), 0)
  }

  ghost function OnlyChildren(n: nat, vMatch: seq<bool>): nat {
    Lonely(n, vMatch, Height(n), 0)
  }

  /** Both lists of the built tree have the lengths that can be computed beforehand. */
  lemma TreeCounts(H: Hasher, txids: seq<Hash>, vMatch: seq<bool>)
    requires |txids| > 0
    ensures var t, n := BuildTree(H, txids, vMatch), Hashes(|txids|, vMatch);
            && 1 <= |t.vHash| == n <= |txids|
            && |t.vBits| == 2 * n - 1 + OnlyChildren(|txids|, vMatch)
  {
    hide Width, Build, Stored, Lonely;
    var n := |txids|;
    RootExists(n);
    StoredIs(H, txids, vMatch, Height(n), 0);
    BuildCounts(H, txids, vMatch, Height(n), 0);
    RootCovers(n);
  }

  // --------------------------------------------------------- the bound, exactly

  /** The bytes that flag bits beyond 2N-1 take. */
  function ExtraBytes(n: nat, lonely: nat): nat {
    ((2 * n + 6) % 8 + lonely) / 8
  }

  /**
    Whether there is room for the extra bytes: the guarantee counts two prefixes of three bytes,
    and a prefix that is shorter leaves two bytes.
   */
  predicate RoomForExtra(n: nat, lonely: nat) {
    if n > 0xFFFF then false
    else if 2 * n - 1 + lonely > 2016 then n >= 253 && ExtraBytes(n, lonely) == 0
    else ExtraBytes(n, lonely) <= if n < 253 then 4 else 2
  }

  lemma FlagBytes(n: nat, lonely: nat)
    requires n > 0
    ensures (2 * n - 1 + lonely + 7) / 8 == (n + 3) / 4 + ExtraBytes(n, lonely)
  {
  }

  lemma RoomArithmetic(n: nat, lonely: nat)
    requires n > 0
    ensures var f := (2 * n - 1 + lonely + 7) / 8;
            4 + PrefixSize(n) + 32 * n + PrefixSize(f) + f <= Documented(n) <==> RoomForExtra(n, lonely)
  {
    FlagBytes(n, lonely);
  }

  /** For every list and mask, the documented size guarantee holds if and only if the extra bytes have room. */
  lemma SizeBound(H: Hasher, txids: seq<Hash>, vMatch: seq<bool>)
    requires |txids| > 0
    ensures var t := BuildTree(H, txids, vMatch);
            SerializedSize(t) <= Documented(|t.vHash|) <==>
              RoomForExtra(Hashes(|txids|, vMatch), OnlyChildren(|txids|, vMatch))
  {
    hide BuildTree, Hashes, OnlyChildren, RoomForExtra, Documented;
    TreeCounts(H, txids, vMatch);
    RoomArithmetic(Hashes(|txids|, vMatch), OnlyChildren(|txids|, vMatch));
  }

  lemma RootIsLast(n: nat)
    requires n > 0
    ensures 0 < Width(n, Height(n)) && Last(n, Height(n)) == 0
  {
    hide Width;
    RootExists(n);
  }

  /** A level adds at most one single-child node. */
  lemma {:induction false} OneLonelyPerLevel(n: nat, vMatch: seq<bool>, h: nat)
    requires 0 < Width(n, h)
    ensures Lonely(n, vMatch, h, Last(n, h)) <= h
    decreases h
  {
    hide Width, ParentOfMatch;
    if h > 0 {
      var pos := Last(n, h);
      WidthHalves(n, h);
      ChildrenExist(n, h, pos);
      OneLonelyPerLevel(n, vMatch, h - 1);
      if 2 * pos + 1 < Width(n, h - 1) { NotLastNotLonely(n, vMatch, h - 1, 2 * pos); }
    }
  }

  /**
    For lists that extraction accepts: the guarantee holds if and only if there are at most 2016
    flag bits, or the bits beyond 2N-1 fit into the last byte.
   */
  lemma SizeBoundInBlocks(H: Hasher, txids: seq<Hash>, vMatch: seq<bool>)
    requires 0 < |txids| <= MAX_BLOCK_BASE_SIZE / 60
    ensures var t, n, l := BuildTree(H, txids, vMatch), Hashes(|txids|, vMatch), OnlyChildren(|txids|, vMatch);
            SerializedSize(t) <= Documented(|t.vHash|) <==> 2 * n - 1 + l <= 2016 || (2 * n + 6) % 8 + l < 8
  {
    hide BuildTree, Hashes, Width, SerializedSize, Documented, Height, Lonely;
    var n := |txids|;
    RootIsLast(n);
    SizeBound(H, txids, vMatch);
    TreeCounts(H, txids, vMatch);
    HeightInBlocks(n);
    OneLonelyPerLevel(n, vMatch, Height(n));
  }

  lemma HeightAtMost(n: nat, k: nat)
    requires n <= Pow2(k)
    ensures Height(n) <= k
  {
    hide Width;
    NodeExists(n, k, 1);
  }

  lemma HeightInBlocks(n: nat)
    requires n <= MAX_BLOCK_BASE_SIZE / 60
    ensures Height(n) <= 15
  {
    hide Height;
    assert Pow2(5) == 32 && Pow2(10) == 1024 && Pow2(15) == 32768;
    HeightAtMost(n, 15);
  }

  // ------------------------------------------------------ a list that exceeds it

  /** Levels of odd width. */
  ghost function OddLevels(n: nat, h: nat): nat {
    if h == 0 then 0 else OddLevels(n, h - 1) + if Width(n, h - 1) % 2 == 1 then 1 else 0
  }

  ghost predicate AllMatched(n: nat, vMatch: seq<bool>) {
    |vMatch| == n && forall i :: 0 <= i < n ==> vMatch[i]
  }

  lemma MatchedNode(n: nat, vMatch: seq<bool>, h: nat, pos: nat)
    requires AllMatched(n, vMatch) && pos < Width(n, h)
    ensures ParentOfMatch(vMatch, h, pos)
  {
    hide Width;
    NodeExists(n, h, pos);
    assert (pos + 1) * Pow2(h) == pos * Pow2(h) + Pow2(h);
    assert vMatch[pos * Pow2(h)];
  }

  /** With every transaction matched, every leaf is stored. */
  lemma {:induction false} AllStored(n: nat, vMatch: seq<bool>, h: nat, pos: nat)
    requires AllMatched(n, vMatch) && pos < Width(n, h)
    ensures Stored(n, vMatch, h, pos) == Leaves(n, h, pos)
    decreases h
  {
    hide Width, ParentOfMatch, AllMatched, Leaves;
    if h == 0 {
      OneLeaf(n, pos);
    } else {
      MatchedNode(n, vMatch, h, pos);
      LeavesSplit(n, h, pos);
      ChildrenExist(n, h, pos);
      AllStored(n, vMatch, h - 1, 2 * pos);
      if 2 * pos + 1 < Width(n, h - 1) { AllStored(n, vMatch, h - 1, 2 * pos + 1); }
    }
  }

  lemma OneLeaf(n: nat, pos: nat)
    requires pos < Width(n, 0)
    ensures Leaves(n, 0, pos) == 1
  {
  }

  /** And every level of odd width has a single-child node above it. */
  lemma {:induction false} AllLonely(n: nat, vMatch: seq<bool>, h: nat)
    requires AllMatched(n, vMatch) && 0 < Width(n, h)
    ensures Lonely(n, vMatch, h, Last(n, h)) == OddLevels(n, h)
    decreases h
  {
    hide Width, ParentOfMatch, AllMatched;
    if h > 0 {
      var pos := Last(n, h);
      MatchedNode(n, vMatch, h, pos);
      WidthHalves(n, h);
      ChildrenExist(n, h, pos);
      AllLonely(n, vMatch, h - 1);
      if 2 * pos + 1 < Width(n, h - 1) { NotLastNotLonely(n, vMatch, h - 1, 2 * pos); }
    }
  }

  /** A list with all its transactions matched: N is its length. */
  lemma AllMatchedCounts(n: nat, vMatch: seq<bool>)
    requires n > 0 && AllMatched(n, vMatch)
    ensures Hashes(n, vMatch) == n && OnlyChildren(n, vMatch) == OddLevels(n, Height(n))
  {
    hide Width, ParentOfMatch, AllMatched, Stored, Lonely, OddLevels;
    RootExists(n);
    AllStored(n, vMatch, Height(n), 0);
    AllLonely(n, vMatch, Height(n));
    RootCovers(n);
  }

  /** One level up: the width halves, and an odd one counts. */
  lemma LevelUp(n: nat, h: nat)
    ensures Width(n, h + 1) == (Width(n, h) + 1) / 2
    ensures OddLevels(n, h + 1) == OddLevels(n, h) + if Width(n, h) % 2 == 1 then 1 else 0
  {
    WidthHalves(n, h + 1);
  }

  lemma Levels1025(k: nat)
    requires k <= 9
    ensures Width(1025, k) == Pow2(10 - k) + 1 && OddLevels(1025, k) == k && Pow2(10 - k) % 2 == 0
  {
    hide Width, OddLevels;
    if k == 0 {
      FirstLevel();
    } else {
      Levels1025(k - 1);
      LevelUp(1025, k - 1);
    }
  }

  lemma FirstLevel()
    ensures Width(1025, 0) == Pow2(10) + 1 && OddLevels(1025, 0) == 0
  {
    assert Pow2(5) == 32;
  }

  lemma Widths1025()
    ensures Height(1025) == 11 && OddLevels(1025, 11) == 10
  {
    hide Width, OddLevels;
    forall k: nat | k <= 9 ensures Width(1025, k) > 1 { Levels1025(k); }
    Levels1025(9);
    LevelUp(1025, 9);
    LevelUp(1025, 10);
  }

  /** 1025 transactions, all matched: 33068 bytes where the documentation allows 33067. */
  lemma SizeBoundFails(H: Hasher, txids: seq<Hash>)
    requires |txids| == 1025
    ensures var t := BuildTree(H, txids, seq(1025, _ => true));
            |t.vHash| == 1025 && |t.vBits| == 2059 && SerializedSize(t) == 33068 && Documented(|t.vHash|) == 33067
  {
    hide BuildTree, Hashes, OnlyChildren, OddLevels;
    var vMatch := seq(1025, _ => true);
    AllMatchedCounts(1025, vMatch);
    Widths1025();
    TreeCounts(H, txids, vMatch);
  }
}
