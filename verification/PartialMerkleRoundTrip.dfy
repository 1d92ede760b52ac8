/**
  What a partial Merkle tree was built from comes out of it again, through the packing of
  its flag bits into bytes.  Of the bounds documented in src/merkleblock.h, those on the number of
  stored hashes hold; the one on flag bits holds exactly where FlagBitsBound says.
 */
module PartialMerkleRoundTrip {
  import opened Common
  import opened PartialMerkle

  ghost predicate At<T>(all: seq<T>, i: nat, part: seq<T>) {
    i + |part| <= |all| && all[i..i + |part|] == part
  }

  lemma AtParts<T>(all: seq<T>, i: nat, a: seq<T>, b: seq<T>)
    requires At(all, i, a + b)
    ensures At(all, i, a) && At(all, i + |a|, b)
  {
    assert a == (a + b)[..|a|] && b == (a + b)[|a|..];
  }

  /** The traversal recovered the node: its hash, its share of both streams and its matches. */
  ghost predicate Recovered(H: Hasher, txids: seq<Hash>, vMatch: seq<bool>, e: Ext, h: nat, pos: nat, nBits: nat,
    nHash: nat)
    requires |txids| == |vMatch| && pos < Width(|txids|, h)
  {
    var b := Build(H, txids, vMatch, h, pos);
    && e.hash == CalcHash(H, txids, h, pos)
    && e.nBits == nBits + |b.bits| && e.nHash == nHash + |b.hashes|
    && !e.bad && e.matches == Under(txids, vMatch, h, pos)
  }

  ghost predicate SelfCollides(H: Hasher, txids: seq<Hash>, h: nat, pos: nat)
    requires pos < Width(|txids|, h)
  {
    Collides(H, TreePairs(H, txids, h, pos), TreePairs(H, txids, h, pos))
  }

  lemma LeafUnder(txids: seq<Hash>, vMatch: seq<bool>, pos: nat)
    requires |txids| == |vMatch| && pos < |txids|
    ensures Under(txids, vMatch, 0, pos) == if vMatch[pos] then [Match(txids[pos], pos)] else []
    ensures ParentOfMatch(vMatch, 0, pos) <==> vMatch[pos]
  {
    assert Matched(txids, vMatch, pos + 1, pos + 1) == [];
  }

  lemma SubCollides(H: Hasher, txids: seq<Hash>, h: nat, pos: nat)
    requires h > 0 && pos < Width(|txids|, h)
    ensures 2 * pos < Width(|txids|, h - 1)
    ensures SelfCollides(H, txids, h - 1, 2 * pos) ==> SelfCollides(H, txids, h, pos)
    ensures 2 * pos + 1 < Width(|txids|, h - 1) ==>
              && (SelfCollides(H, txids, h - 1, 2 * pos + 1) ==> SelfCollides(H, txids, h, pos))
              && (Collides(H, TreePairs(H, txids, h - 1, 2 * pos), TreePairs(H, txids, h - 1, 2 * pos + 1)) ==>
                    SelfCollides(H, txids, h, pos))
  {
    hide Width;
    ChildrenExist(|txids|, h, pos);
  }

  /** Extraction undoes building at every node, wherever the node's bits and hashes lie in the streams. */
  lemma {:induction false} BuildThenExtract(
    H: Hasher, txids: seq<Hash>, vMatch: seq<bool>, h: nat, pos: nat,
    vBits: seq<bool>, vHash: seq<Hash>, nBits: nat, nHash: nat)
    requires |txids| == |vMatch| && Distinct(txids) && pos < Width(|txids|, h)
    requires At(vBits, nBits, Build(H, txids, vMatch, h, pos).bits)
    requires At(vHash, nHash, Build(H, txids, vMatch, h, pos).hashes)
    ensures Recovered(H, txids, vMatch, Extract(H, |txids|, vBits, vHash, h, pos, nBits, nHash), h, pos, nBits, nHash)
         || SelfCollides(H, txids, h, pos)
    decreases h
  {
    hide Width, Under, ParentOfMatch, SelfCollides, Collides, TreePairs;
    var n := |txids|;
    var b := Build(H, txids, vMatch, h, pos);
    UnderNone(txids, vMatch, h, pos);
    if h == 0 {
      NodeExists(n, 0, pos);
      LeafUnder(txids, vMatch, pos);
      assert vBits[nBits..nBits + 1][0] == b.bits[0] && vHash[nHash..nHash + 1][0] == b.hashes[0];
    } else if !ParentOfMatch(vMatch, h, pos) {
      assert vBits[nBits..nBits + 1][0] == b.bits[0] && vHash[nHash..nHash + 1][0] == b.hashes[0];
    } else {
      SubCollides(H, txids, h, pos);
      UnderSplit(txids, vMatch, h, pos);
      InnerNode(H, txids, vMatch, h, pos, vBits, vHash, nBits, nHash);
    }
  }

  /** Two recovered children with different hashes make a recovered node. */
  lemma JoinTwo(
    H: Hasher, txids: seq<Hash>, vMatch: seq<bool>, h: nat, pos: nat,
    vBits: seq<bool>, vHash: seq<Hash>, nBits: nat, nHash: nat)
    requires |txids| == |vMatch| && h > 0 && pos < Width(|txids|, h)
    requires 2 * pos < Width(|txids|, h - 1) && 2 * pos + 1 < Width(|txids|, h - 1)
    requires ParentOfMatch(vMatch, h, pos) && nBits < |vBits| && vBits[nBits]
    requires var l := Extract(H, |txids|, vBits, vHash, h - 1, 2 * pos, nBits + 1, nHash);
             && Recovered(H, txids, vMatch, l, h - 1, 2 * pos, nBits + 1, nHash)
             && Recovered(H, txids, vMatch, Extract(H, |txids|, vBits, vHash, h - 1, 2 * pos + 1, l.nBits, l.nHash),
                          h - 1, 2 * pos + 1, l.nBits, l.nHash)
    requires CalcHash(H, txids, h - 1, 2 * pos) != CalcHash(H, txids, h - 1, 2 * pos + 1)
    ensures Recovered(H, txids, vMatch, Extract(H, |txids|, vBits, vHash, h, pos, nBits, nHash), h, pos, nBits, nHash)
  {
    hide Width, Under, ParentOfMatch;
    UnderSplit(txids, vMatch, h, pos);
  }

  /** An only child is hashed with itself. */
  lemma JoinOne(
    H: Hasher, txids: seq<Hash>, vMatch: seq<bool>, h: nat, pos: nat,
    vBits: seq<bool>, vHash: seq<Hash>, nBits: nat, nHash: nat)
    requires |txids| == |vMatch| && h > 0 && pos < Width(|txids|, h)
    requires 2 * pos < Width(|txids|, h - 1) <= 2 * pos + 1
    requires ParentOfMatch(vMatch, h, pos) && nBits < |vBits| && vBits[nBits]
    requires Recovered(H, txids, vMatch, Extract(H, |txids|, vBits, vHash, h - 1, 2 * pos, nBits + 1, nHash),
                       h - 1, 2 * pos, nBits + 1, nHash)
    ensures Recovered(H, txids, vMatch, Extract(H, |txids|, vBits, vHash, h, pos, nBits, nHash), h, pos, nBits, nHash)
  {
    hide Width, Under, ParentOfMatch;
    UnderSplit(txids, vMatch, h, pos);
  }

  /** The streams of an inner node are a true bit and then its children's streams. */
  lemma InnerStreams(
    H: Hasher, txids: seq<Hash>, vMatch: seq<bool>, h: nat, pos: nat,
    vBits: seq<bool>, vHash: seq<Hash>, nBits: nat, nHash: nat)
    requires h > 0 && pos < Width(|txids|, h) && 2 * pos < Width(|txids|, h - 1) && ParentOfMatch(vMatch, h, pos)
    requires At(vBits, nBits, Build(H, txids, vMatch, h, pos).bits)
    requires At(vHash, nHash, Build(H, txids, vMatch, h, pos).hashes)
    ensures nBits < |vBits| && vBits[nBits]
    ensures var l := Build(H, txids, vMatch, h - 1, 2 * pos);
            && At(vBits, nBits + 1, l.bits) && At(vHash, nHash, l.hashes)
            && (2 * pos + 1 < Width(|txids|, h - 1) ==>
                  var r := Build(H, txids, vMatch, h - 1, 2 * pos + 1);
                  At(vBits, nBits + 1 + |l.bits|, r.bits) && At(vHash, nHash + |l.hashes|, r.hashes))
  {
    hide Width, ParentOfMatch, At;
    var l := Build(H, txids, vMatch, h - 1, 2 * pos);
    if 2 * pos + 1 < Width(|txids|, h - 1) {
      var r := Build(H, txids, vMatch, h - 1, 2 * pos + 1);
      assert [true] + l.bits + r.bits == [true] + (l.bits + r.bits);
      StreamHead(vBits, nBits, true, l.bits + r.bits);
      AtParts(vBits, nBits + 1, l.bits, r.bits);
      AtParts(vHash, nHash, l.hashes, r.hashes);
    } else {
      StreamHead(vBits, nBits, true, l.bits);
    }
  }

  /** The inductive step of BuildThenExtract. */
  lemma InnerNode(
    H: Hasher, txids: seq<Hash>, vMatch: seq<bool>, h: nat, pos: nat,
    vBits: seq<bool>, vHash: seq<Hash>, nBits: nat, nHash: nat)
    requires |txids| == |vMatch| && Distinct(txids) && h > 0 && pos < Width(|txids|, h)
    requires ParentOfMatch(vMatch, h, pos)
    requires At(vBits, nBits, Build(H, txids, vMatch, h, pos).bits)
    requires At(vHash, nHash, Build(H, txids, vMatch, h, pos).hashes)
    ensures Recovered(H, txids, vMatch, Extract(H, |txids|, vBits, vHash, h, pos, nBits, nHash), h, pos, nBits, nHash)
         || SelfCollides(H, txids, h, pos)
    decreases h, 0
  {
    hide Width, ParentOfMatch, SelfCollides, Collides, TreePairs, At, Extract, Build, CalcHash, Under, Distinct;
    var n := |txids|;
    SubCollides(H, txids, h, pos);
    InnerStreams(H, txids, vMatch, h, pos, vBits, vHash, nBits, nHash);
    BuildThenExtract(H, txids, vMatch, h - 1, 2 * pos, vBits, vHash, nBits + 1, nHash);
    if SelfCollides(H, txids, h - 1, 2 * pos) {
    } else if 2 * pos + 1 < Width(n, h - 1) {
      var l := Extract(H, n, vBits, vHash, h - 1, 2 * pos, nBits + 1, nHash);
      BuildThenExtract(H, txids, vMatch, h - 1, 2 * pos + 1, vBits, vHash, l.nBits, l.nHash);
      SiblingsDiffer(H, txids, h - 1, 2 * pos, 2 * pos + 1);
      if !SelfCollides(H, txids, h, pos) {
        JoinTwo(H, txids, vMatch, h, pos, vBits, vHash, nBits, nHash);
      }
    } else {
      JoinOne(H, txids, vMatch, h, pos, vBits, vHash, nBits, nHash);
    }
  }

  lemma StreamHead(all: seq<bool>, i: nat, x: bool, rest: seq<bool>)
    ensures At(all, i, [x] + rest) ==> i < |all| && all[i] == x && At(all, i + 1, rest)
  {
    if At(all, i, [x] + rest) {
      AtParts(all, i, [x], rest);
      assert all[i..i + 1][0] == x;
    }
  }

  // ------------------------------------------------------------------- sizes

  function Leaves(n: nat, h: nat, pos: nat): int {
    Min(n, (pos + 1) * Pow2(h)) - pos * Pow2(h)
  }

  lemma LeavesSplit(n: nat, h: nat, pos: nat)
    requires h > 0 && pos < Width(n, h)
    ensures Leaves(n, h, pos) == Leaves(n, h - 1, 2 * pos)
                                 + if 2 * pos + 1 < Width(n, h - 1) then Leaves(n, h - 1, 2 * pos + 1) else 0
  {
    hide Width;
    Children(h, pos);
    NodeExists(n, h, pos);
    NodeExists(n, h - 1, 2 * pos + 1);
  }

  /** The inner nodes with a single child that the traversal passes through. */
  ghost function Lonely(n: nat, vMatch: seq<bool>, h: nat, pos: nat): nat
    decreases h
  {
    if h == 0 || !ParentOfMatch(vMatch, h, pos) then 0
    else if 2 * pos + 1 < Width(n, h - 1)
      then Lonely(n, vMatch, h - 1, 2 * pos) + Lonely(n, vMatch, h - 1, 2 * pos + 1)
      else 1 + Lonely(n, vMatch, h - 1, 2 * pos)
  }

  /** One hash per leaf of the partial tree, and exactly this many bits. */
  lemma {:induction false} BuildCounts(H: Hasher, txids: seq<Hash>, vMatch: seq<bool>, h: nat, pos: nat)
    requires pos < Width(|txids|, h)
    ensures var b := Build(H, txids, vMatch, h, pos);
            && 1 <= |b.hashes| <= Leaves(|txids|, h, pos)
            && |b.bits| == 2 * |b.hashes| - 1 + Lonely(|txids|, vMatch, h, pos)
    decreases h
  {
    hide Width, ParentOfMatch, Leaves;
    var n := |txids|;
    LeavesPositive(n, h, pos);
    if h > 0 && ParentOfMatch(vMatch, h, pos) {
      LeavesSplit(n, h, pos);
      ChildrenExist(n, h, pos);
      BuildCounts(H, txids, vMatch, h - 1, 2 * pos);
      if 2 * pos + 1 < Width(n, h - 1) { BuildCounts(H, txids, vMatch, h - 1, 2 * pos + 1); }
    }
  }

  lemma LeavesPositive(n: nat, h: nat, pos: nat)
    requires pos < Width(n, h)
    ensures Leaves(n, h, pos) >= 1
  {
    NodeExists(n, h, pos);
    assert (pos + 1) * Pow2(h) == pos * Pow2(h) + Pow2(h);
  }

  /** The documented bound on the number of stored hashes: one plus matches times height. */
  lemma {:induction false} HashesPerMatch(H: Hasher, txids: seq<Hash>, vMatch: seq<bool>, h: nat, pos: nat)
    requires |txids| == |vMatch| && pos < Width(|txids|, h)
    ensures |Build(H, txids, vMatch, h, pos).hashes| <= 1 + |Under(txids, vMatch, h, pos)| * h
    decreases h
  {
    hide Width, ParentOfMatch, Under;
    var n := |txids|;
    UnderNone(txids, vMatch, h, pos);
    var m := |Under(txids, vMatch, h, pos)|;
    assert 0 <= m * h;
    if h > 0 && ParentOfMatch(vMatch, h, pos) {
      UnderSplit(txids, vMatch, h, pos);
      ChildrenExist(n, h, pos);
      HashesPerMatch(H, txids, vMatch, h - 1, 2 * pos);
      var m1 := |Under(txids, vMatch, h - 1, 2 * pos)|;
      assert m * h == m * (h - 1) + m;
      if 2 * pos + 1 < Width(n, h - 1) {
        HashesPerMatch(H, txids, vMatch, h - 1, 2 * pos + 1);
        var m2 := |Under(txids, vMatch, h - 1, 2 * pos + 1)|;
        assert m * (h - 1) == m1 * (h - 1) + m2 * (h - 1);
      }
    }
  }

  // ------------------------------------------ flag bits, packed into bytes

  function Bit(k: int): bv8 {
    match k
    case 0 => 1
    case 1 => 2
    case 2 => 4
    case 3 => 8
    case 4 => 16
    case 5 => 32
    case 6 => 64
    case _ => 128
  }

  /** The first flag of a byte is its least significant bit. */
  lemma BitIsPower(k: nat)
    requires k < 8
    ensures Bit(k) as nat == Pow2(k)
  {
    Pow2Double(0);
    Pow2Double(1);
    Pow2Double(2);
    Pow2Double(3);
    Pow2Double(4);
    Pow2Double(5);
    Pow2Double(6);
  }

  predicate BitSet(b: bv8, k: int) {
    b & Bit(k) != 0
  }

  function Unpack(bytes: seq<bv8>): seq<bool> {
    seq(8 * |bytes|, p requires 0 <= p < 8 * |bytes| => BitSet(bytes[p / 8], p % 8))
  }

  /** `b | (v << k)` */
  function SetFlag(b: bv8, k: int, v: bool): bv8 {
    b | (if v then Bit(k) else 0)
  }

  lemma FlagIs(b: bv8, j: int, v: bool, k: int)
    requires 0 <= j < 8 && 0 <= k < 8
    ensures BitSet(SetFlag(b, j, v), k) <==> (v && j == k) || BitSet(b, k)
  {
  }

  lemma NoFlags(k: int)
    ensures !BitSet(0, k)
  {
    hide Bit;
  }

  /** The bits with the zero padding that fills the last byte. */
  function Padded(bits: seq<bool>): seq<bool> {
    bits + seq(8 * ((|bits| + 7) / 8) - |bits|, _ => false)
  }

  /** The packing loop of SerializationOp; unpacking restores the bits, padded to whole bytes. */
  method Pack(bits: seq<bool>) returns (bytes: seq<bv8>)
    ensures |bytes| == (|bits| + 7) / 8
    ensures Unpack(bytes) == Padded(bits)
  {
    hide BitSet, SetFlag;
    bytes := seq((|bits| + 7) / 8, _ => 0);
    forall q | 0 <= q < 8 * |bytes| ensures !BitSet(bytes[q / 8], q % 8) { NoFlags(q % 8); }
    for p := 0 to |bits|
      invariant |bytes| == (|bits| + 7) / 8
      invariant forall q :: 0 <= q < 8 * |bytes| ==> (BitSet(bytes[q / 8], q % 8) <==> q < p && bits[q])
    {
      ghost var before := bytes;
      bytes := bytes[p / 8 := SetFlag(bytes[p / 8], p % 8, bits[p])];
      forall q | 0 <= q < 8 * |bytes| ensures BitSet(bytes[q / 8], q % 8) <==> q < p + 1 && bits[q] {
        if q / 8 == p / 8 { FlagIs(before[p / 8], p % 8, bits[p], q % 8); }
      }
    }
  }

  /**
    Round trip: build from a list and a mask, pack the flag bits, read them back padded, and
    extraction accepts and yields the root of the full tree and exactly the matched
    transactions with their indices, in order - or two different pairs in the full tree collide.
   */
  lemma RoundTrip(H: Hasher, txids: seq<Hash>, vMatch: seq<bool>, t: Tree)
    requires 0 < |txids| <= MAX_BLOCK_BASE_SIZE / 60 && |vMatch| == |txids| && Distinct(txids)
    requires t == BuildTree(H, txids, vMatch).(vBits := Padded(BuildTree(H, txids, vMatch).vBits))
    ensures || Collides(H, RootPairs(H, txids), RootPairs(H, txids))
            || (&& ExtractMatches(H, t) == Root(H, txids) && Accepts(H, t)
                && Traversal(H, t).matches == Matched(txids, vMatch, 0, |txids|))
  {
    hide Width, Extract, Build, CalcHash, TreePairs, Distinct, Matched, Collides, ParentOfMatch;
    var n := |txids|;
    RootExists(n);
    var h := Height(n);
    var b := Build(H, txids, vMatch, h, 0);
    BuildThenExtract(H, txids, vMatch, h, 0, t.vBits, t.vHash, 0, 0);
    BuildCounts(H, txids, vMatch, h, 0);
    RootCovers(n);
  }

  lemma RootCovers(n: nat)
    requires n > 0
    ensures Pow2(Height(n)) >= n
  {
    NodeExists(n, Height(n), 1);
  }

  // ---------------------------- the documented "at most 2N-1 bits", exactly

  /** The last node of a level. */
  function Last(n: nat, h: nat): int {
    Width(n, h) - 1
  }

  /** A caller can see this from the number of transactions and the mask alone. */
  ghost predicate MatchUnderOnlyChild(n: nat, vMatch: seq<bool>, h: nat) {
    exists k :: 1 <= k <= h && 0 < Width(n, k) && Width(n, k - 1) % 2 == 1 && ParentOfMatch(vMatch, k, Last(n, k))
  }

  lemma WidthHalves(n: nat, h: nat)
    requires h > 0
    ensures Width(n, h) == (Width(n, h - 1) + 1) / 2
  {
    hide Width;
    var w, v := Width(n, h), Width(n, h - 1);
    NodeExists(n, h - 1, v);
    NodeExists(n, h, w);
    if w > 0 {
      NodeExists(n, h, w - 1);
      NodeExists(n, h - 1, 2 * (w - 1));
      Children(h, w - 1);
    }
    NodeExists(n, h - 1, 2 * w);
    Children(h, w);
  }

  /** Only the last node of a level can have a single child. */
  lemma {:induction false} NotLastNotLonely(n: nat, vMatch: seq<bool>, h: nat, pos: nat)
    requires pos + 1 < Width(n, h)
    ensures Lonely(n, vMatch, h, pos) == 0
    decreases h
  {
    hide Width, ParentOfMatch;
    if h > 0 {
      ChildrenExist(n, h, pos + 1);
      NotLastNotLonely(n, vMatch, h - 1, 2 * pos);
      NotLastNotLonely(n, vMatch, h - 1, 2 * pos + 1);
    }
  }

  lemma ParentsOfParents(vMatch: seq<bool>, h: nat, pos: nat, child: nat)
    requires h > 0 && (child == 2 * pos || child == 2 * pos + 1)
    ensures ParentOfMatch(vMatch, h - 1, child) ==> ParentOfMatch(vMatch, h, pos)
  {
    Children(h, pos);
  }

  /** Single-child nodes are passed exactly when some match lies under one. */
  lemma {:induction false} LonelyIffMatch(n: nat, vMatch: seq<bool>, h: nat)
    requires 0 < Width(n, h)
    ensures Lonely(n, vMatch, h, Last(n, h)) > 0 <==> MatchUnderOnlyChild(n, vMatch, h)
    ensures MatchUnderOnlyChild(n, vMatch, h) ==> ParentOfMatch(vMatch, h, Last(n, h))
    decreases h
  {
    hide Width, ParentOfMatch;
    if h > 0 {
      var pos := Last(n, h);
      WidthHalves(n, h);
      ChildrenExist(n, h, pos);
      LonelyIffMatch(n, vMatch, h - 1);
      ParentsOfParents(vMatch, h, pos, Last(n, h - 1));
      if 2 * pos + 1 < Width(n, h - 1) { NotLastNotLonely(n, vMatch, h - 1, 2 * pos); }
      assert MatchUnderOnlyChild(n, vMatch, h) <==>
               MatchUnderOnlyChild(n, vMatch, h - 1) || (Width(n, h - 1) % 2 == 1 && ParentOfMatch(vMatch, h, pos));
    }
  }

  /** The documented bound of 2N-1 flag bits holds if and only if no match lies under a single-child node. */
  lemma FlagBitsBound(H: Hasher, txids: seq<Hash>, vMatch: seq<bool>)
    requires |txids| > 0
    ensures var t := BuildTree(H, txids, vMatch);
            |t.vBits| <= 2 * |t.vHash| - 1 <==> !MatchUnderOnlyChild(|txids|, vMatch, Height(|txids|))
  {
    hide Width, ParentOfMatch, Build;
    RootExists(|txids|);
    var h := Height(|txids|);
    BuildCounts(H, txids, vMatch, h, 0);
    LonelyIffMatch(|txids|, vMatch, h);
  }

  /** Three transactions with the last one matched: one bit more than the documentation allows. */
  lemma FlagBitsBoundFails(H: Hasher, a: Hash, b: Hash, c: Hash)
    ensures var t := BuildTree(H, [a, b, c], [false, false, true]); |t.vBits| > 2 * |t.vHash| - 1
  {
    var txids, vMatch := [a, b, c], [false, false, true];
    FlagBitsBound(H, txids, vMatch);
    hide Build, CalcHash;
    assert Pow2(0) == 1 && Pow2(1) == 2;
    assert Width(3, 0) == 3 && Width(3, 1) == 2 && Last(3, 1) == 1;
    assert Height(3) >= 1;
    assert vMatch[2] && AnyMatch(vMatch, 2, 4);
    assert ParentOfMatch(vMatch, 1, Last(3, 1));
  }
}
