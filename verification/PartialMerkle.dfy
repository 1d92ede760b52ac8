/**
  The partial Merkle tree of src/merkleblock.h and src/merkleblock.cpp (BIP 37, section
  "Partial Merkle branch format"): building, packing, unpacking and extraction.

  The double-SHA256 of two concatenated hashes is a parameter H about which nothing is
  assumed.  Where a claim needs collision resistance, the lemma says "or here are two
  different pairs, both hashed during this very computation, with the same hash".
 */
module PartialMerkle {
  import opened Common

  type Hash = nat
  type Hasher = (Hash, Hash) -> Hash

  const ZERO: Hash := 0
  const MAX_BLOCK_BASE_SIZE := 1000000

  /** CalcTreeWidth: the number of nodes at a height over n leaves. */
  function Width(n: nat, h: nat): nat {
    (n + Pow2(h) - 1) / Pow2(h)
  }

  lemma DivBelow(x: nat, p: nat, q: nat)
    requires p > 0
    ensures q < x / p <==> (q + 1) * p <= x
  {
    var d := x / p;
    assert d * p <= x < d * p + p;
    if q < d {
      assert (q + 1) * p <= d * p;
    } else {
      assert (d + 1) * p <= (q + 1) * p;
    }
  }

  /** A node exists exactly when its first leaf does. */
  lemma NodeExists(n: nat, h: nat, pos: nat)
    ensures pos < Width(n, h) <==> pos * Pow2(h) < n
  {
    DivBelow(n + Pow2(h) - 1, Pow2(h), pos);
    assert (pos + 1) * Pow2(h) == pos * Pow2(h) + Pow2(h);
  }

  lemma Children(h: nat, pos: nat)
    requires h > 0
    ensures pos * Pow2(h) == (2 * pos) * Pow2(h - 1)
    ensures (2 * pos + 1) * Pow2(h - 1) == (2 * pos) * Pow2(h - 1) + Pow2(h - 1)
    ensures (2 * pos + 2) * Pow2(h - 1) == (pos + 1) * Pow2(h)
  {
    var p := Pow2(h - 1);
    assert Pow2(h) == 2 * p;
    assert pos * (2 * p) == (2 * pos) * p;
    assert (pos + 1) * (2 * p) == (2 * pos + 2) * p;
  }

  /** The right child, if any, exists exactly when the code descends into it. */
  lemma ChildrenExist(n: nat, h: nat, pos: nat)
    requires h > 0 && pos < Width(n, h)
    ensures 2 * pos < Width(n, h - 1)
  {
    Children(h, pos);
    NodeExists(n, h, pos);
    NodeExists(n, h - 1, 2 * pos);
  }

  /** The hash of a node; a missing right child repeats the left one. */
  function CalcHash(H: Hasher, txids: seq<Hash>, h: nat, pos: nat): Hash
    requires pos < Width(|txids|, h)
  {
    if h == 0 then
      NodeExists(|txids|, 0, pos);
      txids[pos]
    else
      ChildrenExist(|txids|, h, pos);
      var left := CalcHash(H, txids, h - 1, 2 * pos);
      var right := if 2 * pos + 1 < Width(|txids|, h - 1) then CalcHash(H, txids, h - 1, 2 * pos + 1) else left;
      H(left, right)
  }

  /** The pairs of hashes that computing a node's hash feeds to H. */
  function TreePairs(H: Hasher, txids: seq<Hash>, h: nat, pos: nat): set<(Hash, Hash)>
    requires pos < Width(|txids|, h)
  {
    if h == 0 then {}
    else
      ChildrenExist(|txids|, h, pos);
      var left := CalcHash(H, txids, h - 1, 2 * pos);
      if 2 * pos + 1 < Width(|txids|, h - 1) then
        {(left, CalcHash(H, txids, h - 1, 2 * pos + 1))}
        + TreePairs(H, txids, h - 1, 2 * pos) + TreePairs(H, txids, h - 1, 2 * pos + 1)
      else {(left, left)} + TreePairs(H, txids, h - 1, 2 * pos)
  }

  /** Two different pairs, one from each set, with one hash. */
  ghost predicate Collides(H: Hasher, a: set<(Hash, Hash)>, b: set<(Hash, Hash)>) {
    exists p, q :: p in a && q in b && p != q && H(p.0, p.1) == H(q.0, q.1)
  }

  // ------------------------------------------------------------ extraction

  datatype Match = Match(txid: Hash, index: nat)

  /** What TraverseAndExtract leaves behind: the hash, both cursors, the bad flag and the matches found. */
  datatype Ext = Ext(hash: Hash, nBits: nat, nHash: nat, bad: bool, matches: seq<Match>)

  function Extract(H: Hasher, n: nat, vBits: seq<bool>, vHash: seq<Hash>, h: nat, pos: nat, nBits: nat, nHash: nat): Ext
    decreases h
  {
    if nBits >= |vBits| then Ext(ZERO, nBits, nHash, true, [])
    else if h == 0 || !vBits[nBits] then
      if nHash >= |vHash| then Ext(ZERO, nBits + 1, nHash, true, [])
      else Ext(vHash[nHash], nBits + 1, nHash + 1, false,
               if h == 0 && vBits[nBits] then [Match(vHash[nHash], pos)] else [])
    else
      var l := Extract(H, n, vBits, vHash, h - 1, 2 * pos, nBits + 1, nHash);
      if 2 * pos + 1 < Width(n, h - 1) then
        var r := Extract(H, n, vBits, vHash, h - 1, 2 * pos + 1, l.nBits, l.nHash);
        Ext(H(l.hash, r.hash), r.nBits, r.nHash, l.bad || r.bad || r.hash == l.hash, l.matches + r.matches)
      else Ext(H(l.hash, l.hash), l.nBits, l.nHash, l.bad, l.matches)
  }

  /** The pairs that extraction feeds to H. */
  function ExtPairs(H: Hasher, n: nat, vBits: seq<bool>, vHash: seq<Hash>, h: nat, pos: nat, nBits: nat,
    nHash: nat): set<(Hash, Hash)>
    decreases h
  {
    if nBits >= |vBits| || h == 0 || !vBits[nBits] then {}
    else
      var l := Extract(H, n, vBits, vHash, h - 1, 2 * pos, nBits + 1, nHash);
      var lp := ExtPairs(H, n, vBits, vHash, h - 1, 2 * pos, nBits + 1, nHash);
      if 2 * pos + 1 < Width(n, h - 1) then
        var r := Extract(H, n, vBits, vHash, h - 1, 2 * pos + 1, l.nBits, l.nHash);
        {(l.hash, r.hash)} + lp + ExtPairs(H, n, vBits, vHash, h - 1, 2 * pos + 1, l.nBits, l.nHash)
      else {(l.hash, l.hash)} + lp
  }

  ghost predicate Genuine(txids: seq<Hash>, matches: seq<Match>) {
    forall i :: 0 <= i < |matches| ==> matches[i].index < |txids| && matches[i].txid == txids[matches[i].index]
  }

  lemma Widen(H: Hasher, a: set<(Hash, Hash)>, b: set<(Hash, Hash)>, a': set<(Hash, Hash)>, b': set<(Hash, Hash)>)
    requires a <= a' && b <= b' && Collides(H, a, b)
    ensures Collides(H, a', b')
  {
  }

  /**
    Soundness at a node: whatever the bits and hashes are, if the extracted hash is the real
    one then every reported match is a real leaf at its real index, or H collides.
   */
  lemma {:induction false} ExtractSound(
    H: Hasher, txids: seq<Hash>, vBits: seq<bool>, vHash: seq<Hash>, h: nat, pos: nat, nBits: nat, nHash: nat)
    requires pos < Width(|txids|, h)
    requires var e := Extract(H, |txids|, vBits, vHash, h, pos, nBits, nHash);
             !e.bad && e.hash == CalcHash(H, txids, h, pos)
    ensures Genuine(txids, Extract(H, |txids|, vBits, vHash, h, pos, nBits, nHash).matches)
         || Collides(H, TreePairs(H, txids, h, pos), ExtPairs(H, |txids|, vBits, vHash, h, pos, nBits, nHash))
    decreases h
  {
    var n := |txids|;
    if h == 0 {
      NodeExists(n, 0, pos);
    } else if vBits[nBits] {
      ChildrenExist(n, h, pos);
      var l := Extract(H, n, vBits, vHash, h - 1, 2 * pos, nBits + 1, nHash);
      var left := CalcHash(H, txids, h - 1, 2 * pos);
      var tp, ep := TreePairs(H, txids, h, pos), ExtPairs(H, n, vBits, vHash, h, pos, nBits, nHash);
      var two := 2 * pos + 1 < Width(n, h - 1);
      var r := if two then Extract(H, n, vBits, vHash, h - 1, 2 * pos + 1, l.nBits, l.nHash) else l;
      var right := if two then CalcHash(H, txids, h - 1, 2 * pos + 1) else left;
      assert (left, right) in tp && (l.hash, r.hash) in ep;
      if (left, right) == (l.hash, r.hash) {
        ExtractSound(H, txids, vBits, vHash, h - 1, 2 * pos, nBits + 1, nHash);
        if two { ExtractSound(H, txids, vBits, vHash, h - 1, 2 * pos + 1, l.nBits, l.nHash); }
      } else {
        assert Collides(H, tp, ep);
      }
    }
  }

  // ------------------------------------------------------------- whole trees

  lemma Doubled(w: nat, p: nat)
    requires w >= 2
    ensures (w - 1) * (2 * p) >= w * p
  {
    assert (w - 1) * (2 * p) == w * p + (w - 2) * p;
  }

  lemma WidthShrinks(n: nat, h: nat)
    requires Width(n, h) > 1
    ensures Width(n, h + 1) < Width(n, h)
  {
    hide Width;
    var w := Width(n, h);
    NodeExists(n, h, w);
    NodeExists(n, h + 1, w - 1);
    Doubled(w, Pow2(h));
  }

  /** The search for the root's height: the first height at which the tree is one node wide. */
  function HeightFrom(n: nat, h: nat): (r: nat)
    ensures r >= h && Width(n, r) <= 1
    ensures forall k :: h <= k < r ==> Width(n, k) > 1
    decreases Width(n, h)
  {
    if Width(n, h) <= 1 then h else WidthShrinks(n, h); HeightFrom(n, h + 1)
  }

  function Height(n: nat): nat {
    HeightFrom(n, 0)
  }

  lemma RootExists(n: nat)
    requires n > 0
    ensures 0 < Width(n, Height(n))
  {
    NodeExists(n, Height(n), 0);
  }

  function Root(H: Hasher, txids: seq<Hash>): Hash
    requires |txids| > 0
  {
    RootExists(|txids|);
    CalcHash(H, txids, Height(|txids|), 0)
  }

  /** The pairs hashed while computing the root of a real list. */
  function RootPairs(H: Hasher, txids: seq<Hash>): set<(Hash, Hash)>
    requires |txids| > 0
  {
    RootExists(|txids|);
    TreePairs(H, txids, Height(|txids|), 0)
  }

  datatype Tree = Tree(nTransactions: nat, vBits: seq<bool>, vHash: seq<Hash>, fBad: bool)

  function Traversal(H: Hasher, t: Tree): Ext {
    Extract(H, t.nTransactions, t.vBits, t.vHash, Height(t.nTransactions), 0, 0, 0)
  }

  /** The pairs hashed during the traversal. */
  function TraversalPairs(H: Hasher, t: Tree): set<(Hash, Hash)> {
    ExtPairs(H, t.nTransactions, t.vBits, t.vHash, Height(t.nTransactions), 0, 0, 0)
  }

  /** Every test of ExtractMatches passes. */
  predicate Accepts(H: Hasher, t: Tree) {
    && 0 < t.nTransactions <= MAX_BLOCK_BASE_SIZE / 60
    && |t.vHash| <= t.nTransactions
    && |t.vHash| <= |t.vBits|
    && !t.fBad && !Traversal(H, t).bad
    && (Traversal(H, t).nBits + 7) / 8 == (|t.vBits| + 7) / 8
    && Traversal(H, t).nHash == |t.vHash|
  }

  /** The returned root, zero on failure. */
  function ExtractMatches(H: Hasher, t: Tree): Hash {
    if Accepts(H, t) then Traversal(H, t).hash else ZERO
  }

  /**
    Soundness: a tree from anywhere that yields the root of a real transaction list of the
    stated length reports only transactions of that list, each at its own index.
   */
  lemma Sound(H: Hasher, t: Tree, txids: seq<Hash>)
    requires |txids| == t.nTransactions > 0
    requires ExtractMatches(H, t) == Root(H, txids) != ZERO
    ensures Genuine(txids, Traversal(H, t).matches)
         || Collides(H, RootPairs(H, txids), TraversalPairs(H, t))
  {
    hide Width, Extract, ExtPairs, CalcHash, TreePairs, Pow2, Height, Genuine, Collides;
    RootExists(|txids|);
    ExtractSound(H, txids, t.vBits, t.vHash, Height(|txids|), 0, 0, 0);
  }

  // ------------------------------------------------------------------ building

  datatype Built = Built(bits: seq<bool>, hashes: seq<Hash>)

  ghost predicate AnyMatch(vMatch: seq<bool>, lo: nat, hi: nat) {
    exists p :: lo <= p < hi && p < |vMatch| && vMatch[p]
  }

  /** Whether some matched leaf is below the node. */
  ghost predicate ParentOfMatch(vMatch: seq<bool>, h: nat, pos: nat) {
    AnyMatch(vMatch, pos * Pow2(h), (pos + 1) * Pow2(h))
  }

  ghost function Build(H: Hasher, txids: seq<Hash>, vMatch: seq<bool>, h: nat, pos: nat): Built
    requires pos < Width(|txids|, h)
  {
    var f := ParentOfMatch(vMatch, h, pos);
    if h == 0 || !f then Built([f], [CalcHash(H, txids, h, pos)])
    else
      ChildrenExist(|txids|, h, pos);
      var l := Build(H, txids, vMatch, h - 1, 2 * pos);
      if 2 * pos + 1 < Width(|txids|, h - 1) then
        var r := Build(H, txids, vMatch, h - 1, 2 * pos + 1);
        Built([true] + l.bits + r.bits, l.hashes + r.hashes)
      else Built([true] + l.bits, l.hashes)
  }

  ghost function BuildTree(H: Hasher, txids: seq<Hash>, vMatch: seq<bool>): Tree
    requires |txids| > 0
  {
    RootExists(|txids|);
    var b := Build(H, txids, vMatch, Height(|txids|), 0);
    Tree(|txids|, b.bits, b.hashes, false)
  }

  /** The matched leaves from lo up to hi, in order. */
  function Matched(txids: seq<Hash>, vMatch: seq<bool>, lo: nat, hi: nat): seq<Match>
    requires hi <= |txids| == |vMatch|
    decreases hi - lo
  {
    if lo >= hi then []
    else (if vMatch[lo] then [Match(txids[lo], lo)] else []) + Matched(txids, vMatch, lo + 1, hi)
  }

  lemma {:induction false} MatchedSplit(txids: seq<Hash>, vMatch: seq<bool>, lo: nat, mid: nat, hi: nat)
    requires lo <= mid <= hi <= |txids| == |vMatch|
    ensures Matched(txids, vMatch, lo, hi) == Matched(txids, vMatch, lo, mid) + Matched(txids, vMatch, mid, hi)
    decreases mid - lo
  {
    if lo < mid {
      MatchedSplit(txids, vMatch, lo + 1, mid, hi);
    }
  }

  lemma {:induction false} MatchedNone(txids: seq<Hash>, vMatch: seq<bool>, lo: nat, hi: nat)
    requires hi <= |txids| == |vMatch|
    ensures Matched(txids, vMatch, lo, hi) == [] <==> !AnyMatch(vMatch, lo, hi)
    decreases hi - lo
  {
    if lo < hi {
      MatchedNone(txids, vMatch, lo + 1, hi);
    }
  }

  /** The matched leaves below a node. */
  function Under(txids: seq<Hash>, vMatch: seq<bool>, h: nat, pos: nat): seq<Match>
    requires |txids| == |vMatch|
  {
    Matched(txids, vMatch, pos * Pow2(h), Min(|txids|, (pos + 1) * Pow2(h)))
  }

  lemma UnderSplit(txids: seq<Hash>, vMatch: seq<bool>, h: nat, pos: nat)
    requires |txids| == |vMatch| && h > 0 && pos < Width(|txids|, h)
    ensures Under(txids, vMatch, h, pos) ==
              if 2 * pos + 1 < Width(|txids|, h - 1)
              then Under(txids, vMatch, h - 1, 2 * pos) + Under(txids, vMatch, h - 1, 2 * pos + 1)
              else Under(txids, vMatch, h - 1, 2 * pos)
  {
    var n := |txids|;
    Children(h, pos);
    NodeExists(n, h, pos);
    NodeExists(n, h - 1, 2 * pos + 1);
    if 2 * pos + 1 < Width(n, h - 1) {
      MatchedSplit(txids, vMatch, pos * Pow2(h), (2 * pos + 1) * Pow2(h - 1), Min(n, (pos + 1) * Pow2(h)));
    }
  }

  lemma UnderNone(txids: seq<Hash>, vMatch: seq<bool>, h: nat, pos: nat)
    requires |txids| == |vMatch|
    ensures Under(txids, vMatch, h, pos) == [] <==> !ParentOfMatch(vMatch, h, pos)
  {
    MatchedNone(txids, vMatch, pos * Pow2(h), Min(|txids|, (pos + 1) * Pow2(h)));
  }

  // -------------------------------------------------------------- round trip

  ghost predicate Distinct(txids: seq<Hash>) {
    forall i, j :: 0 <= i < j < |txids| ==> txids[i] != txids[j]
  }

  /** The pair hashed at an inner node. */
  function NodePair(H: Hasher, txids: seq<Hash>, h: nat, pos: nat): (Hash, Hash)
    requires h > 0 && pos < Width(|txids|, h)
  {
    ChildrenExist(|txids|, h, pos);
    var left := CalcHash(H, txids, h - 1, 2 * pos);
    (left, if 2 * pos + 1 < Width(|txids|, h - 1) then CalcHash(H, txids, h - 1, 2 * pos + 1) else left)
  }

  lemma NodePairHashed(H: Hasher, txids: seq<Hash>, h: nat, pos: nat)
    requires h > 0 && pos < Width(|txids|, h)
    ensures 2 * pos < Width(|txids|, h - 1) && NodePair(H, txids, h, pos).0 == CalcHash(H, txids, h - 1, 2 * pos)
    ensures var p := NodePair(H, txids, h, pos);
      p in TreePairs(H, txids, h, pos) && CalcHash(H, txids, h, pos) == H(p.0, p.1)
    ensures TreePairs(H, txids, h - 1, 2 * pos) <= TreePairs(H, txids, h, pos)
  {
    hide Width;
    ChildrenExist(|txids|, h, pos);
  }

  /** With distinct leaves, two nodes of one height have different hashes, or H collides inside the tree. */
  lemma {:induction false} SiblingsDiffer(H: Hasher, txids: seq<Hash>, h: nat, p: nat, q: nat)
    requires Distinct(txids) && p < q < Width(|txids|, h)
    ensures CalcHash(H, txids, h, p) != CalcHash(H, txids, h, q)
         || Collides(H, TreePairs(H, txids, h, p), TreePairs(H, txids, h, q))
    decreases h
  {
    hide Width, TreePairs, CalcHash, NodePair, Collides;
    if h == 0 {
      LeavesDiffer(H, txids, p, q);
    } else {
      NodePairHashed(H, txids, h, p);
      NodePairHashed(H, txids, h, q);
      SiblingsDiffer(H, txids, h - 1, 2 * p, 2 * q);
      var tp, tq := TreePairs(H, txids, h, p), TreePairs(H, txids, h, q);
      if NodePair(H, txids, h, p) == NodePair(H, txids, h, q) {
        Widen(H, TreePairs(H, txids, h - 1, 2 * p), TreePairs(H, txids, h - 1, 2 * q), tp, tq);
      } else {
        CollidesWith(H, tp, tq, NodePair(H, txids, h, p), NodePair(H, txids, h, q));
      }
    }
  }

  lemma LeavesDiffer(H: Hasher, txids: seq<Hash>, p: nat, q: nat)
    requires Distinct(txids) && p < q < Width(|txids|, 0)
    ensures CalcHash(H, txids, 0, p) != CalcHash(H, txids, 0, q)
  {
    NodeExists(|txids|, 0, q);
  }

  lemma CollidesWith(H: Hasher, a: set<(Hash, Hash)>, b: set<(Hash, Hash)>, p: (Hash, Hash), q: (Hash, Hash))
    requires p in a && q in b && p != q
    ensures H(p.0, p.1) == H(q.0, q.1) ==> Collides(H, a, b)
  {
  }
}
