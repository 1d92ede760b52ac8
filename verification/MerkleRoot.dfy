/**
  MerkleComputation of src/consensus/merkle.cpp: one pass over the leaves with one pending hash per
  level computes the root, the branch of a leaf and the flag for duplicated transactions that the tree
  built level by level has.
 */
module MerkleRoot {
  import opened Common
  import opened Merkle
  import opened Limbs

  // ------------------------------------------------------------ bits of count

  /** `c >> k` */
  function Shr(c: nat, k: nat): nat {
    if k == 0 then c else Shr(c, k - 1) / 2
  }

  /** `c & (1 << k)` is not zero. */
  predicate BitSet(c: nat, k: nat) {
    Shr(c, k) % 2 == 1
  }

  lemma {:induction false} ShrMono(a: nat, b: nat, k: nat)
    requires a <= b
    ensures Shr(a, k) <= Shr(b, k)
  {
    if k > 0 { ShrMono(a, b, k - 1); }
  }

  /** Above the lowest zero bit, one more changes nothing. */
  lemma {:induction false} SameAbove(a: nat, b: nat, l: nat, k: nat)
    requires l < k && Shr(a, l) % 2 == 0 && Shr(b, l) == Shr(a, l) + 1
    ensures Shr(a, k) == Shr(b, k)
    decreases k
  {
    if k > l + 1 { SameAbove(a, b, l, k - 1); }
  }

  lemma {:induction false} ShrTimes(w: nat, k: nat)
    ensures Shr(w * Pow2(k), k) == w
    decreases k
  {
    if k > 0 {
      assert w * Pow2(k) == (2 * w) * Pow2(k - 1) by { assert Pow2(k) == 2 * Pow2(k - 1); }
      ShrTimes(2 * w, k - 1);
    }
  }

  lemma {:induction false} ShrFits(c: nat, k: nat)
    ensures Shr(c, k) * Pow2(k) <= c
  {
    if k > 0 {
      ShrFits(c, k - 1);
      var q := Shr(c, k - 1);
      assert Pow2(k) == 2 * Pow2(k - 1);
      assert (q / 2) * (2 * Pow2(k - 1)) <= q * Pow2(k - 1);
    }
  }

  // ----------------------------------------------------------- nodes and rows

  /** Two neighbours make the node above them. */
  lemma PairUp<T>(hash2: (T, T) -> T, row: seq<T>, k: nat, m: nat)
    requires 2 * m + 1 < |Level(hash2, row, k)|
    ensures m < |Level(hash2, row, k + 1)|
    ensures Level(hash2, row, k + 1)[m] == hash2(Level(hash2, row, k)[2 * m], Level(hash2, row, k)[2 * m + 1])
  {
  }

  /** The last of an odd number of nodes is hashed with itself. */
  lemma AloneUp<T>(hash2: (T, T) -> T, row: seq<T>, k: nat, m: nat)
    requires 2 * m + 1 == |Level(hash2, row, k)|
    ensures m + 1 == |Level(hash2, row, k + 1)|
    ensures Level(hash2, row, k + 1)[m] == hash2(Level(hash2, row, k)[2 * m], Level(hash2, row, k)[2 * m])
  {
  }

  // ------------------------------------------------------ what the flag means

  /** Two full subtrees side by side have one hash. */
  ghost predicate Twin<T>(hash2: (T, T) -> T, row: seq<T>, k: nat, m: nat) {
    && 2 * m + 2 <= Shr(|row|, k) && 2 * m + 1 < |Level(hash2, row, k)|
    && Level(hash2, row, k)[2 * m] == Level(hash2, row, k)[2 * m + 1]
  }

  ghost predicate Mutated<T>(hash2: (T, T) -> T, row: seq<T>) {
    exists k: nat, m: nat :: Twin(hash2, row, k, m)
  }

  // ------------------------------------------------------------ the first pass

  /** For every set bit of count, the hash of the last full subtree of that size. */
  ghost predicate Pending<T>(hash2: (T, T) -> T, row: seq<T>, inner: seq<T>, count: nat) {
    && |inner| == 32
    && forall k :: 0 <= k < 32 && BitSet(count, k) ==>
         Shr(count, k) <= |Level(hash2, row, k)| && inner[k] == Level(hash2, row, k)[Shr(count, k) - 1]
  }

  /** Some twin lies within the first count leaves. */
  ghost predicate TwinWithin<T>(hash2: (T, T) -> T, row: seq<T>, count: nat) {
    exists k: nat, m: nat :: 2 * m + 2 <= Shr(count, k) && Twin(hash2, row, k, m)
  }

  /** The same, or the leaf at count ends a twin below level. */
  ghost predicate TwinBelow<T>(hash2: (T, T) -> T, row: seq<T>, count: nat, level: nat) {
    || TwinWithin(hash2, row, count)
    || exists k: nat :: k < level && BitSet(count, k) && Twin(hash2, row, k, Shr(count, k) / 2)
  }

  /** The node above leaf pos is in its row. */
  lemma {:induction false} PathInRow<T>(hash2: (T, T) -> T, row: seq<T>, pos: nat, k: nat)
    requires pos < |row|
    ensures Shr(pos, k) < |Level(hash2, row, k)|
  {
    hide Above;
    if k > 0 { PathInRow(hash2, row, pos, k - 1); }
  }

  /** The siblings on the first k steps from leaf pos. */
  function Path<T>(hash2: (T, T) -> T, row: seq<T>, pos: nat, k: nat): seq<T>
    requires pos < |row|
  {
    if k == 0 then []
    else
      PathInRow(hash2, row, pos, k - 1);
      Path(hash2, row, pos, k - 1) + [Sibling(Level(hash2, row, k - 1), Shr(pos, k - 1))]
  }

  /** Among the first count leaves, which pending hash depends on leaf pos, and its siblings up to there. */
  ghost predicate Followed<T>(hash2: (T, T) -> T, row: seq<T>, pos: nat, count: nat, matchlevel: int, branch: seq<T>) {
    if pos < count && pos < |row|
    then && 0 <= matchlevel && BitSet(count, matchlevel) && Shr(pos, matchlevel) == Shr(count, matchlevel) - 1
         && branch == Path(hash2, row, pos, matchlevel)
    else matchlevel == -1 && branch == []
  }

  /** While the leaf at count is combined: the hash h at level, and what is known of leaf pos. */
  ghost predicate Carrying<T>(hash2: (T, T) -> T, row: seq<T>, pos: nat, count: nat, matchlevel: int, branch: seq<T>,
                              level: nat, matchh: bool) {
    if matchh
    then pos <= count && pos < |row| && Shr(pos, level) == Shr(count, level)
         && branch == Path(hash2, row, pos, level)
    else pos != count && Followed(hash2, row, pos, count, matchlevel, branch)
         && (pos < count && pos < |row| ==> matchlevel >= level)
  }

  /** The sibling that joining a pending hash and h adds to the branch of a leaf below one of them. */
  function Extended<T>(branch: seq<T>, belowH: bool, belowPending: bool, pending: T, h: T): seq<T> {
    if belowH then branch + [pending] else if belowPending then branch + [h] else branch
  }

  lemma CarryStep<T>(hash2: (T, T) -> T, row: seq<T>, pos: nat, count: nat, matchlevel: int, branch: seq<T>,
                     level: nat, matchh: bool, pending: T, h: T)
    requires Carrying(hash2, row, pos, count, matchlevel, branch, level, matchh) && BitSet(count, level)
    requires Shr(count, level) < |Level(hash2, row, level)| && h == Level(hash2, row, level)[Shr(count, level)]
    requires pending == Level(hash2, row, level)[Shr(count, level) - 1]
    ensures Carrying(hash2, row, pos, count, matchlevel, Extended(branch, matchh, matchlevel == level, pending, h),
                     level + 1, matchh || matchlevel == level)
  {
    hide Level;
    assert Shr(count, level + 1) == Shr(count, level) / 2 && Shr(pos, level + 1) == Shr(pos, level) / 2;
  }

  lemma CarryEnds<T>(hash2: (T, T) -> T, row: seq<T>, pos: nat, count: nat, matchlevel: int, branch: seq<T>,
                     level: nat, matchh: bool)
    requires Carrying(hash2, row, pos, count, matchlevel, branch, level, matchh) && count < |row|
    requires !BitSet(count, level) && Shr(count + 1, level) == Shr(count, level) + 1
    ensures Followed(hash2, row, pos, count + 1, if matchh then level else matchlevel, branch)
  {
    hide Level;
    if !matchh && pos < count {
      SameAbove(count, count + 1, level, matchlevel);
    }
  }

  const MAX_LEAVES := 0x8000_0000

  /** A level of up to 2^31 leaves has a number below 32. */
  lemma LevelBelow32(c: nat, k: nat)
    requires c <= MAX_LEAVES && Shr(c, k) > 0
    ensures k < 32
  {
    hide Pow2;
    ShrFits(c, k);
    Pow2Of32();
    assert Shr(c, k) * Pow2(k) >= Pow2(k);
    if k >= 32 { Pow2Grows(32, k); }
  }

  lemma {:induction false} Pow2Grows(a: nat, b: nat)
    requires a <= b
    ensures Pow2(a) <= Pow2(b)
  {
    if a < b { Pow2Grows(a, b - 1); }
  }

  lemma Pow2Of32()
    ensures Pow2(32) == 0x1_0000_0000
  {
    assert Pow2(8) == 0x100;
    assert Pow2(16) == 0x1_0000;
    assert Pow2(24) == 0x100_0000;
  }

  lemma TwinHere<T>(hash2: (T, T) -> T, row: seq<T>, count: nat, level: nat)
    requires count < |row| && BitSet(count, level) && Shr(count + 1, level) == Shr(count, level) + 1
    requires Shr(count, level) < |Level(hash2, row, level)|
    ensures Twin(hash2, row, level, Shr(count, level) / 2) <==>
      Level(hash2, row, level)[Shr(count, level) - 1] == Level(hash2, row, level)[Shr(count, level)]
    ensures TwinBelow(hash2, row, count, level + 1) <==>
      TwinBelow(hash2, row, count, level) || Twin(hash2, row, level, Shr(count, level) / 2)
  {
    hide Level;
    ShrMono(count + 1, |row|, level);
    if TwinBelow(hash2, row, count, level + 1) && !TwinWithin(hash2, row, count) {
      var k: nat :| k < level + 1 && BitSet(count, k) && Twin(hash2, row, k, Shr(count, k) / 2);
    }
  }

  /** The twins within one more leaf are the old ones and those that this leaf ends. */
  lemma TwinsGrow<T>(hash2: (T, T) -> T, row: seq<T>, count: nat, level: nat)
    requires !BitSet(count, level) && Shr(count + 1, level) == Shr(count, level) + 1
    requires forall k :: 0 <= k < level ==> BitSet(count, k) && Shr(count + 1, k) == Shr(count, k) + 1
    ensures TwinWithin(hash2, row, count + 1) <==> TwinBelow(hash2, row, count, level)
  {
    hide Twin;
    if TwinWithin(hash2, row, count + 1) {
      var k: nat, m: nat :| 2 * m + 2 <= Shr(count + 1, k) && Twin(hash2, row, k, m);
      if k > level { SameAbove(count, count + 1, level, k); }
      if k < level && 2 * m + 2 > Shr(count, k) {
        assert m == Shr(count, k) / 2;
      }
    }
    if TwinWithin(hash2, row, count) {
      var k: nat, m: nat :| 2 * m + 2 <= Shr(count, k) && Twin(hash2, row, k, m);
      ShrMono(count, count + 1, k);
      assert 2 * m + 2 <= Shr(count + 1, k);
    } else if k: nat :| k < level && BitSet(count, k) && Twin(hash2, row, k, Shr(count, k) / 2) {
      var m := Shr(count, k) / 2;
      assert 2 * m + 2 <= Shr(count + 1, k);
    }
  }

  /** The state of the inner loop at a level. */
  ghost predicate Combining<T>(hash2: (T, T) -> T, row: seq<T>, pos: nat, count: nat, level: nat, h: T,
                               matchlevel: int, branch: seq<T>, matchh: bool, mutated: bool) {
    && count < |row| && Shr(count + 1, level) == Shr(count, level) + 1
    && (forall k :: 0 <= k < level ==> BitSet(count, k) && Shr(count + 1, k) == Shr(count, k) + 1)
    && Shr(count, level) < |Level(hash2, row, level)| && h == Level(hash2, row, level)[Shr(count, level)]
    && Carrying(hash2, row, pos, count, matchlevel, branch, level, matchh)
    && (mutated <==> TwinBelow(hash2, row, count, level))
  }

  lemma CombineStep<T>(hash2: (T, T) -> T, row: seq<T>, pos: nat, inner: seq<T>, count: nat, level: nat, h: T,
                       matchlevel: int, branch: seq<T>, matchh: bool, mutated: bool)
    requires Combining(hash2, row, pos, count, level, h, matchlevel, branch, matchh, mutated)
    requires !BitSet(count + 1, level) && Pending(hash2, row, inner, count) && |row| <= MAX_LEAVES
    ensures level < 32 && Shr(count + 1, level + 1) < Shr(count + 1, level)
    ensures Combining(hash2, row, pos, count, level + 1, hash2(inner[level], h), matchlevel,
                      Extended(branch, matchh, matchlevel == level, inner[level], h),
                      matchh || matchlevel == level, mutated || inner[level] == h)
  {
    hide Level, Carrying, Followed, TwinBelow, Twin, Pow2;
    LevelBelow32(count, level);
    CarryStep(hash2, row, pos, count, matchlevel, branch, level, matchh, inner[level], h);
    TwinHere(hash2, row, count, level);
    PairUp(hash2, row, level, Shr(count, level) / 2);
  }

  lemma CombineStart<T>(hash2: (T, T) -> T, row: seq<T>, pos: nat, count: nat, matchlevel: int, branch: seq<T>,
                        mutated: bool)
    requires count < |row| && Followed(hash2, row, pos, count, matchlevel, branch)
    requires mutated <==> TwinWithin(hash2, row, count)
    ensures Combining(hash2, row, pos, count, 0, row[count], matchlevel, branch, count == pos, mutated)
  {
    hide Followed, Carrying, TwinWithin, Twin;
    StartCarrying(hash2, row, pos, count, matchlevel, branch);
  }

  lemma CombineEnd<T>(hash2: (T, T) -> T, row: seq<T>, pos: nat, inner: seq<T>, count: nat, level: nat, h: T,
                      matchlevel: int, branch: seq<T>, matchh: bool, mutated: bool)
    requires Combining(hash2, row, pos, count, level, h, matchlevel, branch, matchh, mutated)
    requires BitSet(count + 1, level) && Pending(hash2, row, inner, count) && |row| <= MAX_LEAVES
    ensures level < 32 && Pending(hash2, row, inner[level := h], count + 1)
    ensures Followed(hash2, row, pos, count + 1, if matchh then level else matchlevel, branch)
    ensures mutated <==> TwinWithin(hash2, row, count + 1)
  {
    hide Level, Carrying, Followed, TwinBelow, Twin, Pow2, TwinWithin;
    LevelBelow32(count + 1, level);
    CarryEnds(hash2, row, pos, count, matchlevel, branch, level, matchh);
    TwinsGrow(hash2, row, count, level);
    PendingNext(hash2, row, inner, count, level, h);
  }

  /** The leaf at count joins the pending hashes: one step for each of the lower bits of count + 1 that are zero. */
  method AddLeaf<T(==)>(hash2: (T, T) -> T, leaves: seq<T>, branchpos: nat, count: nat, inner: array<T>,
                        matchlevelIn: int, branchIn: seq<T>, mutatedIn: bool)
    returns (matchlevel: int, branch: seq<T>, mutated: bool)
    requires count < |leaves| <= MAX_LEAVES && inner.Length == 32 && Pending(hash2, leaves, inner[..], count)
    requires Followed(hash2, leaves, branchpos, count, matchlevelIn, branchIn)
    requires mutatedIn <==> TwinWithin(hash2, leaves, count)
    modifies inner
    ensures Pending(hash2, leaves, inner[..], count + 1)
    ensures Followed(hash2, leaves, branchpos, count + 1, matchlevel, branch)
    ensures mutated <==> TwinWithin(hash2, leaves, count + 1)
  {
    hide Level, Followed, Combining, TwinWithin, Pending, Shr;
    matchlevel, branch, mutated := matchlevelIn, branchIn, mutatedIn;
    var h, matchh := leaves[count], count == branchpos;
    var level := 0;
    CombineStart(hash2, leaves, branchpos, count, matchlevel, branch, mutated);
    while !BitSet(count + 1, level)
      invariant Combining(hash2, leaves, branchpos, count, level, h, matchlevel, branch, matchh, mutated)
      invariant inner[..] == old(inner[..])
      decreases Shr(count + 1, level)
    {
      CombineStep(hash2, leaves, branchpos, inner[..], count, level, h, matchlevel, branch, matchh, mutated);
      if matchh {
        branch := branch + [inner[level]];
      } else if matchlevel == level {
        branch := branch + [h];
        matchh := true;
      }
      mutated := mutated || inner[level] == h;
      h := hash2(inner[level], h);
      level := level + 1;
    }
    CombineEnd(hash2, leaves, branchpos, inner[..], count, level, h, matchlevel, branch, matchh, mutated);
    inner[level] := h;
    assert inner[..] == old(inner[..])[level := h];
    if matchh {
      matchlevel := level;
    }
  }

  lemma StartCarrying<T>(hash2: (T, T) -> T, row: seq<T>, pos: nat, count: nat, matchlevel: int, branch: seq<T>)
    requires count < |row| && Followed(hash2, row, pos, count, matchlevel, branch)
    ensures Carrying(hash2, row, pos, count, matchlevel, branch, 0, count == pos)
    ensures Level(hash2, row, 0) == row
  {
  }

  lemma PendingNext<T>(hash2: (T, T) -> T, row: seq<T>, inner: seq<T>, count: nat, level: nat, h: T)
    requires Pending(hash2, row, inner, count) && level < 32
    requires !BitSet(count, level) && Shr(count + 1, level) == Shr(count, level) + 1
    requires forall k :: 0 <= k < level ==> BitSet(count, k) && Shr(count + 1, k) == Shr(count, k) + 1
    requires Shr(count, level) < |Level(hash2, row, level)| && h == Level(hash2, row, level)[Shr(count, level)]
    ensures Pending(hash2, row, inner[level := h], count + 1)
  {
    hide Level;
    forall k | 0 <= k < 32 && BitSet(count + 1, k)
      ensures Shr(count + 1, k) <= |Level(hash2, row, k)|
      ensures inner[level := h][k] == Level(hash2, row, k)[Shr(count + 1, k) - 1]
    {
      if k > level { SameAbove(count, count + 1, level, k); }
    }
  }

  // -------------------------------------------------------------- the sweep

  /** What is known of leaf pos while the right edge of the tree is completed at a level of w nodes. */
  ghost predicate Tracing<T>(hash2: (T, T) -> T, row: seq<T>, pos: nat, level: nat, matchlevel: int, branch: seq<T>,
                             matchh: bool) {
    var w := |Level(hash2, row, level)|;
    if pos >= |row| then matchlevel == -1 && branch == [] && !matchh
    else if matchh then Shr(pos, level) == w - 1 && branch == Path(hash2, row, pos, level)
    else
      && matchlevel >= level && (Shr(|row|, level) == w ==> matchlevel > level)
      && BitSet(|row|, matchlevel) && Shr(pos, matchlevel) == Shr(|row|, matchlevel) - 1
      && branch == Path(hash2, row, pos, matchlevel)
  }

  /** h is the last node of its level, and count is the number of leaves that full subtrees up to there would have. */
  ghost predicate Sweeping<T>(hash2: (T, T) -> T, row: seq<T>, pos: nat, count: nat, level: nat, h: T,
                              matchlevel: int, branch: seq<T>, matchh: bool) {
    var w := |Level(hash2, row, level)|;
    && w >= 1 && count == w * Pow2(level) && h == Level(hash2, row, level)[w - 1]
    && (Shr(|row|, level) == w - 1 || (Shr(|row|, level) == w && w % 2 == 1))
    && (level > 0 ==> |Level(hash2, row, level - 1)| > 1)
    && Tracing(hash2, row, pos, level, matchlevel, branch, matchh)
  }

  /** The tests on count are tests on the number of nodes. */
  lemma SweepTests(w: nat, count: nat, level: nat)
    requires count == w * Pow2(level)
    ensures (BitSet(count, level) <==> w % 2 == 1) && (count == Pow2(level) <==> w == 1)
  {
    ShrTimes(w, level);
    if w != 1 { OnlyOne(w, Pow2(level)); }
  }

  lemma OnlyOne(w: nat, p: nat)
    requires w != 1 && p > 0
    ensures w * p != p
  {
    if w > 1 { assert w * p >= 2 * p; }
  }

  lemma CountGrows(w: nat, level: nat)
    ensures w % 2 == 1 ==> w * Pow2(level) + Pow2(level) == ((w + 1) / 2) * Pow2(level + 1)
    ensures w % 2 == 0 ==> w * Pow2(level) == (w / 2) * Pow2(level + 1)
  {
    Pow2Double(level);
    var p := Pow2(level);
    assert w * p + p == (w + 1) * p;
    if w % 2 == 1 { assert w + 1 == 2 * ((w + 1) / 2); } else { assert w == 2 * (w / 2); }
  }

  lemma TraceAlone<T>(hash2: (T, T) -> T, row: seq<T>, pos: nat, level: nat, matchlevel: int, branch: seq<T>,
                      matchh: bool, h: T)
    requires Tracing(hash2, row, pos, level, matchlevel, branch, matchh)
    requires var w := |Level(hash2, row, level)|;
      && w % 2 == 1 && h == Level(hash2, row, level)[w - 1]
      && (Shr(|row|, level) == w || Shr(|row|, level) == w - 1)
    requires |Level(hash2, row, level + 1)| == (|Level(hash2, row, level)| + 1) / 2
    ensures Tracing(hash2, row, pos, level + 1, matchlevel, if matchh then branch + [h] else branch, matchh)
  {
    hide Level;
    assert Shr(pos, level + 1) == Shr(pos, level) / 2 && Shr(|row|, level + 1) == Shr(|row|, level) / 2;
  }

  lemma TracePair<T>(hash2: (T, T) -> T, row: seq<T>, pos: nat, level: nat, matchlevel: int, branch: seq<T>,
                     matchh: bool, pending: T, h: T)
    requires Tracing(hash2, row, pos, level, matchlevel, branch, matchh)
    requires var w := |Level(hash2, row, level)|;
      && w >= 2 && w % 2 == 0 && h == Level(hash2, row, level)[w - 1] && pending == Level(hash2, row, level)[w - 2]
      && Shr(|row|, level) == w - 1
    requires |Level(hash2, row, level + 1)| == |Level(hash2, row, level)| / 2
    ensures Tracing(hash2, row, pos, level + 1, matchlevel,
                    Extended(branch, matchh, matchlevel == level, pending, h), matchh || matchlevel == level)
  {
    hide Level;
    assert Shr(pos, level + 1) == Shr(pos, level) / 2 && Shr(|row|, level + 1) == Shr(|row|, level) / 2;
  }

  lemma SweepAlone<T>(hash2: (T, T) -> T, row: seq<T>, pos: nat, count: nat, level: nat, h: T, matchlevel: int,
                      branch: seq<T>, matchh: bool)
    requires Sweeping(hash2, row, pos, count, level, h, matchlevel, branch, matchh)
    requires BitSet(count, level) && count != Pow2(level)
    ensures Sweeping(hash2, row, pos, count + Pow2(level), level + 1, hash2(h, h), matchlevel,
                     if matchh then branch + [h] else branch, matchh)
    ensures |Level(hash2, row, level + 1)| < |Level(hash2, row, level)|
  {
    hide Level, Tracing, Pow2;
    var w := |Level(hash2, row, level)|;
    SweepTests(w, count, level);
    CountGrows(w, level);
    AloneUp(hash2, row, level, w / 2);
    TraceAlone(hash2, row, pos, level, matchlevel, branch, matchh, h);
  }

  lemma SweepPair<T>(hash2: (T, T) -> T, row: seq<T>, pos: nat, inner: seq<T>, count: nat, level: nat, h: T,
                     matchlevel: int, branch: seq<T>, matchh: bool)
    requires Sweeping(hash2, row, pos, count, level, h, matchlevel, branch, matchh)
    requires !BitSet(count, level) && Pending(hash2, row, inner, |row|) && |row| <= MAX_LEAVES
    ensures level < 32 && |Level(hash2, row, level + 1)| < |Level(hash2, row, level)|
    ensures Sweeping(hash2, row, pos, count, level + 1, hash2(inner[level], h), matchlevel,
                     Extended(branch, matchh, matchlevel == level, inner[level], h), matchh || matchlevel == level)
  {
    hide Level, Tracing, Pow2;
    var w := |Level(hash2, row, level)|;
    SweepTests(w, count, level);
    CountGrows(w, level);
    LevelBelow32(|row|, level);
    PairUp(hash2, row, level, w / 2 - 1);
    HalfLevel(hash2, row, level);
    TracePair(hash2, row, pos, level, matchlevel, branch, matchh, inner[level], h);
  }

  lemma HalfLevel<T>(hash2: (T, T) -> T, row: seq<T>, level: nat)
    ensures |Level(hash2, row, level + 1)| == (|Level(hash2, row, level)| + 1) / 2
  {
    hide Above;
  }

  /** No bit of |row| below level is set: its rows are full up to there. */
  ghost predicate Full<T>(hash2: (T, T) -> T, row: seq<T>, level: nat) {
    && |Level(hash2, row, level)| == Shr(|row|, level) && |row| == Shr(|row|, level) * Pow2(level)
    && (level > 0 ==> |Level(hash2, row, level - 1)| > 1)
  }

  lemma FullUp<T>(hash2: (T, T) -> T, row: seq<T>, level: nat)
    requires Full(hash2, row, level) && !BitSet(|row|, level) && |row| > 0
    ensures Full(hash2, row, level + 1) && Shr(|row|, level + 1) < Shr(|row|, level)
  {
    hide Level, Pow2;
    HalfLevel(hash2, row, level);
    CountGrows(Shr(|row|, level), level);
  }

  lemma SweepStart<T>(hash2: (T, T) -> T, row: seq<T>, pos: nat, inner: seq<T>, level: nat, matchlevel: int,
                      branch: seq<T>)
    requires Full(hash2, row, level) && BitSet(|row|, level) && Pending(hash2, row, inner, |row|)
    requires |row| <= MAX_LEAVES && Followed(hash2, row, pos, |row|, matchlevel, branch)
    requires forall k :: 0 <= k < level ==> !BitSet(|row|, k)
    ensures level < 32
    ensures Sweeping(hash2, row, pos, |row|, level, inner[level], matchlevel, branch, matchlevel == level)
  {
    hide Level, Pow2;
    LevelBelow32(|row|, level);
  }

  lemma SweepEnd<T>(hash2: (T, T) -> T, row: seq<T>, pos: nat, count: nat, level: nat, h: T, matchlevel: int,
                    branch: seq<T>, matchh: bool)
    requires row != [] && Sweeping(hash2, row, pos, count, level, h, matchlevel, branch, matchh)
    requires count == Pow2(level)
    ensures h == Root(hash2, row)
    ensures branch == if pos < |row| then Branch(hash2, row, pos) else []
  {
    hide Level, Pow2, Root, Branch;
    SweepTests(|Level(hash2, row, level)|, count, level);
    RootIsTop(hash2, row, level);
    if pos < |row| {
      if !matchh { Nothing(|row|, level, matchlevel); }
      PathIsBranch(hash2, row, pos, level);
    }
  }

  lemma {:induction false} Nothing(n: nat, level: nat, k: nat)
    requires Shr(n, level) <= 1 && k >= level && (Shr(n, level) == 1 ==> k > level)
    ensures Shr(n, k) == 0
  {
    if k > level {
      if k > level + 1 || Shr(n, level) == 0 { Nothing(n, level, k - 1); }
    }
  }

  lemma {:induction false} ShrHalf(c: nat, k: nat)
    ensures Shr(c, k + 1) == Shr(c / 2, k)
  {
    if k > 0 { ShrHalf(c, k - 1); }
  }

  lemma {:induction false} PathFromAbove<T>(hash2: (T, T) -> T, row: seq<T>, pos: nat, k: nat)
    requires pos < |row|
    ensures pos / 2 < |Above(hash2, row)|
    ensures Path(hash2, row, pos, k + 1) == [Sibling(row, pos)] + Path(hash2, Above(hash2, row), pos / 2, k)
  {
    hide Above, Sibling, Path, Level, Shr;
    var up := Above(hash2, row);
    PathUnfold(hash2, row, pos, k + 1);
    PathUnfold(hash2, up, pos / 2, k);
    if k == 0 {
      PathUnfold(hash2, row, pos, 0);
      assert [] + [Sibling(row, pos)] == [Sibling(row, pos)] + [];
    } else {
      PathFromAbove(hash2, row, pos, k - 1);
      LevelFromAbove(hash2, row, k - 1);
      ShrHalf(pos, k - 1);
    }
  }

  lemma PathUnfold<T>(hash2: (T, T) -> T, row: seq<T>, pos: nat, k: nat)
    requires pos < |row|
    ensures k == 0 ==> Path(hash2, row, pos, k) == []
    ensures k > 0 ==>
      && Shr(pos, k - 1) < |Level(hash2, row, k - 1)|
      && Path(hash2, row, pos, k) == Path(hash2, row, pos, k - 1) + [Sibling(Level(hash2, row, k - 1), Shr(pos, k - 1))]
    ensures Level(hash2, row, 0) == row && Shr(pos, 0) == pos
  {
    hide Above, Sibling;
    if k > 0 { PathInRow(hash2, row, pos, k - 1); }
  }

  lemma {:induction false} PathIsBranch<T>(hash2: (T, T) -> T, row: seq<T>, pos: nat, k: nat)
    requires pos < |row| && |Level(hash2, row, k)| == 1 && (k > 0 ==> |Level(hash2, row, k - 1)| > 1)
    ensures Path(hash2, row, pos, k) == Branch(hash2, row, pos)
    decreases k
  {
    hide Above, Sibling, Level;
    LevelStep(hash2, row);
    if k > 0 {
      SingleStays(hash2, row, k - 1);
      PathFromAbove(hash2, row, pos, k - 1);
      LevelFromAbove(hash2, row, k - 1);
      if k > 1 { LevelFromAbove(hash2, row, k - 2); }
      PathIsBranch(hash2, Above(hash2, row), pos / 2, k - 1);
    }
  }

  /**
    MerkleComputation: for up to 2^31 leaves, the root of the Merkle tree, the branch of leaf branchpos if
    there is such a leaf, and whether two full subtrees side by side have one hash.
   */
  method MerkleComputation<T(==)>(hash2: (T, T) -> T, zero: T, leaves: seq<T>, branchpos: nat)
    returns (root: T, mutated: bool, branch: seq<T>)
    requires |leaves| <= MAX_LEAVES
    ensures root == if leaves == [] then zero else Root(hash2, leaves)
    ensures mutated <==> Mutated(hash2, leaves)
    ensures branch == if branchpos < |leaves| then Branch(hash2, leaves, branchpos) else []
  {
    hide Root, Branch, Level, Pending, Followed, Twin, Sweeping, Full, Shr, Pow2;
    if leaves == [] {
      NoTwin(hash2, leaves);
      return zero, false, [];
    }
    mutated, branch := false, [];
    var count, matchlevel := 0, -1;
    var inner := new T[32](_ => leaves[0]);
    NothingPending(hash2, leaves, branchpos, inner[..]);
    while count < |leaves|
      invariant 0 <= count <= |leaves| && Pending(hash2, leaves, inner[..], count)
      invariant Followed(hash2, leaves, branchpos, count, matchlevel, branch)
      invariant mutated <==> TwinWithin(hash2, leaves, count)
    {
      matchlevel, branch, mutated := AddLeaf(hash2, leaves, branchpos, count, inner, matchlevel, branch, mutated);
      count := count + 1;
    }
    AllWithin(hash2, leaves);
    root, branch := Sweep(hash2, leaves, branchpos, count, inner, matchlevel, branch);
  }

  /** The final sweep over the right edge of the tree. */
  method Sweep<T>(hash2: (T, T) -> T, ghost leaves: seq<T>, ghost branchpos: nat, countIn: nat, inner: array<T>,
                  matchlevel: int, branchIn: seq<T>)
    returns (h: T, branch: seq<T>)
    requires 0 < countIn == |leaves| <= MAX_LEAVES && inner.Length == 32 && Pending(hash2, leaves, inner[..], |leaves|)
    requires Followed(hash2, leaves, branchpos, |leaves|, matchlevel, branchIn)
    ensures h == Root(hash2, leaves)
    ensures branch == if branchpos < |leaves| then Branch(hash2, leaves, branchpos) else []
  {
    hide Root, Branch, Level, Pending, Followed, Sweeping, Full, Shr, Pow2, BitSet;
    var count: nat, level: nat := countIn, 0;
    branch := branchIn;
    FullAtFirst(hash2, leaves);
    while !BitSet(count, level)
      invariant Full(hash2, leaves, level) && forall k :: 0 <= k < level ==> !BitSet(count, k)
      decreases Shr(count, level)
    {
      FullUp(hash2, leaves, level);
      level := level + 1;
    }
    SweepStart(hash2, leaves, branchpos, inner[..], level, matchlevel, branch);
    h := inner[level];
    var matchh := matchlevel == level;
    while count != Pow2(level)
      invariant Sweeping(hash2, leaves, branchpos, count, level, h, matchlevel, branch, matchh)
      invariant BitSet(count, level) && count <= MAX_LEAVES
      decreases |Level(hash2, leaves, level)|
    {
      ghost var w := |Level(hash2, leaves, level)|;
      SweepAlone(hash2, leaves, branchpos, count, level, h, matchlevel, branch, matchh);
      NoWrap(hash2, leaves, branchpos, count, level, h, matchlevel, branch, matchh);
      if matchh {
        branch := branch + [h];
      }
      h := hash2(h, h);
      count := count + Pow2(level);
      level := level + 1;
      while !BitSet(count, level)
        invariant Sweeping(hash2, leaves, branchpos, count, level, h, matchlevel, branch, matchh)
        invariant |Level(hash2, leaves, level)| < w
        decreases |Level(hash2, leaves, level)|
      {
        SweepPair(hash2, leaves, branchpos, inner[..], count, level, h, matchlevel, branch, matchh);
        if matchh {
          branch := branch + [inner[level]];
        } else if matchlevel == level {
          branch := branch + [h];
          matchh := true;
        }
        h := hash2(inner[level], h);
        level := level + 1;
      }
    }
    SweepEnd(hash2, leaves, branchpos, count, level, h, matchlevel, branch, matchh);
  }

  lemma FullAtFirst<T>(hash2: (T, T) -> T, row: seq<T>)
    ensures Full(hash2, row, 0)
  {
  }

  /** Up to 2^31 leaves, count stays within 32 bits. */
  lemma NoWrap<T>(hash2: (T, T) -> T, row: seq<T>, pos: nat, count: nat, level: nat, h: T, matchlevel: int,
                  branch: seq<T>, matchh: bool)
    requires Sweeping(hash2, row, pos, count, level, h, matchlevel, branch, matchh)
    requires BitSet(count, level) && count != Pow2(level) && count <= MAX_LEAVES
    ensures count + Pow2(level) <= MAX_LEAVES
  {
    hide Level, Tracing, Pow2;
    var w := |Level(hash2, row, level)|;
    SweepTests(w, count, level);
    Rounded(w, level);
  }

  lemma Rounded(w: nat, level: nat)
    requires w % 2 == 1 && w > 1 && w * Pow2(level) <= MAX_LEAVES
    ensures w * Pow2(level) + Pow2(level) <= MAX_LEAVES
  {
    hide Pow2;
    LevelBelow31(w, level);
    Pow2Double(31);
    Pow2Of32();
    Pow2Add(level, 31 - level);
    Pow2Double(30 - level);
    NextEven(w, Pow2(31 - level), Pow2(30 - level), Pow2(level));
  }

  lemma LevelBelow31(w: nat, level: nat)
    requires w > 1 && w * Pow2(level) <= MAX_LEAVES
    ensures level < 31
  {
    hide Pow2;
    assert 2 * Pow2(level) <= w * Pow2(level);
    Pow2Double(31);
    Pow2Of32();
    if level >= 31 { Pow2Grows(31, level); }
  }

  lemma NextEven(w: nat, q: nat, half: nat, p: nat)
    requires w % 2 == 1 && q == 2 * half && p > 0 && w * p <= p * q
    ensures w * p + p <= p * q
  {
    if w > q { MulMono(q + 1, w, p); }
    assert (w + 1) * p <= q * p;
  }

  lemma NoTwin<T>(hash2: (T, T) -> T, row: seq<T>)
    requires row == []
    ensures !Mutated(hash2, row)
  {
    if k: nat, m: nat :| Twin(hash2, row, k, m) { Nothing(0, 0, k); }
  }

  lemma NothingPending<T>(hash2: (T, T) -> T, row: seq<T>, pos: nat, inner: seq<T>)
    requires |inner| == 32
    ensures Pending(hash2, row, inner, 0) && Followed(hash2, row, pos, 0, -1, []) && !TwinWithin(hash2, row, 0)
  {
    forall k | 0 <= k < 32 ensures !BitSet(0, k) { Nothing(0, 0, k); }
    if k: nat, m: nat :| 2 * m + 2 <= Shr(0, k) && Twin(hash2, row, k, m) { Nothing(0, 0, k); }
  }

  lemma AllWithin<T>(hash2: (T, T) -> T, row: seq<T>)
    ensures TwinWithin(hash2, row, |row|) <==> Mutated(hash2, row)
  {
    if k: nat, m: nat :| Twin(hash2, row, k, m) { assert 2 * m + 2 <= Shr(|row|, k); }
  }
}
