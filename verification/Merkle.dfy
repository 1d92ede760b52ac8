/**
  The Merkle tree of a list, level by level from left to right (src/consensus/merkle.cpp describes the
  same tree): neighbours are hashed in pairs, the last of an odd number with itself, until one hash is left.
 */
module Merkle {
  import opened Common

  /** The level above: the i-th node is the hash of nodes 2i and 2i + 1, in this order. */
  function Above<T>(hash2: (T, T) -> T, row: seq<T>): (r: seq<T>)
    ensures |r| == (|row| + 1) / 2
    ensures forall i :: 0 <= i < |r| ==>
      r[i] == hash2(row[2 * i], if 2 * i + 1 < |row| then row[2 * i + 1] else row[2 * i])
  {
    seq((|row| + 1) / 2, i requires 0 <= i < (|row| + 1) / 2 =>
      hash2(row[2 * i], if 2 * i + 1 < |row| then row[2 * i + 1] else row[2 * i]))
  }

  function Root<T>(hash2: (T, T) -> T, row: seq<T>): T
    requires row != []
    decreases |row|
  {
    if |row| == 1 then row[0] else Root(hash2, Above(hash2, row))
  }

  /** The neighbour a node is hashed with. */
  function Sibling<T>(row: seq<T>, i: nat): T
    requires i < |row|
  {
    if i % 2 == 1 then row[i - 1] else if i + 1 < |row| then row[i + 1] else row[i]
  }

  /** The siblings on the path from leaf i to the root. */
  function Branch<T>(hash2: (T, T) -> T, row: seq<T>, i: nat): seq<T>
    requires i < |row|
    decreases |row|
  {
    if |row| == 1 then [] else [Sibling(row, i)] + Branch(hash2, Above(hash2, row), i / 2)
  }

  /** The level at height k. */
  function Level<T>(hash2: (T, T) -> T, row: seq<T>, k: nat): seq<T> {
    if k == 0 then row else Above(hash2, Level(hash2, row, k - 1))
  }

  lemma {:induction false} LevelFromAbove<T>(hash2: (T, T) -> T, row: seq<T>, k: nat)
    ensures Level(hash2, row, k + 1) == Level(hash2, Above(hash2, row), k)
  {
    if k > 0 { LevelFromAbove(hash2, row, k - 1); }
  }

  lemma LevelStep<T>(hash2: (T, T) -> T, row: seq<T>)
    ensures Level(hash2, row, 0) == row
    ensures row != [] ==> Above(hash2, row) != []
    ensures |row| > 1 ==> Root(hash2, row) == Root(hash2, Above(hash2, row))
    ensures |row| == 1 ==> Root(hash2, row) == row[0]
  {
    hide Above;
  }

  /** The root is the only node of the first level that has but one. */
  lemma {:induction false} RootIsTop<T>(hash2: (T, T) -> T, row: seq<T>, k: nat)
    requires row != [] && |Level(hash2, row, k)| == 1 && (k > 0 ==> |Level(hash2, row, k - 1)| > 1)
    ensures Root(hash2, row) == Level(hash2, row, k)[0]
    decreases k
  {
    hide Above, Level, Root;
    LevelStep(hash2, row);
    if k > 0 {
      SingleStays(hash2, row, k - 1);
      LevelFromAbove(hash2, row, k - 1);
      if k > 1 { LevelFromAbove(hash2, row, k - 2); }
      RootIsTop(hash2, Above(hash2, row), k - 1);
    }
  }

  lemma {:induction false} SingleStays<T>(hash2: (T, T) -> T, row: seq<T>, k: nat)
    ensures |row| == 1 ==> |Level(hash2, row, k)| == 1
  {
    hide Above;
    if k > 0 { SingleStays(hash2, row, k - 1); }
  }

  /** A full tree has branches as long as it is high. */
  lemma {:induction false} BranchLength<T>(hash2: (T, T) -> T, row: seq<T>, i: nat, h: nat)
    requires |row| == Pow2(h) && i < |row|
    ensures |Branch(hash2, row, i)| == h
    decreases h
  {
    hide Above, Pow2, Branch;
    BranchStep(hash2, row, i);
    Pow2Double(if h == 0 then 0 else h - 1);
    if h > 0 {
      Half(|row|, i, Pow2(h - 1));
      BranchLength(hash2, Above(hash2, row), i / 2, h - 1);
    }
  }

  lemma Half(n: nat, i: nat, m: nat)
    requires n == 2 * m && m > 0 && i < n
    ensures (n + 1) / 2 == m && i / 2 < m && n > 1
  {
  }

  lemma BranchStep<T>(hash2: (T, T) -> T, row: seq<T>, i: nat)
    requires i < |row|
    ensures |row| == 1 ==> Branch(hash2, row, i) == []
    ensures |row| > 1 ==>
      i / 2 < |Above(hash2, row)| && |Branch(hash2, row, i)| == 1 + |Branch(hash2, Above(hash2, row), i / 2)|
  {
    hide Above, Sibling;
  }
}
