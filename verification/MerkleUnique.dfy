/**
  What the flag of MerkleComputation is for: among lists of one height that are not flagged, a root
  belongs to one list, unless two pairs collide.
 */
module MerkleUnique {
  import opened Common
  import opened Merkle
  import opened MerkleRoot

  // ---------------------------------------------------------- lists in two parts

  lemma AboveSplit<T>(hash2: (T, T) -> T, a: seq<T>, b: seq<T>)
    requires |a| % 2 == 0
    ensures Above(hash2, a + b) == Above(hash2, a) + Above(hash2, b)
  {
    hide Above;
    var n := |a| / 2;
    forall i | 0 <= i < n + (|b| + 1) / 2
      ensures Above(hash2, a + b)[i] == (Above(hash2, a) + Above(hash2, b))[i]
    {
      if i < n { AboveFirst(hash2, a, b, i); } else { AboveSecond(hash2, a, b, n, i - n); }
    }
  }

  lemma AboveFirst<T>(hash2: (T, T) -> T, a: seq<T>, b: seq<T>, i: nat)
    requires 2 * i + 1 < |a|
    ensures Above(hash2, a + b)[i] == Above(hash2, a)[i]
  {
    hide Above;
    var x := a + b;
    assert x[2 * i] == a[2 * i] && x[2 * i + 1] == a[2 * i + 1];
  }

  lemma AboveSecond<T>(hash2: (T, T) -> T, a: seq<T>, b: seq<T>, n: nat, i: nat)
    requires |a| == 2 * n && 2 * i < |b|
    ensures Above(hash2, a + b)[n + i] == Above(hash2, b)[i]
  {
    hide Above;
    var x, j := a + b, n + i;
    assert x[2 * j] == b[2 * i];
    if 2 * i + 1 < |b| { assert x[2 * j + 1] == b[2 * i + 1]; }
  }

  /** A first part of full subtrees is a row of its own at every level up to theirs. */
  lemma {:induction false} LevelSplit<T>(hash2: (T, T) -> T, a: seq<T>, b: seq<T>, c: nat, k: nat)
    requires |a| == c * Pow2(k)
    ensures |Level(hash2, a, k)| == c
    ensures Level(hash2, a + b, k) == Level(hash2, a, k) + Level(hash2, b, k)
    decreases k
  {
    hide Above, Pow2;
    if k == 0 {
      Pow2Double(0);
    } else {
      Pow2Double(k - 1);
      assert |a| == (2 * c) * Pow2(k - 1);
      LevelSplit(hash2, a, b, 2 * c, k - 1);
      AboveSplit(hash2, Level(hash2, a, k - 1), Level(hash2, b, k - 1));
    }
  }

  lemma {:induction false} ShrAdd(c: nat, r: nat, k: nat)
    ensures Shr(c * Pow2(k) + r, k) == c + Shr(r, k)
    decreases k
  {
    hide Pow2;
    if k == 0 {
      Pow2Double(0);
    } else {
      assert c * Pow2(k) == (2 * c) * Pow2(k - 1) by { Pow2Double(k - 1); }
      ShrAdd(2 * c, r, k - 1);
    }
  }

  /** Only below its own height has a full tree two nodes in a row. */
  lemma {:induction false} FullHeight(h: nat, k: nat)
    requires Shr(Pow2(h), k) >= 2
    ensures k < h
    decreases k
  {
    if k >= h {
      ShrTimes(1, h);
      Below(Pow2(h), h, k);
    }
  }

  lemma {:induction false} Below(c: nat, h: nat, k: nat)
    requires Shr(c, h) <= 1 && k >= h
    ensures Shr(c, k) <= 1
  {
    if k > h { Below(c, h, k - 1); }
  }

  /** Splitting a row at a full subtree of height h: where twins of either part are in the whole. */
  lemma Parts<T>(hash2: (T, T) -> T, a: seq<T>, b: seq<T>, h: nat, k: nat)
    requires |a| == Pow2(h) && k < h
    ensures |Level(hash2, a, k)| == 2 * Pow2(h - k - 1)
    ensures Level(hash2, a + b, k) == Level(hash2, a, k) + Level(hash2, b, k)
    ensures Shr(|a + b|, k) == 2 * Pow2(h - k - 1) + Shr(|b|, k)
  {
    hide Pow2, Level, Shr;
    var c := 2 * Pow2(h - k - 1);
    PowSplit(h, k);
    LevelSplit(hash2, a, b, c, k);
    ShrAdd(c, |b|, k);
  }

  lemma {:induction false} PowSplit(h: nat, k: nat)
    requires k < h
    ensures Pow2(h) == 2 * Pow2(h - k - 1) * Pow2(k)
    decreases k
  {
    if k > 0 {
      PowSplit(h, k - 1);
      var p, q := Pow2(h - k - 1), Pow2(k - 1);
      assert Pow2(h - k) == 2 * p && Pow2(k) == 2 * q;
      assert 2 * (2 * p) * q == 2 * p * (2 * q);
    }
  }

  lemma TwinOfFirst<T>(hash2: (T, T) -> T, a: seq<T>, b: seq<T>, h: nat)
    requires |a| == Pow2(h) && Mutated(hash2, a)
    ensures Mutated(hash2, a + b)
  {
    hide Level, Pow2, Shr;
    var k: nat, m: nat :| Twin(hash2, a, k, m);
    FullHeight(h, k);
    Parts(hash2, a, b, h, k);
    ShrMono(|a|, |a + b|, k);
    assert Twin(hash2, a + b, k, m);
  }

  lemma TwinOfSecond<T>(hash2: (T, T) -> T, a: seq<T>, b: seq<T>, h: nat)
    requires |a| == Pow2(h) && |b| <= Pow2(h) && Mutated(hash2, b)
    ensures Mutated(hash2, a + b)
  {
    hide Level, Pow2, Shr;
    var k: nat, m: nat :| Twin(hash2, b, k, m);
    ShrMono(|b|, Pow2(h), k);
    FullHeight(h, k);
    Parts(hash2, a, b, h, k);
    assert Twin(hash2, a + b, k, m + Pow2(h - k - 1));
  }

  // ------------------------------------------------------------- the top node

  lemma {:induction false} NarrowLevel<T>(hash2: (T, T) -> T, row: seq<T>, h: nat, k: nat)
    requires row != [] && k <= h && |row| <= Pow2(h)
    ensures 1 <= |Level(hash2, row, k)| <= Pow2(h - k)
    decreases k
  {
    hide Above, Pow2;
    if k > 0 {
      NarrowLevel(hash2, row, h, k - 1);
      Pow2Double(h - k);
    }
  }

  /** The hash of a list as a tree of height h, repeating where leaves are missing. */
  function Top<T>(hash2: (T, T) -> T, row: seq<T>, h: nat): T
    requires row != [] && |row| <= Pow2(h)
  {
    NarrowLevel(hash2, row, h, h);
    Level(hash2, row, h)[0]
  }

  /** The two halves of a tree of height h; a missing right half repeats the left one. */
  function Half<T>(row: seq<T>, h: nat, right: bool): (r: seq<T>)
    requires h > 0 && row != [] && |row| <= Pow2(h)
    ensures r != [] && |r| <= Pow2(h - 1)
  {
    var m := Pow2(h - 1);
    assert Pow2(h) == 2 * m;
    if |row| <= m then row else if right then row[m..] else row[..m]
  }

  lemma TopOfHalves<T>(hash2: (T, T) -> T, row: seq<T>, h: nat)
    requires h > 0 && row != [] && |row| <= Pow2(h)
    ensures Top(hash2, row, h) == hash2(Top(hash2, Half(row, h, false), h - 1), Top(hash2, Half(row, h, true), h - 1))
  {
    hide Above, Pow2;
    var m := Pow2(h - 1);
    NarrowLevel(hash2, row, h, h);
    if |row| <= m {
      NarrowLevel(hash2, row, h - 1, h - 1);
      Pow2Double(0);
      AloneUp(hash2, row, h - 1, 0);
    } else {
      var a, b := row[..m], row[m..];
      assert row == a + b;
      LevelSplit(hash2, a, b, 1, h - 1);
      Pow2Double(h - 1);
      NarrowLevel(hash2, b, h - 1, h - 1);
      PairUp(hash2, row, h - 1, 0);
    }
  }

  /** Two different pairs with one hash. */
  ghost predicate Collision<T>(hash2: (T, T) -> T, p: (T, T), q: (T, T)) {
    p != q && hash2(p.0, p.1) == hash2(q.0, q.1)
  }

  /** A flagged half flags the whole; so do two equal halves. */
  lemma HalvesFlag<T>(hash2: (T, T) -> T, row: seq<T>, h: nat)
    requires h > 0 && row != [] && |row| <= Pow2(h)
    ensures Mutated(hash2, Half(row, h, false)) || Mutated(hash2, Half(row, h, true)) ==> Mutated(hash2, row)
    ensures |row| > Pow2(h - 1) && Half(row, h, false) == Half(row, h, true) ==> Mutated(hash2, row)
  {
    hide Pow2, Mutated;
    var m := Pow2(h - 1);
    Pow2Double(h - 1);
    if |row| > m {
      var a, b := row[..m], row[m..];
      assert row == a + b;
      if Mutated(hash2, a) { TwinOfFirst(hash2, a, b, h - 1); }
      if Mutated(hash2, b) { TwinOfSecond(hash2, a, b, h - 1); }
      if a == b { EqualHalves(hash2, a, h - 1); }
    }
  }

  lemma EqualHalves<T>(hash2: (T, T) -> T, a: seq<T>, h: nat)
    requires |a| == Pow2(h)
    ensures Mutated(hash2, a + a)
  {
    hide Pow2, Level;
    LevelSplit(hash2, a, a, 1, h);
    ShrAdd(1, |a|, h);
    ShrTimes(1, h);
    assert Twin(hash2, a + a, h, 0);
  }

  /** Two lists with one hash at one height are the same, or one is flagged, or here are two pairs that collide. */
  lemma {:induction false} SameTop<T>(hash2: (T, T) -> T, x: seq<T>, y: seq<T>, h: nat) returns (p: (T, T), q: (T, T))
    requires x != [] && y != [] && |x| <= Pow2(h) && |y| <= Pow2(h) && Top(hash2, x, h) == Top(hash2, y, h)
    ensures x == y || Mutated(hash2, x) || Mutated(hash2, y) || Collision(hash2, p, q)
    decreases h
  {
    hide Pow2, Mutated, Top;
    if h == 0 {
      TopOfLeaf(hash2, x);
      TopOfLeaf(hash2, y);
      p, q := (x[0], x[0]), (y[0], y[0]);
    } else {
      var xl, xr, yl, yr := Half(x, h, false), Half(x, h, true), Half(y, h, false), Half(y, h, true);
      TopOfHalves(hash2, x, h);
      TopOfHalves(hash2, y, h);
      HalvesFlag(hash2, x, h);
      HalvesFlag(hash2, y, h);
      p, q := (Top(hash2, xl, h - 1), Top(hash2, xr, h - 1)), (Top(hash2, yl, h - 1), Top(hash2, yr, h - 1));
      if p == q {
        if |x| > Pow2(h - 1) && |y| <= Pow2(h - 1) {
          p, q := SameTop(hash2, xl, xr, h - 1);
        } else if |y| > Pow2(h - 1) && |x| <= Pow2(h - 1) {
          p, q := SameTop(hash2, yl, yr, h - 1);
        } else {
          p, q := SameTop(hash2, xl, yl, h - 1);
          if xl == yl && !Mutated(hash2, x) && !Mutated(hash2, y) {
            p, q := SameTop(hash2, xr, yr, h - 1);
            HalvesMake(x, y, h);
          }
        }
      }
    }
  }

  lemma TopOfLeaf<T>(hash2: (T, T) -> T, x: seq<T>)
    requires x != [] && |x| <= Pow2(0)
    ensures |x| == 1 && Top(hash2, x, 0) == x[0]
  {
  }

  lemma HalvesMake<T>(x: seq<T>, y: seq<T>, h: nat)
    requires h > 0 && x != [] && y != [] && |x| <= Pow2(h) && |y| <= Pow2(h)
    requires |x| > Pow2(h - 1) <==> |y| > Pow2(h - 1)
    ensures Half(x, h, false) == Half(y, h, false) && Half(x, h, true) == Half(y, h, true) ==> x == y
  {
    hide Pow2;
    var m := Pow2(h - 1);
    if |x| > m { assert x == x[..m] + x[m..] && y == y[..m] + y[m..]; }
  }

  /** The height of the tree over n leaves. */
  predicate HasHeight(n: nat, h: nat) {
    0 < n <= Pow2(h) && (h > 0 ==> n > Pow2(h - 1))
  }

  lemma RootIsTopNode<T>(hash2: (T, T) -> T, row: seq<T>, h: nat)
    requires HasHeight(|row|, h)
    ensures Root(hash2, row) == Top(hash2, row, h)
  {
    hide Pow2, Level, Root;
    NarrowLevel(hash2, row, h, h);
    Pow2Double(0);
    if h > 0 {
      var m := Pow2(h - 1);
      assert row == row[..m] + row[m..];
      LevelSplit(hash2, row[..m], row[m..], 1, h - 1);
      Pow2Double(h - 1);
      NarrowLevel(hash2, row[m..], h - 1, h - 1);
    }
    RootIsTop(hash2, row, h);
  }

  /**
    Among lists of one height that MerkleComputation does not flag, the root determines the list, or two
    different pairs have one hash.
   */
  lemma RootDeterminesList<T>(hash2: (T, T) -> T, a: seq<T>, b: seq<T>, h: nat) returns (p: (T, T), q: (T, T))
    requires HasHeight(|a|, h) && HasHeight(|b|, h) && Root(hash2, a) == Root(hash2, b)
    requires !Mutated(hash2, a) && !Mutated(hash2, b)
    ensures a == b || Collision(hash2, p, q)
  {
    hide Mutated, Root, Top;
    RootIsTopNode(hash2, a, h);
    RootIsTopNode(hash2, b, h);
    p, q := SameTop(hash2, a, b, h);
  }

  /** Across heights it does not: every list of two or more has the root of the list of its pairs' hashes. */
  lemma HeightsMatter<T>(hash2: (T, T) -> T, row: seq<T>)
    requires |row| > 1
    ensures Above(hash2, row) != row && Root(hash2, Above(hash2, row)) == Root(hash2, row)
  {
  }

  /** And two unflagged lists with one root there are, whatever the hash. */
  lemma TwoUnflagged<T>(hash2: (T, T) -> T, a: T, b: T)
    requires a != b
    ensures Root(hash2, [a, b]) == Root(hash2, [hash2(a, b)])
    ensures !Mutated(hash2, [a, b]) && !Mutated(hash2, [hash2(a, b)])
  {
    if k: nat, m: nat :| Twin(hash2, [a, b], k, m) {
      Pow2Double(0);
      FullHeight(1, k);
    }
    if k: nat, m: nat :| Twin(hash2, [hash2(a, b)], k, m) {
      Pow2Double(0);
      FullHeight(0, k);
    }
  }
}
