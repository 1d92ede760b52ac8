/**
  Which partial Merkle trees are accepted, exactly: those that spell out, left before right, a tree cut
  off at some nodes.  And what the hashes of a node are: those of the Merkle tree built level by level.
 */
module PartialMerkleFormat {
  import opened Common
  import opened PartialMerkle
  import opened PartialMerkleRoundTrip
  import Merkle

  // ------------------------------------------------------- the full tree

  lemma NodeAbove(n: nat, h: nat, pos: nat)
    ensures pos < Width(n, h + 1) <==> pos < (Width(n, h) + 1) / 2
  {
    hide Width;
    NodeExists(n, h + 1, pos);
    NodeExists(n, h, 2 * pos);
    Children(h + 1, pos);
  }

  lemma WidthHalves(n: nat, h: nat)
    ensures Width(n, h + 1) == (Width(n, h) + 1) / 2 && Width(n, 0) == n
  {
    NodeAbove(n, h, Width(n, h + 1));
    NodeAbove(n, h, (Width(n, h) + 1) / 2);
  }

  lemma OneStep(H: Hasher, txids: seq<Hash>, h: nat, pos: nat)
    requires pos < Width(|txids|, h)
    ensures h == 0 ==> pos < |txids| && CalcHash(H, txids, h, pos) == txids[pos] && Merkle.Level(H, txids, h) == txids
    ensures h > 0 ==>
      && 2 * pos < Width(|txids|, h - 1)
      && var left := CalcHash(H, txids, h - 1, 2 * pos);
      CalcHash(H, txids, h, pos) ==
        H(left, if 2 * pos + 1 < Width(|txids|, h - 1) then CalcHash(H, txids, h - 1, 2 * pos + 1) else left)
    ensures h > 0 ==> Merkle.Level(H, txids, h) == Merkle.Above(H, Merkle.Level(H, txids, h - 1))
  {
    hide Width, Merkle.Above;
    NodeExists(|txids|, h, pos);
    if h > 0 { ChildrenExist(|txids|, h, pos); }
  }

  lemma AboveAt(H: Hasher, row: seq<Hash>, pos: nat)
    requires 2 * pos < |row|
    ensures var up := Merkle.Above(H, row);
      pos < |up| && up[pos] == H(row[2 * pos], if 2 * pos + 1 < |row| then row[2 * pos + 1] else row[2 * pos])
  {
  }

  /** CalcHash descends from a node; the tree built level by level has the same hash there. */
  lemma {:induction false} CalcHashIsLevel(H: Hasher, txids: seq<Hash>, h: nat, pos: nat)
    requires pos < Width(|txids|, h)
    ensures |Merkle.Level(H, txids, h)| == Width(|txids|, h)
    ensures CalcHash(H, txids, h, pos) == Merkle.Level(H, txids, h)[pos]
  {
    hide Width, Merkle.Above, CalcHash, Merkle.Level;
    var n := |txids|;
    WidthHalves(n, if h == 0 then 0 else h - 1);
    OneStep(H, txids, h, pos);
    if h > 0 {
      ChildrenExist(n, h, pos);
      CalcHashIsLevel(H, txids, h - 1, 2 * pos);
      if 2 * pos + 1 < Width(n, h - 1) { CalcHashIsLevel(H, txids, h - 1, 2 * pos + 1); }
      AboveAt(H, Merkle.Level(H, txids, h - 1), pos);
    }
  }

  /** The root that extraction must find is the root of the block's Merkle tree. */
  lemma RootIsMerkleRoot(H: Hasher, txids: seq<Hash>)
    requires |txids| > 0
    ensures Root(H, txids) == Merkle.Root(H, txids)
  {
    hide Width, CalcHash, Merkle.Level, Merkle.Root;
    var n := |txids|;
    var h := Height(n);
    RootExists(n);
    CalcHashIsLevel(H, txids, h, 0);
    if h > 0 { CalcHashIsLevel(H, txids, h - 1, 0); }
    Merkle.RootIsTop(H, txids, h);
  }

  // --------------------------------------------------- trees that are cut off

  /** A stored hash, a node with an only child, or a node with two. */
  datatype Partial = Stored(hash: Hash, matched: bool) | One(left: Partial) | Two(left: Partial, right: Partial)

  /** One bit per node, a node before its children and the left child first. */
  function Bits(t: Partial): seq<bool> {
    match t
    case Stored(_, matched) => [matched]
    case One(l) => [true] + Bits(l)
    case Two(l, r) => [true] + Bits(l) + Bits(r)
  }

  function Hashes(t: Partial): seq<Hash> {
    match t
    case Stored(hash, _) => [hash]
    case One(l) => Hashes(l)
    case Two(l, r) => Hashes(l) + Hashes(r)
  }

  function Value(H: Hasher, t: Partial): Hash {
    match t
    case Stored(hash, _) => hash
    case One(l) => H(Value(H, l), Value(H, l))
    case Two(l, r) => H(Value(H, l), Value(H, r))
  }

  function Pairs(H: Hasher, t: Partial): set<(Hash, Hash)> {
    match t
    case Stored(_, _) => {}
    case One(l) => {(Value(H, l), Value(H, l))} + Pairs(H, l)
    case Two(l, r) => {(Value(H, l), Value(H, r))} + Pairs(H, l) + Pairs(H, r)
  }

  /** The matched leaves from left to right. */
  function Found(t: Partial, pos: nat): seq<Match> {
    match t
    case Stored(hash, matched) => if matched then [Match(hash, pos)] else []
    case One(l) => Found(l, 2 * pos)
    case Two(l, r) => Found(l, 2 * pos) + Found(r, 2 * pos + 1)
  }

  /** It has the shape of the tree over n leaves below a node, matches only leaves, and no two siblings are alike. */
  predicate Fits(H: Hasher, t: Partial, n: nat, h: nat, pos: nat) {
    match t
    case Stored(_, matched) => matched ==> h == 0
    case One(l) => h > 0 && 2 * pos + 1 >= Width(n, h - 1) && Fits(H, l, n, h - 1, 2 * pos)
    case Two(l, r) =>
      && h > 0 && 2 * pos + 1 < Width(n, h - 1) && Value(H, l) != Value(H, r)
      && Fits(H, l, n, h - 1, 2 * pos) && Fits(H, r, n, h - 1, 2 * pos + 1)
  }

  lemma ReadLeaf(H: Hasher, n: nat, vBits: seq<bool>, vHash: seq<Hash>, h: nat, pos: nat, nBits: nat, nHash: nat)
    requires nBits < |vBits| && (h == 0 || !vBits[nBits]) && nHash < |vHash|
    ensures Extract(H, n, vBits, vHash, h, pos, nBits, nHash)
         == Ext(vHash[nHash], nBits + 1, nHash + 1, false,
                if h == 0 && vBits[nBits] then [Match(vHash[nHash], pos)] else [])
  {
  }

  lemma ReadInner(H: Hasher, n: nat, vBits: seq<bool>, vHash: seq<Hash>, h: nat, pos: nat, nBits: nat, nHash: nat)
    requires nBits < |vBits| && h > 0 && vBits[nBits]
    ensures var l := Extract(H, n, vBits, vHash, h - 1, 2 * pos, nBits + 1, nHash);
      Extract(H, n, vBits, vHash, h, pos, nBits, nHash) ==
        if 2 * pos + 1 < Width(n, h - 1) then
          var r := Extract(H, n, vBits, vHash, h - 1, 2 * pos + 1, l.nBits, l.nHash);
          Ext(H(l.hash, r.hash), r.nBits, r.nHash, l.bad || r.bad || r.hash == l.hash, l.matches + r.matches)
        else Ext(H(l.hash, l.hash), l.nBits, l.nHash, l.bad, l.matches)
  {
  }

  /** What reading t at these places leaves behind. */
  function Read(H: Hasher, t: Partial, pos: nat, nBits: nat, nHash: nat): Ext {
    Ext(Value(H, t), nBits + |Bits(t)|, nHash + |Hashes(t)|, false, Found(t, pos))
  }

  ghost predicate Lies(t: Partial, vBits: seq<bool>, vHash: seq<Hash>, nBits: nat, nHash: nat) {
    At(vBits, nBits, Bits(t)) && At(vHash, nHash, Hashes(t))
  }

  lemma StoredLies(hash: Hash, matched: bool, vBits: seq<bool>, vHash: seq<Hash>, nBits: nat, nHash: nat)
    ensures Lies(Stored(hash, matched), vBits, vHash, nBits, nHash) <==>
      nBits < |vBits| && vBits[nBits] == matched && nHash < |vHash| && vHash[nHash] == hash
  {
    if nBits < |vBits| { assert vBits[nBits..nBits + 1] == [vBits[nBits]]; }
    if nHash < |vHash| { assert vHash[nHash..nHash + 1] == [vHash[nHash]]; }
  }

  lemma OneLies(l: Partial, vBits: seq<bool>, vHash: seq<Hash>, nBits: nat, nHash: nat)
    ensures Lies(One(l), vBits, vHash, nBits, nHash) <==>
      nBits < |vBits| && vBits[nBits] && Lies(l, vBits, vHash, nBits + 1, nHash)
  {
    hide At;
    OneBit(vBits, nBits);
    if nBits < |vBits| && vBits[nBits] && Lies(l, vBits, vHash, nBits + 1, nHash) {
      JoinStreams(vBits, nBits, [true], Bits(l));
    }
    if Lies(One(l), vBits, vHash, nBits, nHash) { AtParts(vBits, nBits, [true], Bits(l)); }
  }

  lemma OneBit(vBits: seq<bool>, i: nat)
    ensures At(vBits, i, [true]) <==> i < |vBits| && vBits[i]
  {
    if i < |vBits| { assert vBits[i..i + 1] == [vBits[i]]; }
  }

  lemma TwoStreams(l: Partial, r: Partial)
    ensures Bits(Two(l, r)) == ([true] + Bits(l)) + Bits(r) && Hashes(Two(l, r)) == Hashes(l) + Hashes(r)
  {
  }

  lemma TwoLie(l: Partial, r: Partial, vBits: seq<bool>, vHash: seq<Hash>, nBits: nat, nHash: nat)
    ensures Lies(Two(l, r), vBits, vHash, nBits, nHash) <==>
      && nBits < |vBits| && vBits[nBits] && Lies(l, vBits, vHash, nBits + 1, nHash)
      && Lies(r, vBits, vHash, nBits + 1 + |Bits(l)|, nHash + |Hashes(l)|)
  {
    hide At, Bits, Hashes;
    TwoStreams(l, r);
    OneBit(vBits, nBits);
    var b := [true] + Bits(l);
    if Lies(Two(l, r), vBits, vHash, nBits, nHash) {
      AtParts(vBits, nBits, b, Bits(r));
      AtParts(vBits, nBits, [true], Bits(l));
      AtParts(vHash, nHash, Hashes(l), Hashes(r));
    } else if nBits < |vBits| && vBits[nBits] && Lies(l, vBits, vHash, nBits + 1, nHash)
        && Lies(r, vBits, vHash, nBits + 1 + |Bits(l)|, nHash + |Hashes(l)|) {
      JoinStreams(vBits, nBits, [true], Bits(l));
      JoinStreams(vBits, nBits, b, Bits(r));
      JoinStreams(vHash, nHash, Hashes(l), Hashes(r));
    }
  }

  /** Reading a tree that lies in the streams gives its hash, its matches and the places where it ends. */
  lemma {:induction false} ExtractReads(H: Hasher, t: Partial, n: nat, vBits: seq<bool>, vHash: seq<Hash>, h: nat,
                                        pos: nat, nBits: nat, nHash: nat)
    requires Fits(H, t, n, h, pos) && Lies(t, vBits, vHash, nBits, nHash)
    ensures Extract(H, n, vBits, vHash, h, pos, nBits, nHash) == Read(H, t, pos, nBits, nHash)
    decreases t
  {
    hide Width, Extract, Lies;
    match t
    case Stored(hash, matched) =>
      StoredLies(hash, matched, vBits, vHash, nBits, nHash);
      ReadLeaf(H, n, vBits, vHash, h, pos, nBits, nHash);
    case One(l) =>
      OneLies(l, vBits, vHash, nBits, nHash);
      ReadInner(H, n, vBits, vHash, h, pos, nBits, nHash);
      ExtractReads(H, l, n, vBits, vHash, h - 1, 2 * pos, nBits + 1, nHash);
    case Two(l, r) =>
      TwoLie(l, r, vBits, vHash, nBits, nHash);
      ReadInner(H, n, vBits, vHash, h, pos, nBits, nHash);
      ExtractReads(H, l, n, vBits, vHash, h - 1, 2 * pos, nBits + 1, nHash);
      ExtractReads(H, r, n, vBits, vHash, h - 1, 2 * pos + 1, nBits + 1 + |Bits(l)|, nHash + |Hashes(l)|);
  }

  /** A traversal that was not bad has read a tree that fits. */
  lemma {:induction false} ExtractFinds(H: Hasher, n: nat, vBits: seq<bool>, vHash: seq<Hash>, h: nat, pos: nat,
                                        nBits: nat, nHash: nat) returns (t: Partial)
    requires !Extract(H, n, vBits, vHash, h, pos, nBits, nHash).bad
    ensures Fits(H, t, n, h, pos) && Lies(t, vBits, vHash, nBits, nHash)
    ensures Extract(H, n, vBits, vHash, h, pos, nBits, nHash) == Read(H, t, pos, nBits, nHash)
    decreases h
  {
    hide Width, Extract, Lies;
    NotBad(H, n, vBits, vHash, h, pos, nBits, nHash);
    if h == 0 || !vBits[nBits] {
      t := Stored(vHash[nHash], vBits[nBits]);
      StoredLies(vHash[nHash], vBits[nBits], vBits, vHash, nBits, nHash);
      ReadLeaf(H, n, vBits, vHash, h, pos, nBits, nHash);
    } else {
      ReadInner(H, n, vBits, vHash, h, pos, nBits, nHash);
      var l := ExtractFinds(H, n, vBits, vHash, h - 1, 2 * pos, nBits + 1, nHash);
      if 2 * pos + 1 < Width(n, h - 1) {
        var r := ExtractFinds(H, n, vBits, vHash, h - 1, 2 * pos + 1, nBits + 1 + |Bits(l)|, nHash + |Hashes(l)|);
        t := Two(l, r);
        TwoLie(l, r, vBits, vHash, nBits, nHash);
      } else {
        t := One(l);
        OneLies(l, vBits, vHash, nBits, nHash);
      }
    }
  }

  lemma NotBad(H: Hasher, n: nat, vBits: seq<bool>, vHash: seq<Hash>, h: nat, pos: nat, nBits: nat, nHash: nat)
    requires !Extract(H, n, vBits, vHash, h, pos, nBits, nHash).bad
    ensures nBits < |vBits| && (h == 0 || !vBits[nBits] ==> nHash < |vHash|)
  {
  }

  lemma JoinStreams<T>(all: seq<T>, i: nat, a: seq<T>, b: seq<T>)
    requires At(all, i, a) && At(all, i + |a|, b)
    ensures At(all, i, a + b)
  {
  }

  // --------------------------------------------------------- what is accepted

  /** No more hashes than leaves, and no more hashes than bits. */
  lemma {:induction false} FitsCounts(H: Hasher, t: Partial, n: nat, h: nat, pos: nat)
    requires Fits(H, t, n, h, pos) && pos < Width(n, h)
    ensures |Hashes(t)| <= Leaves(n, h, pos) && |Hashes(t)| <= |Bits(t)|
    decreases t
  {
    hide Width, Leaves;
    LeavesPositive(n, h, pos);
    if !t.Stored? {
      LeavesSplit(n, h, pos);
      ChildrenExist(n, h, pos);
      FitsCounts(H, t.left, n, h - 1, 2 * pos);
      if t.Two? { FitsCounts(H, t.right, n, h - 1, 2 * pos + 1); }
    }
  }

  /** The tree's hashes are p's, and its bits are p's but for the padding of the last byte. */
  ghost predicate Spells(H: Hasher, t: Tree, p: Partial) {
    && Fits(H, p, t.nTransactions, Height(t.nTransactions), 0) && Hashes(p) == t.vHash
    && Bits(p) <= t.vBits && (|Bits(p)| + 7) / 8 == (|t.vBits| + 7) / 8
  }

  lemma SpellsIsRead(H: Hasher, t: Tree, p: Partial)
    requires Spells(H, t, p)
    ensures Lies(p, t.vBits, t.vHash, 0, 0) && Traversal(H, t) == Read(H, p, 0, 0, 0)
  {
    hide Extract, Fits, Height;
    assert t.vBits[0..0 + |Bits(p)|] == Bits(p) && t.vHash[0..0 + |Hashes(p)|] == Hashes(p);
    ExtractReads(H, p, t.nTransactions, t.vBits, t.vHash, Height(t.nTransactions), 0, 0, 0);
  }

  /**
    A partial Merkle tree is accepted if and only if it is well-formed: its count is in range, and it
    spells out, left before right, a tree of the right shape in which only leaves are matched and no
    two siblings have one hash, with no hash and no whole byte of bits left over.
   */
  lemma AcceptsIff(H: Hasher, t: Tree)
    ensures Accepts(H, t) <==>
      0 < t.nTransactions <= MAX_BLOCK_BASE_SIZE / 60 && !t.fBad && exists p :: Spells(H, t, p)
  {
    hide Extract, Fits, Height, Width;
    var n := t.nTransactions;
    if Accepts(H, t) {
      var p := ExtractFinds(H, n, t.vBits, t.vHash, Height(n), 0, 0, 0);
      assert t.vBits[0..|Bits(p)|] == Bits(p) && t.vHash[0..|Hashes(p)|] == Hashes(p);
      assert Spells(H, t, p);
    }
    if 0 < n && !t.fBad {
      if p :| Spells(H, t, p) {
        SpellsIsRead(H, t, p);
        RootExists(n);
        FitsCounts(H, p, n, Height(n), 0);
        AllLeaves(n);
      }
    }
  }

  lemma AllLeaves(n: nat)
    ensures Leaves(n, Height(n), 0) <= n
  {
  }

  lemma {:induction false} PairsRead(H: Hasher, t: Partial, n: nat, vBits: seq<bool>, vHash: seq<Hash>, h: nat,
                                     pos: nat, nBits: nat, nHash: nat)
    requires Fits(H, t, n, h, pos) && Lies(t, vBits, vHash, nBits, nHash)
    ensures ExtPairs(H, n, vBits, vHash, h, pos, nBits, nHash) == Pairs(H, t)
    decreases t
  {
    hide Width, Extract, Lies;
    match t
    case Stored(hash, matched) =>
      StoredLies(hash, matched, vBits, vHash, nBits, nHash);
    case One(l) =>
      OneLies(l, vBits, vHash, nBits, nHash);
      ExtractReads(H, l, n, vBits, vHash, h - 1, 2 * pos, nBits + 1, nHash);
      PairsRead(H, l, n, vBits, vHash, h - 1, 2 * pos, nBits + 1, nHash);
    case Two(l, r) =>
      TwoLie(l, r, vBits, vHash, nBits, nHash);
      ExtractReads(H, l, n, vBits, vHash, h - 1, 2 * pos, nBits + 1, nHash);
      PairsRead(H, l, n, vBits, vHash, h - 1, 2 * pos, nBits + 1, nHash);
      ExtractReads(H, r, n, vBits, vHash, h - 1, 2 * pos + 1, nBits + 1 + |Bits(l)|, nHash + |Hashes(l)|);
      PairsRead(H, r, n, vBits, vHash, h - 1, 2 * pos + 1, nBits + 1 + |Bits(l)|, nHash + |Hashes(l)|);
  }

  /** The bits alone give the shape, however the hashes differ. */
  predicate SameShape(p: Partial, q: Partial) {
    match p
    case Stored(_, matched) => q.Stored? && q.matched == matched
    case One(l) => q.One? && SameShape(l, q.left)
    case Two(l, r) => q.Two? && SameShape(l, q.left) && SameShape(r, q.right)
  }

  lemma {:induction false} ShapeCounts(p: Partial, q: Partial)
    requires SameShape(p, q)
    ensures Bits(p) == Bits(q) && |Hashes(p)| == |Hashes(q)|
  {
    if !p.Stored? {
      ShapeCounts(p.left, q.left);
      if p.Two? { ShapeCounts(p.right, q.right); }
    }
  }

  lemma {:induction false} BitsGiveShape(H: Hasher, p: Partial, q: Partial, n: nat, h: nat, pos: nat,
                                         vBits: seq<bool>, i: nat)
    requires Fits(H, p, n, h, pos) && Fits(H, q, n, h, pos) && At(vBits, i, Bits(p)) && At(vBits, i, Bits(q))
    ensures SameShape(p, q)
    decreases p
  {
    hide Width, At;
    FirstBit(p, vBits, i);
    FirstBit(q, vBits, i);
    if p.One? {
      AtParts(vBits, i, [true], Bits(p.left));
      AtParts(vBits, i, [true], Bits(q.left));
      BitsGiveShape(H, p.left, q.left, n, h - 1, 2 * pos, vBits, i + 1);
    } else if p.Two? {
      AtParts(vBits, i, [true] + Bits(p.left), Bits(p.right));
      AtParts(vBits, i, [true], Bits(p.left));
      AtParts(vBits, i, [true] + Bits(q.left), Bits(q.right));
      AtParts(vBits, i, [true], Bits(q.left));
      BitsGiveShape(H, p.left, q.left, n, h - 1, 2 * pos, vBits, i + 1);
      ShapeCounts(p.left, q.left);
      BitsGiveShape(H, p.right, q.right, n, h - 1, 2 * pos + 1, vBits, i + 1 + |Bits(p.left)|);
    }
  }

  lemma FirstBit(p: Partial, vBits: seq<bool>, i: nat)
    requires At(vBits, i, Bits(p))
    ensures i < |vBits| && (vBits[i] <==> !p.Stored? || p.matched)
  {
    assert vBits[i..i + |Bits(p)|][0] == Bits(p)[0];
  }

  /** Two trees of one shape with one hash at the top store the same hashes, or two pairs collide. */
  lemma {:induction false} TopGivesHashes(H: Hasher, p: Partial, q: Partial)
    requires SameShape(p, q) && Value(H, p) == Value(H, q)
    ensures Hashes(p) == Hashes(q) || Collides(H, Pairs(H, p), Pairs(H, q))
  {
    if !p.Stored? {
      var pp := (Value(H, p.left), if p.Two? then Value(H, p.right) else Value(H, p.left));
      var qq := (Value(H, q.left), if q.Two? then Value(H, q.right) else Value(H, q.left));
      assert pp in Pairs(H, p) && qq in Pairs(H, q);
      if pp == qq {
        TopGivesHashes(H, p.left, q.left);
        if p.Two? { TopGivesHashes(H, p.right, q.right); }
      } else {
        assert Collides(H, Pairs(H, p), Pairs(H, q));
      }
    }
  }

  /** Nothing in an accepted tree is free: with one count, one sequence of bits and one root go one list of hashes. */
  lemma HashesDetermined(H: Hasher, t: Tree, u: Tree)
    requires Accepts(H, t) && Accepts(H, u) && t.nTransactions == u.nTransactions && t.vBits == u.vBits
    requires ExtractMatches(H, t) == ExtractMatches(H, u)
    ensures t.vHash == u.vHash || Collides(H, TraversalPairs(H, t), TraversalPairs(H, u))
  {
    hide Accepts, Extract, ExtPairs, Fits, Height, Collides, Lies;
    AcceptsIff(H, t);
    AcceptsIff(H, u);
    var p :| Spells(H, t, p);
    var q :| Spells(H, u, q);
    SpellsIsRead(H, t, p);
    SpellsIsRead(H, u, q);
    var n := t.nTransactions;
    PairsRead(H, p, n, t.vBits, t.vHash, Height(n), 0, 0, 0);
    PairsRead(H, q, n, u.vBits, u.vHash, Height(n), 0, 0, 0);
    LiesAt(p, t.vBits, t.vHash);
    LiesAt(q, u.vBits, u.vHash);
    BitsGiveShape(H, p, q, n, Height(n), 0, t.vBits, 0);
    TopGivesHashes(H, p, q);
  }

  lemma LiesAt(p: Partial, vBits: seq<bool>, vHash: seq<Hash>)
    requires Lies(p, vBits, vHash, 0, 0)
    ensures At(vBits, 0, Bits(p))
  {
  }

  // ------------------------------------------------------------ an example

  /** Three transactions of which the last is matched: its pair-mates' hash, then itself, hashed with itself. */
  lemma LastOfThree(H: Hasher, a: Hash, b: Hash, c: Hash)
    ensures BuildTree(H, [a, b, c], [false, false, true])
         == Tree(3, [true, false, true, true], [H(a, b), c], false)
    ensures Root(H, [a, b, c]) == H(H(a, b), H(c, c))
  {
    hide Height;
    var txids, vMatch := [a, b, c], [false, false, true];
    HeightOfThree();
    Pow2Double(0);
    Pow2Double(1);
    assert !ParentOfMatch(vMatch, 1, 0);
    assert ParentOfMatch(vMatch, 1, 1) && ParentOfMatch(vMatch, 2, 0) && ParentOfMatch(vMatch, 0, 2) by {
      assert vMatch[2];
    }
    assert CalcHash(H, txids, 1, 0) == H(a, b) && CalcHash(H, txids, 1, 1) == H(c, c);
    assert Build(H, txids, vMatch, 1, 0) == Built([false], [H(a, b)]);
    assert Build(H, txids, vMatch, 0, 2) == Built([true], [c]);
    assert Build(H, txids, vMatch, 1, 1) == Built([true, true], [c]);
  }

  lemma HeightOfThree()
    ensures Height(3) == 2
  {
    assert Width(3, 0) == 3;
    assert Width(3, 1) == 2;
    assert Width(3, 2) == 1;
  }
}
