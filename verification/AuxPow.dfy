/**
  CAuxPow::check (src/auxpow.cpp): exactly which parent coinbases let one parent block count for
  one aux block of a chain only.  The hash of two nodes is a parameter; nothing is assumed about it.
 */
module AuxPow {
  import opened Common
  import opened Limbs
  import opened LittleEndian
  import Merkle

  /** A uint256: 32 bytes, see Wide. */
  datatype Hash = Hash(bytes: seq<nat>)

  type HashPair = (Hash, Hash) -> Hash

  predicate Wide(h: Hash) {
    |h.bytes| == 32
  }

  const MERGED_MINING_HEADER: seq<nat> := [0xfa, 0xbe, 0x6d, 0x6d]

  const NULL_HASH := Hash([0, 0, 0, 0, 0, 0, 0, 0, 0, 0, 0, 0, 0, 0, 0, 0,
                           0, 0, 0, 0, 0, 0, 0, 0, 0, 0, 0, 0, 0, 0, 0, 0])

  /** The fields of a proof that check reads; coinbase is None when the transaction has no input. */
  datatype Proof = Proof(
    txHash: Hash, coinbase: Option<seq<nat>>, vMerkleBranch: seq<Hash>, nIndex: int,
    vChainMerkleBranch: seq<Hash>, nChainIndex: int, parentChainId: int, parentMerkleRoot: Hash)

  /** Folding a branch up to its root; index -1 stands for "no index". */
  function CheckMerkleBranch(hash2: HashPair, hash: Hash, branch: seq<Hash>, index: int): Hash {
    if index == -1 then NULL_HASH else Climb(hash2, hash, branch, index)
  }

  function Climb(hash2: HashPair, hash: Hash, branch: seq<Hash>, index: int): Hash
    decreases |branch|
  {
    if branch == [] then hash
    else Climb(hash2, Join(hash2, hash, branch[0], index), branch[1..], index / 2)
  }

  function Join(hash2: HashPair, hash: Hash, sibling: Hash, index: int): Hash {
    if index % 2 == 1 then hash2(sibling, hash) else hash2(hash, sibling)
  }

  method CheckMerkleBranchLoop(hash2: HashPair, leaf: Hash, branch: seq<Hash>, nIndex: int) returns (hash: Hash)
    ensures hash == CheckMerkleBranch(hash2, leaf, branch, nIndex)
  {
    if nIndex == -1 {
      return NULL_HASH;
    }
    hash := leaf;
    var index := nIndex;
    for i := 0 to |branch|
      invariant Climb(hash2, hash, branch[i..], index) == Climb(hash2, leaf, branch, nIndex)
    {
      assert branch[i..][1..] == branch[i + 1..];
      if index % 2 == 1 {
        hash := hash2(branch[i], hash);
      } else {
        hash := hash2(hash, branch[i]);
      }
      index := index / 2;
    }
  }

  lemma JoinGoesUp(hash2: HashPair, row: seq<Hash>, i: nat)
    requires i < |row|
    ensures i / 2 < |Merkle.Above(hash2, row)|
    ensures Join(hash2, row[i], Merkle.Sibling(row, i), i) == Merkle.Above(hash2, row)[i / 2]
  {
    var k := i / 2;
    if i % 2 == 1 { assert i == 2 * k + 1; } else { assert i == 2 * k; }
  }

  /** Climbing from any leaf of any list along the siblings of its path ends at the root of the list's tree. */
  lemma {:induction false} ClimbReachesRoot(hash2: HashPair, leaves: seq<Hash>, i: nat)
    requires i < |leaves|
    ensures Climb(hash2, leaves[i], Merkle.Branch(hash2, leaves, i), i) == Merkle.Root(hash2, leaves)
    ensures CheckMerkleBranch(hash2, leaves[i], Merkle.Branch(hash2, leaves, i), i) == Merkle.Root(hash2, leaves)
    decreases |leaves|
  {
    hide Join, Merkle.Above, Merkle.Sibling;
    if |leaves| > 1 {
      var up := Merkle.Above(hash2, leaves);
      var b := Merkle.Branch(hash2, leaves, i);
      JoinGoesUp(hash2, leaves, i);
      assert b[0] == Merkle.Sibling(leaves, i) && b[1..] == Merkle.Branch(hash2, up, i / 2);
      ClimbReachesRoot(hash2, up, i / 2);
    }
  }

  // ---------------------------------------------------------------- searching

  predicate MatchAt(s: seq<nat>, p: seq<nat>, i: int) {
    0 <= i && i + |p| <= |s| && s[i..i + |p|] == p
  }

  /** std::search: the first match from k on, or the end. */
  function Search(s: seq<nat>, p: seq<nat>, k: nat): (r: nat)
    requires k <= |s| && |p| > 0
    ensures k <= r <= |s| && (r < |s| ==> MatchAt(s, p, r))
    ensures forall i :: k <= i < |s| && MatchAt(s, p, i) ==> r <= i
    decreases |s| - k
  {
    if k == |s| then |s| else if MatchAt(s, p, k) then k else Search(s, p, k + 1)
  }

  function Reverse(s: seq<nat>): (r: seq<nat>)
    ensures |r| == |s| && forall i :: 0 <= i < |s| ==> r[i] == s[|s| - 1 - i]
  {
    seq(|s|, i requires 0 <= i < |s| => s[|s| - 1 - i])
  }

  lemma ReverseInjective(a: seq<nat>, b: seq<nat>)
    requires Reverse(a) == Reverse(b)
    ensures a == b
  {
    forall i | 0 <= i < |a| ensures a[i] == b[i] { assert Reverse(a)[|a| - 1 - i] == Reverse(b)[|a| - 1 - i]; }
  }

  // ----------------------------------------------------------- expected index

  const MULTIPLIER := 1103515245
  const INCREMENT := 12345

  /** The slot for a chain, in 32-bit arithmetic as the source computes it. */
  function ExpectedIndex(nNonce: int, nChainId: int, h: nat): (r: nat) {
    var r1 := (nNonce * MULTIPLIER + INCREMENT) % BASE;
    var r2 := (r1 + nChainId) % BASE;
    var r3 := (r2 * MULTIPLIER + INCREMENT) % BASE;
    r3 % Pow2(h)
  }

  /** The same without any wrap-around. */
  function ExpectedWide(nNonce: int, nChainId: int, h: nat): int {
    ((nNonce * MULTIPLIER + INCREMENT + nChainId) * MULTIPLIER + INCREMENT) % Pow2(h)
  }

  /** Up to a height of 32, 32 bits and any wider type give the same slot. */
  lemma IndexWidth(nNonce: int, nChainId: int, h: nat)
    requires h <= 32
    ensures ExpectedIndex(nNonce, nChainId, h) == ExpectedWide(nNonce, nChainId, h)
  {
    hide Pow2;
    var m := Pow2(h);
    Pow2Add(h, 32 - h);
    BaseIsPow2();
    var x1 := nNonce * MULTIPLIER + INCREMENT;
    var r1 := x1 % BASE;
    var r2 := (r1 + nChainId) % BASE;
    var x3 := r2 * MULTIPLIER + INCREMENT;
    ModOfMultiple(x3, m, Pow2(32 - h));
    var q := BASE * ((x1 / BASE) + (r1 + nChainId) / BASE);
    assert x1 + nChainId == r2 + q;
    var y := (x1 + nChainId) * MULTIPLIER + INCREMENT;
    assert y == x3 + (MULTIPLIER * ((x1 / BASE) + (r1 + nChainId) / BASE)) * BASE;
    Shifted(x3, y, MULTIPLIER * ((x1 / BASE) + (r1 + nChainId) / BASE), m, Pow2(32 - h));
  }

  lemma ModOfMultiple(x: int, m: nat, t: nat)
    requires m > 0 && t > 0 && m * t == BASE
    ensures (x % BASE) % m == x % m
  {
    var r := x % BASE;
    assert x == (x / BASE) * (m * t) + r;
    assert (x / BASE) * (m * t) == ((x / BASE) * t) * m;
    Congruent(r, x, (x / BASE) * t, m);
  }

  lemma Shifted(x: int, y: int, k: int, m: nat, t: nat)
    requires m > 0 && t > 0 && m * t == BASE && y == x + k * BASE
    ensures x % m == y % m
  {
    assert k * (m * t) == (k * t) * m;
    Congruent(x, y, k * t, m);
  }

  lemma Congruent(x: int, y: int, k: int, m: nat)
    requires m > 0 && y == x + k * m
    ensures x % m == y % m
  {
    assert (x / m + k) * m == (x / m) * m + k * m;
    ModUnique(x % m, x / m + k, m, y);
  }

  // --------------------------------------------------------------------- check

  /** The tests on the parent coinbase script. */
  predicate ScriptOk(script: seq<nat>, root: seq<nat>, height: nat, index: int, nChainId: int)
    requires |root| > 0
  {
    var head, pc := Search(script, MERGED_MINING_HEADER, 0), Search(script, root, 0);
    && pc != |script|
    && (if head != |script|
        then Search(script, MERGED_MINING_HEADER, head + 1) == |script| && head + |MERGED_MINING_HEADER| == pc
        else pc <= 20)
    && |script| - (pc + |root|) >= 8
    && Le32(script, pc + |root|) == Pow2(height)
    && index == ExpectedIndex(Le32(script, pc + |root| + 4), nChainId, height)
  }

  predicate Check(hash2: HashPair, p: Proof, hashAux: Hash, nChainId: int, fStrictChainId: bool)
  {
    var root := CheckMerkleBranch(hash2, hashAux, p.vChainMerkleBranch, p.nChainIndex);
    && p.nIndex == 0
    && !(fStrictChainId && p.parentChainId == nChainId)
    && |p.vChainMerkleBranch| <= 30
    && CheckMerkleBranch(hash2, p.txHash, p.vMerkleBranch, p.nIndex) == p.parentMerkleRoot
    && p.coinbase.Some?
    && Wide(root)
    && ScriptOk(p.coinbase.value, Reverse(root.bytes), |p.vChainMerkleBranch|, p.nChainIndex, nChainId)
  }

  /** Two different pairs with one hash. */
  predicate Collision(hash2: HashPair, a: (Hash, Hash), b: (Hash, Hash)) {
    a != b && hash2(a.0, a.1) == hash2(b.0, b.1)
  }

  /** The pair that is hashed at a node. */
  function Pair(hash: Hash, sibling: Hash, index: int): (Hash, Hash) {
    if index % 2 == 1 then (sibling, hash) else (hash, sibling)
  }

  /** Along one path, a root determines the leaf, unless two pairs on the way collide. */
  lemma {:induction false} PathUnique(hash2: HashPair, x: Hash, y: Hash, bx: seq<Hash>, cx: seq<Hash>, index: int)
    returns (a: (Hash, Hash), b: (Hash, Hash))
    requires |bx| == |cx| && Climb(hash2, x, bx, index) == Climb(hash2, y, cx, index)
    ensures x == y || Collision(hash2, a, b)
    decreases |bx|
  {
    if bx == [] {
      a, b := (x, x), (y, y);
    } else {
      var jx, jy := Join(hash2, x, bx[0], index), Join(hash2, y, cx[0], index);
      if jx == jy {
        a, b := Pair(x, bx[0], index), Pair(y, cx[0], index);
      } else {
        a, b := PathUnique(hash2, jx, jy, bx[1..], cx[1..], index / 2);
      }
    }
  }

  lemma {:induction false} Pow2Injective(a: nat, b: nat)
    requires Pow2(a) == Pow2(b)
    ensures a == b
  {
    if a > 0 && b > 0 { Pow2Injective(a - 1, b - 1); }
  }

  // ------------------------------------------------------- where roots can stand

  predicate HasHeader(script: seq<nat>) {
    Search(script, MERGED_MINING_HEADER, 0) != |script|
  }

  /** The four bytes at i are a tree size that a branch of at most 30 hashes can have. */
  predicate SizeAt(script: seq<nat>, i: nat)
    requires i + 4 <= |script|
  {
    exists h :: 0 <= h <= 30 && Le32(script, i) == Pow2(h)
  }

  /** A place of the script from which a root is accepted; it depends on the script alone. */
  predicate Slot(script: seq<nat>, pc: nat) {
    && pc + 40 <= |script| && Search(script, script[pc..pc + 32], 0) == pc && SizeAt(script, pc + 32)
    && (if HasHeader(script) then
          var head := Search(script, MERGED_MINING_HEADER, 0);
          Search(script, MERGED_MINING_HEADER, head + 1) == |script| && head + |MERGED_MINING_HEADER| == pc
        else pc <= 20)
  }

  ghost predicate AtMostOneSlot(script: seq<nat>) {
    forall pc: nat, pc': nat :: Slot(script, pc) && Slot(script, pc') ==> pc == pc'
  }

  /** Some branch length and index go with the root. */
  ghost predicate RootAccepted(script: seq<nat>, root: seq<nat>, nChainId: int)
    requires |root| > 0
  {
    exists h, i :: 0 <= h <= 30 && ScriptOk(script, root, h, i, nChainId)
  }

  lemma AcceptedInSlot(script: seq<nat>, root: seq<nat>, h: nat, i: int, nChainId: int)
    requires |root| == 32 && h <= 30 && ScriptOk(script, root, h, i, nChainId)
    ensures var pc := Search(script, root, 0);
            && Slot(script, pc) && script[pc..pc + 32] == root
            && Le32(script, pc + 32) == Pow2(h) && i == ExpectedIndex(Le32(script, pc + 36), nChainId, h)
  {
    hide Search, Pow2, ExpectedIndex, Le32;
  }

  lemma SlotAccepted(script: seq<nat>, pc: nat, h: nat, nChainId: int)
    requires Slot(script, pc) && Le32(script, pc + 32) == Pow2(h)
    ensures ScriptOk(script, script[pc..pc + 32], h, ExpectedIndex(Le32(script, pc + 36), nChainId, h), nChainId)
  {
    hide Search, Pow2, ExpectedIndex, Le32;
  }

  /** For every chain, the accepted roots are exactly those that stand in a slot. */
  lemma AcceptedIffSlot(script: seq<nat>, root: seq<nat>, nChainId: int)
    requires |root| == 32
    ensures RootAccepted(script, root, nChainId) <==> exists pc: nat :: Slot(script, pc) && script[pc..pc + 32] == root
  {
    hide Search, Pow2, ExpectedIndex, Le32, ScriptOk;
    if RootAccepted(script, root, nChainId) {
      var h, i :| 0 <= h <= 30 && ScriptOk(script, root, h, i, nChainId);
      AcceptedInSlot(script, root, h, i, nChainId);
    }
    if pc: nat :| Slot(script, pc) && script[pc..pc + 32] == root {
      var h :| 0 <= h <= 30 && Le32(script, pc + 32) == Pow2(h);
      SlotAccepted(script, pc, h, nChainId);
    }
  }

  /** A script has a single root for a chain if and only if it has at most one slot. */
  lemma SingleRootIff(script: seq<nat>, nChainId: int)
    ensures AtMostOneSlot(script) <==>
      forall r, r' :: |r| == |r'| == 32 && RootAccepted(script, r, nChainId) && RootAccepted(script, r', nChainId) ==>
        r == r'
  {
    hide RootAccepted, Search, SizeAt;
    if AtMostOneSlot(script) {
      forall r, r' | |r| == |r'| == 32 && RootAccepted(script, r, nChainId) && RootAccepted(script, r', nChainId)
        ensures r == r'
      {
        AcceptedIffSlot(script, r, nChainId);
        AcceptedIffSlot(script, r', nChainId);
      }
    } else {
      var pc: nat, pc': nat :| Slot(script, pc) && Slot(script, pc') && pc != pc';
      var r, r' := script[pc..pc + 32], script[pc'..pc' + 32];
      AcceptedIffSlot(script, r, nChainId);
      AcceptedIffSlot(script, r', nChainId);
      assert RootAccepted(script, r, nChainId) && RootAccepted(script, r', nChainId) && r != r';
    }
  }

  /** With the merged-mining header there is never more than one slot. */
  lemma HeaderSuffices(script: seq<nat>)
    requires HasHeader(script)
    ensures AtMostOneSlot(script)
  {
  }

  /** With at most one slot the script pins down the root, the branch length and the index. */
  lemma ScriptPins(script: seq<nat>, r: seq<nat>, r': seq<nat>, h: nat, h': nat, i: int, i': int, nChainId: int)
    requires |r| == |r'| == 32 && h <= 30 && h' <= 30 && AtMostOneSlot(script)
    requires ScriptOk(script, r, h, i, nChainId) && ScriptOk(script, r', h', i', nChainId)
    ensures r == r' && h == h' && i == i' && i >= 0
  {
    hide ScriptOk, Slot, Search, Pow2, ExpectedIndex, Le32;
    AcceptedInSlot(script, r, h, i, nChainId);
    AcceptedInSlot(script, r', h', i', nChainId);
    Pow2Injective(h, h');
  }

  /** One coinbase with at most one slot certifies one aux block for a chain, unless hashes collide. */
  lemma Unique(hash2: HashPair, p: Proof, q: Proof, x: Hash, y: Hash, nChainId: int, fStrictChainId: bool)
    returns (a: (Hash, Hash), b: (Hash, Hash))
    requires Check(hash2, p, x, nChainId, fStrictChainId) && Check(hash2, q, y, nChainId, fStrictChainId)
    requires p.coinbase == q.coinbase && AtMostOneSlot(p.coinbase.value)
    ensures x == y || Collision(hash2, a, b)
  {
    hide ScriptOk, Search, Climb, AtMostOneSlot;
    var rx := CheckMerkleBranch(hash2, x, p.vChainMerkleBranch, p.nChainIndex);
    var ry := CheckMerkleBranch(hash2, y, q.vChainMerkleBranch, q.nChainIndex);
    ScriptPins(p.coinbase.value, Reverse(rx.bytes), Reverse(ry.bytes), |p.vChainMerkleBranch|, |q.vChainMerkleBranch|,
               p.nChainIndex, q.nChainIndex, nChainId);
    ReverseInjective(rx.bytes, ry.bytes);
    a, b := PathUnique(hash2, x, y, p.vChainMerkleBranch, q.vChainMerkleBranch, p.nChainIndex);
  }

  /** Proofs for one parent block with branches of one length are about one coinbase transaction. */
  lemma OneCoinbase(hash2: HashPair, p: Proof, q: Proof, x: Hash, y: Hash, nChainId: int, fStrictChainId: bool)
    returns (a: (Hash, Hash), b: (Hash, Hash))
    requires Check(hash2, p, x, nChainId, fStrictChainId) && Check(hash2, q, y, nChainId, fStrictChainId)
    requires p.parentMerkleRoot == q.parentMerkleRoot && |p.vMerkleBranch| == |q.vMerkleBranch|
    ensures p.txHash == q.txHash || Collision(hash2, a, b)
  {
    hide ScriptOk, Climb;
    a, b := PathUnique(hash2, p.txHash, q.txHash, p.vMerkleBranch, q.vMerkleBranch, 0);
  }

  /**
    One parent block certifies one aux block for a chain, if its coinbase has at most one slot:
    otherwise two node pairs collide, or two coinbase transactions have one hash.
   */
  lemma OneBlockPerParent(hash2: HashPair, p: Proof, q: Proof, x: Hash, y: Hash, nChainId: int, fStrictChainId: bool)
    returns (a: (Hash, Hash), b: (Hash, Hash))
    requires Check(hash2, p, x, nChainId, fStrictChainId) && Check(hash2, q, y, nChainId, fStrictChainId)
    requires p.parentMerkleRoot == q.parentMerkleRoot && |p.vMerkleBranch| == |q.vMerkleBranch|
    requires AtMostOneSlot(p.coinbase.value)
    ensures x == y || Collision(hash2, a, b) || (p.txHash == q.txHash && p.coinbase != q.coinbase)
  {
    hide Check, AtMostOneSlot;
    a, b := OneCoinbase(hash2, p, q, x, y, nChainId, fStrictChainId);
    if p.coinbase == q.coinbase && p.txHash == q.txHash {
      a, b := Unique(hash2, p, q, x, y, nChainId, fStrictChainId);
    }
  }

  // --------------------------------------------------- without the header

  /** A script with no merged-mining header in which two roots start within the first 20 bytes. */
  function LegacyScript(): (s: seq<nat>)
    ensures |s| == 60 && forall i :: 0 <= i < 60 ==> s[i] == if i == 32 || i == 52 then 1 else 0
  {
    seq(60, i => if i == 32 || i == 52 then 1 else 0)
  }

  lemma LegacySlot(k: nat)
    requires k == 0 || k == 20
    ensures Slot(LegacyScript(), k) && Le32(LegacyScript(), k + 32) == Pow2(0)
  {
    hide Search;
    var s := LegacyScript();
    var r := s[k..k + 32];
    NoHeader(Search(s, MERGED_MINING_HEADER, 0));
    var pc := Search(s, r, 0);
    assert MatchAt(s, r, k);
    if pc < 20 { FirstAt20(pc); }
    assert Le32(s, k + 32) == 1 == Pow2(0);
  }

  lemma NoHeader(i: nat)
    ensures !MatchAt(LegacyScript(), MERGED_MINING_HEADER, i)
  {
    var s := LegacyScript();
    if i + 4 <= |s| { assert s[i..i + 4][0] == s[i]; }
  }

  lemma FirstAt20(i: nat)
    requires i < 20
    ensures !MatchAt(LegacyScript(), LegacyScript()[20..52], i)
  {
    var s := LegacyScript();
    assert s[i..i + 32][12] == s[i + 12] && s[20..52][12] == s[32];
  }

  lemma OneSlot(n: int, chain: int)
    ensures ExpectedIndex(n, chain, 0) == 0
  {
  }

  /** The slot at pc holds the root that x's branch leads to, with the size and the nonce that go with the branch. */
  predicate SlotHolds(hash2: HashPair, p: Proof, script: seq<nat>, pc: nat, x: Hash, nChainId: int) {
    && Slot(script, pc) && Le32(script, pc + 32) == Pow2(|p.vChainMerkleBranch|)
    && p.nChainIndex == ExpectedIndex(Le32(script, pc + 36), nChainId, |p.vChainMerkleBranch|)
    && CheckMerkleBranch(hash2, x, p.vChainMerkleBranch, p.nChainIndex) == Hash(Reverse(script[pc..pc + 32]))
  }

  /**
    A proof is accepted for a block if and only if it is about a coinbase transaction at index 0 of the
    parent block, the parent is of another chain (if that is asked for), the branch has at most 30 hashes,
    and some slot of the coinbase holds the root that the block's branch leads to.
   */
  lemma CheckIffSlot(hash2: HashPair, p: Proof, x: Hash, nChainId: int, fStrictChainId: bool)
    ensures Check(hash2, p, x, nChainId, fStrictChainId) <==>
      && p.nIndex == 0 && !(fStrictChainId && p.parentChainId == nChainId) && |p.vChainMerkleBranch| <= 30
      && CheckMerkleBranch(hash2, p.txHash, p.vMerkleBranch, 0) == p.parentMerkleRoot
      && p.coinbase.Some? && exists pc: nat :: SlotHolds(hash2, p, p.coinbase.value, pc, x, nChainId)
  {
    hide Search, ScriptOk, Climb, ExpectedIndex, Le32, Pow2, SizeAt;
    var root := CheckMerkleBranch(hash2, x, p.vChainMerkleBranch, p.nChainIndex);
    if Check(hash2, p, x, nChainId, fStrictChainId) {
      var script := p.coinbase.value;
      AcceptedInSlot(script, Reverse(root.bytes), |p.vChainMerkleBranch|, p.nChainIndex, nChainId);
      var pc := Search(script, Reverse(root.bytes), 0);
      ReverseTwice(root.bytes);
      assert SlotHolds(hash2, p, script, pc, x, nChainId);
    }
    if p.coinbase.Some? {
      if pc: nat :| SlotHolds(hash2, p, p.coinbase.value, pc, x, nChainId) {
        ReverseTwice(p.coinbase.value[pc..pc + 32]);
        SlotAccepted(p.coinbase.value, pc, |p.vChainMerkleBranch|, nChainId);
      }
    }
  }

  lemma ReverseTwice(s: seq<nat>)
    ensures Reverse(Reverse(s)) == s
  {
  }

  // ------------------------------------------------------------ honest mining

  /** A coinbase script that commits to a root as merged miners do, between any other bytes. */
  function Commitment(before: seq<nat>, root: Hash, h: nat, nNonce: nat, after: seq<nat>): seq<nat> {
    before + MERGED_MINING_HEADER + Reverse(root.bytes) + ToLe32(Pow2(h)) + ToLe32(nNonce) + after
  }

  lemma CommitmentParts(before: seq<nat>, root: Hash, h: nat, nNonce: nat, after: seq<nat>)
    requires Wide(root) && h <= 30 && nNonce < BASE
    ensures var s, pc := Commitment(before, root, h, nNonce, after), |before| + 4;
      && pc + 40 <= |s| && s[pc..pc + 32] == Reverse(root.bytes)
      && Le32(s, pc + 32) == Pow2(h) && Le32(s, pc + 36) == nNonce
  {
    hide Le32, Reverse, ToLe32;
    var s, pc := Commitment(before, root, h, nNonce, after), |before| + 4;
    assert s[pc + 32..pc + 36] == ToLe32(Pow2(h));
    assert s[pc + 36..pc + 40] == ToLe32(nNonce);
    Pow2Add(h, 32 - h);
    BaseIsPow2();
    Pow2Small(h);
    Le32Inverse(s, pc + 32, Pow2(h));
    Le32Inverse(s, pc + 36, nNonce);
  }

  lemma Pow2Small(h: nat)
    requires h <= 30
    ensures Pow2(h) < BASE
  {
    hide Pow2;
    Pow2Add(h, 32 - h);
    BaseIsPow2();
    var k := 31 - h;
    Pow2Double(k);
    assert Pow2(h) * Pow2(32 - h) >= Pow2(h) * 2;
  }

  /**
    An honest miner is believed: put the aux blocks of all chains into a full tree, each at the index its
    chain id and the nonce select, commit to the root once in the coinbase, and take the two branches.
   */
  lemma HonestProofAccepted(hash2: HashPair, leaves: seq<Hash>, h: nat, nNonce: nat, before: seq<nat>,
                            after: seq<nat>, txids: seq<Hash>, nChainId: int, parentChainId: int, fStrict: bool)
    returns (p: Proof)
    requires h <= 30 && |leaves| == Pow2(h) && nNonce < BASE && txids != []
    requires Wide(Merkle.Root(hash2, leaves)) && !(fStrict && parentChainId == nChainId)
    requires var script := Commitment(before, Merkle.Root(hash2, leaves), h, nNonce, after);
      && Search(script, MERGED_MINING_HEADER, 0) == |before|
      && Search(script, MERGED_MINING_HEADER, |before| + 1) == |script|
      && Search(script, Reverse(Merkle.Root(hash2, leaves).bytes), 0) == |before| + 4
    ensures p.txHash == txids[0] && p.parentMerkleRoot == Merkle.Root(hash2, txids)
    ensures p.coinbase == Some(Commitment(before, Merkle.Root(hash2, leaves), h, nNonce, after))
    ensures p.parentChainId == parentChainId
    ensures Check(hash2, p, leaves[ExpectedIndex(nNonce, nChainId, h)], nChainId, fStrict)
  {
    hide Search, Climb, Le32, Pow2, Reverse, Commitment, ScriptOk, SizeAt;
    var root := Merkle.Root(hash2, leaves);
    var script := Commitment(before, root, h, nNonce, after);
    var i := ExpectedIndex(nNonce, nChainId, h);
    var pc := |before| + 4;
    p := Proof(txids[0], Some(script), Merkle.Branch(hash2, txids, 0), 0, Merkle.Branch(hash2, leaves, i), i,
               parentChainId, Merkle.Root(hash2, txids));
    CommitmentParts(before, root, h, nNonce, after);
    Merkle.BranchLength(hash2, leaves, i, h);
    ClimbReachesRoot(hash2, leaves, i);
    ClimbReachesRoot(hash2, txids, 0);
    SizeHere(script, pc + 32, h);
    ReverseTwice(root.bytes);
    assert Slot(script, pc);
    assert SlotHolds(hash2, p, script, pc, leaves[i], nChainId);
    CheckIffSlot(hash2, p, leaves[i], nChainId, fStrict);
  }

  lemma SizeHere(script: seq<nat>, i: nat, h: nat)
    requires i + 4 <= |script| && h <= 30 && Le32(script, i) == Pow2(h)
    ensures SizeAt(script, i)
  {
    hide Le32, Pow2;
  }

  // --------------------------------------------------- the minimal proof

  /** initAuxPow's coinbase script: one push of 40 bytes, the block hash, a tree size of one and a nonce of zero. */
  function InitScript(x: Hash): (s: seq<nat>)
    requires Wide(x)
    ensures |s| == 41 && s[0] == 40 && s[1..33] == Reverse(x.bytes) && s[33..] == [1, 0, 0, 0, 0, 0, 0, 0]
  {
    [40] + Reverse(x.bytes) + [1, 0, 0, 0, 0, 0, 0, 0]
  }

  /** A parent block of version 1 with this coinbase as its only transaction. */
  function InitProof(tx: Hash, x: Hash): Proof
    requires Wide(x)
  {
    Proof(tx, Some(InitScript(x)), [], 0, [], 0, 0, tx)
  }

  lemma {:induction false} AllForties(s: seq<nat>, r: seq<nat>, i: nat)
    requires |r| == 32 && |s| > 32 && s[0] == 40 && s[1..33] == r && s[0..32] == r && i < 32
    ensures r[i] == 40
  {
    if i > 0 {
      AllForties(s, r, i - 1);
      assert r[i] == s[0..32][i] && s[1..33][i - 1] == r[i - 1];
    } else {
      assert s[0..32][0] == s[0];
    }
  }

  /** The root is first found right after the push, unless every byte of it is the push itself. */
  lemma InitRootAt(x: Hash)
    requires Wide(x)
    ensures Search(InitScript(x), Reverse(x.bytes), 0) ==
      if forall i :: 0 <= i < 32 ==> x.bytes[i] == 40 then 0 else 1
  {
    hide Search, InitScript;
    var s, r := InitScript(x), Reverse(x.bytes);
    assert MatchAt(s, r, 1);
    if forall i :: 0 <= i < 32 ==> x.bytes[i] == 40 {
      forall i | 0 <= i < 32 ensures s[0..32][i] == r[i] { if i > 0 { assert s[1..33][i - 1] == s[i]; } }
      assert s[0..32] == r;
      assert MatchAt(s, r, 0);
    } else if MatchAt(s, r, 0) {
      forall i | 0 <= i < 32 ensures x.bytes[i] == 40 {
        AllForties(s, r, 31 - i);
        assert r[31 - i] == x.bytes[i];
      }
      assert false;
    }
  }

  /**
    The proof that initAuxPow makes is accepted if and only if the chain may have this parent, the
    merged-mining header does not happen to occur in the block hash, and the hash is not forty all over.
   */
  lemma InitProofAcceptedIff(hash2: HashPair, tx: Hash, x: Hash, nChainId: int, fStrictChainId: bool)
    requires Wide(x)
    ensures Check(hash2, InitProof(tx, x), x, nChainId, fStrictChainId) <==>
      && !(fStrictChainId && nChainId == 0) && !HasHeader(InitScript(x))
      && !(forall i :: 0 <= i < 32 ==> x.bytes[i] == 40)
  {
    hide Search, InitScript, ExpectedIndex, Pow2;
    var s := InitScript(x);
    InitRootAt(x);
    OneSlot(Le32(s, 36), nChainId);
    OneSlot(Le32(s, 37), nChainId);
    assert s[33..][0] == s[33] && s[33..][1] == s[34] && s[33..][2] == s[35] && s[33..][3] == s[36];
    assert s[1..33][31] == s[32];
    Pow2Double(0);
    assert Le32(s, 33) == 1;
    assert Le32(s, 32) != 1;
  }

  /** The rule without the header alone does not make the aux block unique: one proof, two blocks. */
  lemma LegacyNotUnique(hash2: HashPair, t: Hash, nChainId: int) returns (p: Proof, x: Hash, y: Hash)
    requires nChainId != 0
    ensures x != y && Check(hash2, p, x, nChainId, true) && Check(hash2, p, y, nChainId, true)
    ensures !HasHeader(p.coinbase.value) && !AtMostOneSlot(p.coinbase.value)
  {
    hide Search, Check, ExpectedIndex, Slot;
    var s := LegacyScript();
    p := Proof(t, Some(s), [], 0, [], 0, 0, t);
    x, y := Hash(Reverse(s[0..32])), Hash(Reverse(s[20..52]));
    LegacySlot(0);
    LegacySlot(20);
    OneSlot(Le32(s, 36), nChainId);
    OneSlot(Le32(s, 56), nChainId);
    ReverseTwice(s[0..32]);
    assert SlotHolds(hash2, p, s, 0, x, nChainId) && SlotHolds(hash2, p, s, 20, y, nChainId);
    CheckIffSlot(hash2, p, x, nChainId, true);
    CheckIffSlot(hash2, p, y, nChainId, true);
    NoHeader(Search(s, MERGED_MINING_HEADER, 0));
    assert Reverse(x.bytes)[12] == s[12] && Reverse(y.bytes)[12] == s[32];
  }
}
