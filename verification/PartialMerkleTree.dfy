/**
  CPartialMerkleTree as it is written: an object whose vectors grow during construction and
  whose bad flag is set during extraction.
 */
module PartialMerkleTree {
  import opened Common
  import opened PartialMerkle

  lemma BuildUnfold(H: Hasher, txids: seq<Hash>, vMatch: seq<bool>, h: nat, pos: nat)
    requires pos < Width(|txids|, h)
    ensures (h == 0 || !ParentOfMatch(vMatch, h, pos)) ==>
              Build(H, txids, vMatch, h, pos) == Built([ParentOfMatch(vMatch, h, pos)], [CalcHash(H, txids, h, pos)])
    ensures h > 0 ==> 2 * pos < Width(|txids|, h - 1)
    ensures h > 0 && ParentOfMatch(vMatch, h, pos) ==>
              Build(H, txids, vMatch, h, pos) ==
                var l := Build(H, txids, vMatch, h - 1, 2 * pos);
                if 2 * pos + 1 < Width(|txids|, h - 1) then
                  var r := Build(H, txids, vMatch, h - 1, 2 * pos + 1);
                  Built([true] + l.bits + r.bits, l.hashes + r.hashes)
                else Built([true] + l.bits, l.hashes)
  {
    hide Width, Pow2, ParentOfMatch, CalcHash;
    if h > 0 { ChildrenExist(|txids|, h, pos); }
  }

  lemma ExtractUnfold(H: Hasher, n: nat, vBits: seq<bool>, vHash: seq<Hash>, h: nat, pos: nat, nBits: nat, nHash: nat)
    ensures nBits >= |vBits| ==>
              Extract(H, n, vBits, vHash, h, pos, nBits, nHash) == Ext(ZERO, nBits, nHash, true, [])
    ensures nBits < |vBits| && (h == 0 || !vBits[nBits]) ==>
              Extract(H, n, vBits, vHash, h, pos, nBits, nHash) ==
                if nHash >= |vHash| then Ext(ZERO, nBits + 1, nHash, true, [])
                else Ext(vHash[nHash], nBits + 1, nHash + 1, false,
                         if h == 0 && vBits[nBits] then [Match(vHash[nHash], pos)] else [])
    ensures nBits < |vBits| && h > 0 && vBits[nBits] ==>
              Extract(H, n, vBits, vHash, h, pos, nBits, nHash) ==
                var l := Extract(H, n, vBits, vHash, h - 1, 2 * pos, nBits + 1, nHash);
                if 2 * pos + 1 < Width(n, h - 1) then
                  var r := Extract(H, n, vBits, vHash, h - 1, 2 * pos + 1, l.nBits, l.nHash);
                  Ext(H(l.hash, r.hash), r.nBits, r.nHash, l.bad || r.bad || r.hash == l.hash, l.matches + r.matches)
                else Ext(H(l.hash, l.hash), l.nBits, l.nHash, l.bad, l.matches)
  {
    hide Width;
  }

  method TreeHeight(n: nat) returns (nHeight: nat)
    ensures nHeight == Height(n)
  {
    nHeight := 0;
    while Width(n, nHeight) > 1
      invariant HeightFrom(n, nHeight) == Height(n)
      decreases Width(n, nHeight)
    {
      WidthShrinks(n, nHeight);
      nHeight := nHeight + 1;
    }
  }

  /** Whether some matched leaf is below the node, by looking at all of them. */
  method AnyBelow(vMatch: seq<bool>, height: nat, pos: nat) returns (fParentOfMatch: bool)
    requires pos < Width(|vMatch|, height)
    ensures fParentOfMatch == ParentOfMatch(vMatch, height, pos)
  {
    NodeExists(|vMatch|, height, pos);
    var lo, hi := pos * Pow2(height), (pos + 1) * Pow2(height);
    assert lo <= hi;
    fParentOfMatch := false;
    var p := lo;
    while p < hi && p < |vMatch|
      invariant lo <= p <= |vMatch| && p <= hi
      invariant fParentOfMatch == AnyMatch(vMatch, lo, p)
    {
      fParentOfMatch := fParentOfMatch || vMatch[p];
      p := p + 1;
    }
  }

  class PartialMerkleTree {
    const H: Hasher
    const nTransactions: nat
    var vBits: seq<bool>
    var vHash: seq<Hash>
    var fBad: bool

    ghost function T(): Tree
      reads this
    {
      Tree(nTransactions, vBits, vHash, fBad)
    }

    /** The constructor from a list of transaction ids and a mask. */
    constructor (H: Hasher, vTxid: seq<Hash>, vMatch: seq<bool>)
      requires 0 < |vTxid| == |vMatch|
      ensures this.H == H && T() == BuildTree(H, vTxid, vMatch)
    {
      this.H := H;
      nTransactions := |vTxid|;
      vBits := [];
      vHash := [];
      fBad := false;
      new;
      var nHeight := TreeHeight(nTransactions);
      RootExists(nTransactions);
      TraverseAndBuild(nHeight, 0, vTxid, vMatch);
    }

    /** A tree as read from the network. */
    constructor Received(H: Hasher, nTransactions: nat, vBits: seq<bool>, vHash: seq<Hash>)
      ensures this.H == H && T() == Tree(nTransactions, vBits, vHash, false)
    {
      this.H := H;
      this.nTransactions := nTransactions;
      this.vBits := vBits;
      this.vHash := vHash;
      fBad := false;
    }

    method TraverseAndBuild(height: nat, pos: nat, vTxid: seq<Hash>, vMatch: seq<bool>)
      requires |vTxid| == |vMatch| == nTransactions && pos < Width(nTransactions, height)
      modifies this
      ensures vBits == old(vBits) + Build(H, vTxid, vMatch, height, pos).bits
      ensures vHash == old(vHash) + Build(H, vTxid, vMatch, height, pos).hashes
      ensures fBad == old(fBad)
      decreases height
    {
      hide Width, CalcHash, ParentOfMatch, Build, Pow2;
      BuildUnfold(H, vTxid, vMatch, height, pos);
      var fParentOfMatch := AnyBelow(vMatch, height, pos);
      vBits := vBits + [fParentOfMatch];
      if height == 0 || !fParentOfMatch {
        vHash := vHash + [CalcHash(H, vTxid, height, pos)];
      } else {
        TraverseAndBuild(height - 1, 2 * pos, vTxid, vMatch);
        ghost var l := Build(H, vTxid, vMatch, height - 1, 2 * pos);
        assert vBits == old(vBits) + ([true] + l.bits);
        if 2 * pos + 1 < Width(nTransactions, height - 1) {
          TraverseAndBuild(height - 1, 2 * pos + 1, vTxid, vMatch);
          ghost var r := Build(H, vTxid, vMatch, height - 1, 2 * pos + 1);
          assert vBits == old(vBits) + ([true] + l.bits + r.bits);
          assert vHash == old(vHash) + (l.hashes + r.hashes);
        }
      }
    }

    /** The cursors and the output vectors are passed along and returned. */
    method TraverseAndExtract(height: nat, pos: nat, nBitsIn: nat, nHashIn: nat, found: seq<Match>)
      returns (hash: Hash, nBits: nat, nHash: nat, matches: seq<Match>)
      modifies this`fBad
      ensures var e := Extract(H, nTransactions, vBits, vHash, height, pos, nBitsIn, nHashIn);
              && hash == e.hash && nBits == e.nBits && nHash == e.nHash
              && matches == found + e.matches && fBad == (old(fBad) || e.bad)
      decreases height
    {
      hide Width, Extract;
      ExtractUnfold(H, nTransactions, vBits, vHash, height, pos, nBitsIn, nHashIn);
      nBits, nHash, matches := nBitsIn, nHashIn, found;
      if nBits >= |vBits| {
        fBad := true;
        return ZERO, nBits, nHash, matches;
      }
      var fParentOfMatch := vBits[nBits];
      nBits := nBits + 1;
      if height == 0 || !fParentOfMatch {
        if nHash >= |vHash| {
          fBad := true;
          return ZERO, nBits, nHash, matches;
        }
        hash := vHash[nHash];
        nHash := nHash + 1;
        if height == 0 && fParentOfMatch {
          matches := matches + [Match(hash, pos)];
        }
      } else {
        var left, right;
        left, nBits, nHash, matches := TraverseAndExtract(height - 1, 2 * pos, nBits, nHash, matches);
        ghost var l := Extract(H, nTransactions, vBits, vHash, height - 1, 2 * pos, nBitsIn + 1, nHashIn);
        if 2 * pos + 1 < Width(nTransactions, height - 1) {
          right, nBits, nHash, matches := TraverseAndExtract(height - 1, 2 * pos + 1, nBits, nHash, matches);
          ghost var r := Extract(H, nTransactions, vBits, vHash, height - 1, 2 * pos + 1, l.nBits, l.nHash);
          assert matches == found + (l.matches + r.matches);
          if right == left {
            fBad := true;
          }
        } else {
          right := left;
        }
        hash := H(left, right);
      }
    }

    method ExtractMatches() returns (root: Hash, matches: seq<Match>)
      modifies this`fBad
      ensures root == PartialMerkle.ExtractMatches(H, old(T()))
      ensures Accepts(H, old(T())) ==> matches == Traversal(H, old(T())).matches
    {
      hide Width, Extract;
      matches := [];
      if nTransactions == 0 || nTransactions > MAX_BLOCK_BASE_SIZE / 60 || |vHash| > nTransactions
        || |vBits| < |vHash| {
        return ZERO, matches;
      }
      var nHeight := TreeHeight(nTransactions);
      var hash, nBitsUsed, nHashUsed;
      hash, nBitsUsed, nHashUsed, matches := TraverseAndExtract(nHeight, 0, 0, 0, matches);
      if fBad || (nBitsUsed + 7) / 8 != (|vBits| + 7) / 8 || nHashUsed != |vHash| {
        return ZERO, matches;
      }
      return hash, matches;
    }
  }
}
