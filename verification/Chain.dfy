/**
  Block index entries and the active chain (src/chain.h, src/chain.cpp).  Entries form a tree
  by their pprev links; each also has a skip link, and the active chain is a vector indexed by
  height.  Both shortcuts are proved to agree with walking pprev.
 */
module Chain {
  import opened Common
  import opened SkipList

  // -------------------------------------------------------------- block index

  /** An entry of the block tree; its links are set once, when it is added. */
  class BlockIndex {
    const pprev: BlockIndex?
    const pskip: BlockIndex?
    const nHeight: nat

    /** Heights count the entries down to the root. */
    predicate Rooted()
      decreases nHeight
    {
      if pprev == null then nHeight == 0
      else nHeight > 0 && pprev.nHeight == nHeight - 1 && pprev.Rooted()
    }

    /** The plain walk: follow pprev down to the given height. */
    function Walk(height: nat): (r: BlockIndex)
      requires Rooted() && height <= nHeight
      ensures r.Rooted() && r.nHeight == height
      decreases nHeight
    {
      if height == nHeight then this else pprev.Walk(height)
    }

    /** The skip links of this entry and those below lead to ancestors. */
    ghost predicate Skips()
      requires Rooted()
      decreases nHeight
    {
      pprev != null ==> pprev.Skips() && pskip == pprev.Walk(GetSkipHeight(nHeight))
    }

    ghost predicate Valid() {
      Rooted() && Skips()
    }

    /** A new entry on top of prev, with BuildSkip. */
    constructor (prev: BlockIndex?)
      requires prev != null ==> prev.Valid()
      ensures Valid() && pprev == prev
    {
      pprev := prev;
      if prev == null {
        nHeight := 0;
        pskip := null;
      } else {
        nHeight := prev.nHeight + 1;
        var skip, _ := prev.GetAncestor(GetSkipHeight(prev.nHeight + 1));
        pskip := skip;
      }
    }

    /** Ancestors of ancestors are ancestors. */
    lemma {:induction false} WalkTwice(h: nat, k: nat)
      requires Rooted() && k <= h <= nHeight
      ensures Walk(h).Walk(k) == Walk(k)
      decreases nHeight
    {
      if h < nHeight { pprev.WalkTwice(h, k); }
    }

    /** One step further down. */
    lemma {:induction false} WalkPrev(h: nat)
      requires Rooted() && h <= nHeight
      ensures Walk(h).pprev == if h == 0 then null else Walk(h - 1)
      decreases nHeight
    {
      if h < nHeight { pprev.WalkPrev(h); }
    }

    lemma {:induction false} WalkSkips(h: nat)
      requires Valid() && h <= nHeight
      ensures Walk(h).Skips()
      decreases nHeight
    {
      if h < nHeight { pprev.WalkSkips(h); }
    }

    /** The ancestor at a height, by skip links where they help; null outside the chain. */
    method GetAncestor(height: int) returns (r: BlockIndex?, ghost steps: nat)
      requires Valid()
      ensures r == if 0 <= height <= nHeight then Walk(height) else null
      ensures forall k: nat :: nHeight < Pow2(k) ==> steps <= k * k
    {
      hide And, Steps;
      steps := 0;
      if height > nHeight || height < 0 {
        return null, 0;
      }
      var walk: BlockIndex, heightWalk := this, nHeight;
      while heightWalk > height
        invariant walk.Valid() && walk.nHeight == heightWalk >= height && walk.Walk(height) == Walk(height)
        invariant steps + Steps(heightWalk, height) == Steps(nHeight, height)
        decreases heightWalk
      {
        StepTaken(heightWalk, height);
        steps := steps + 1;
        var heightSkip := GetSkipHeight(heightWalk);
        var heightSkipPrev := GetSkipHeight(heightWalk - 1);
        if walk.pskip != null &&
           (heightSkip == height ||
            (heightSkip > height && !(heightSkipPrev < heightSkip - 2 && heightSkipPrev >= height))) {
          walk.WalkSkips(heightSkip);
          walk.WalkTwice(heightSkip, height);
          walk := walk.pskip;
          heightWalk := heightSkip;
        } else {
          assert walk.pprev != null;
          walk := walk.pprev;
          heightWalk := heightWalk - 1;
        }
      }
      forall k: nat | nHeight < Pow2(k) ensures steps <= k * k { FewSteps(nHeight, height, k); }
      return walk, steps;
    }
  }

  // ------------------------------------------------------------- active chain

  class ActiveChain {
    var vChain: seq<BlockIndex?>

    /** The chain of a tip: its ancestors by height. */
    static ghost predicate PathOf(v: seq<BlockIndex?>, tip: BlockIndex)
      requires tip.Rooted()
    {
      |v| == tip.nHeight + 1 && forall i :: 0 <= i < |v| ==> v[i] == tip.Walk(i)
    }

    /** The vector is empty or the path of its last entry. */
    ghost predicate Valid()
      reads this
    {
      vChain == [] || (vChain[|vChain| - 1] != null && vChain[|vChain| - 1].Valid()
        && PathOf(vChain, vChain[|vChain| - 1]))
    }

    constructor ()
      ensures Valid() && vChain == []
    {
      vChain := [];
    }

    function Height(): int
      reads this
    {
      |vChain| - 1
    }

    function Tip(): BlockIndex?
      reads this
    {
      if |vChain| > 0 then vChain[|vChain| - 1] else null
    }

    /** operator[] */
    function At(nHeight: int): BlockIndex?
      reads this
    {
      if nHeight < 0 || nHeight >= |vChain| then null else vChain[nHeight]
    }

    predicate Contains(b: BlockIndex)
      reads this
    {
      At(b.nHeight) == b
    }

    /** In a valid chain, exactly the tip's ancestors are contained. */
    lemma ContainsMeans(b: BlockIndex)
      requires Valid() && b.Rooted()
      ensures Contains(b) <==> Tip() != null && b.nHeight <= Height() && Tip().Walk(b.nHeight) == b
    {
    }

    /** Below a contained block everything is contained. */
    lemma ContainsBelow(b: BlockIndex, h: nat)
      requires Valid() && b.Rooted() && Contains(b) && h <= b.nHeight
      ensures At(h) == b.Walk(h) && Contains(b.Walk(h))
    {
      Tip().WalkTwice(b.nHeight, h);
    }

    /** The successor of a block in the chain, if it has one. */
    function Next(b: BlockIndex): BlockIndex?
      reads this
    {
      if Contains(b) then At(b.nHeight + 1) else null
    }

    lemma NextFollows(b: BlockIndex)
      requires Valid() && b.Rooted()
      ensures Next(b) != null <==> Contains(b) && b != Tip()
      ensures Next(b) != null ==> Next(b).pprev == b && Contains(Next(b))
    {
      if Contains(b) && b.nHeight < Height() {
        var t := Tip();
        var n := t.Walk(b.nHeight + 1);
        t.WalkTwice(b.nHeight + 1, b.nHeight);
        assert n.Walk(b.nHeight) == n.pprev.Walk(b.nHeight);
      }
    }

    /** Stops as soon as it meets a block that is already in place. */
    method SetTip(pindex: BlockIndex?)
      requires Valid() && (pindex != null ==> pindex.Valid())
      modifies this
      ensures Valid()
      ensures pindex == null ==> vChain == []
      ensures pindex != null ==> PathOf(vChain, pindex) && Tip() == pindex
    {
      if pindex == null {
        vChain := [];
        return;
      }
      ghost var before := vChain;
      var n := pindex.nHeight + 1;
      vChain := if n <= |vChain| then vChain[..n] else vChain + seq(n - |vChain|, _ => null);
      var p: BlockIndex? := pindex;
      while p != null && vChain[p.nHeight] != p
        invariant |vChain| == n
        invariant p != null ==> p.Rooted() && p.nHeight < n && p == pindex.Walk(p.nHeight)
        invariant forall i :: (if p == null then 0 else p.nHeight + 1) <= i < n ==> vChain[i] == pindex.Walk(i)
        invariant forall i :: 0 <= i < n && (p != null ==> i <= p.nHeight) && p != null ==>
          vChain[i] == if i < |before| then before[i] else null
        decreases if p == null then 0 else p.nHeight + 1
      {
        vChain := vChain[p.nHeight := p];
        pindex.WalkPrev(p.nHeight);
        p := p.pprev;
      }
      if p != null {
        ghost var tip := before[|before| - 1];
        forall i | 0 <= i <= p.nHeight ensures vChain[i] == pindex.Walk(i) {
          tip.WalkTwice(p.nHeight, i);
          pindex.WalkTwice(p.nHeight, i);
        }
      }
      assert vChain[n - 1] == pindex.Walk(n - 1);
    }

    /** The last block that pindex and the chain have in common, if any. */
    method FindFork(pindex: BlockIndex?) returns (r: BlockIndex?)
      requires Valid() && (pindex != null ==> pindex.Valid())
      ensures r != null ==> pindex != null && r.nHeight <= pindex.nHeight && r == pindex.Walk(r.nHeight) && Contains(r)
      ensures pindex != null ==> forall h :: (if r == null then 0 else r.nHeight + 1) <= h <= pindex.nHeight ==>
        !Contains(pindex.Walk(h))
    {
      if pindex == null {
        return null;
      }
      r := pindex;
      if pindex.nHeight > Height() {
        ghost var steps;
        r, steps := pindex.GetAncestor(Height());
      }
      while r != null && !Contains(r)
        invariant r != null ==> r.nHeight <= pindex.nHeight && r == pindex.Walk(r.nHeight)
        invariant forall h :: (if r == null then 0 else r.nHeight + 1) <= h <= pindex.nHeight ==>
          !Contains(pindex.Walk(h))
        decreases if r == null then 0 else r.nHeight + 1
      {
        pindex.WalkPrev(r.nHeight);
        r := r.pprev;
      }
    }

    /** The entries of a locator for a block (the tip if none is given): see LocatorOf. */
    method GetLocator(pindex: BlockIndex?) returns (vHave: seq<BlockIndex>)
      requires Valid() && (pindex != null ==> pindex.Valid())
      ensures pindex == null && Tip() == null ==> vHave == []
      ensures pindex != null || Tip() != null ==> LocatorOf(if pindex != null then pindex else Tip(), vHave)
    {
      hide Valid, Contains, BlockIndex.Valid, BlockIndex.Walk, BlockIndex.Rooted, Listing, LocatorOf, Step;
      var nStep := 1;
      vHave := [];
      var p := pindex;
      if p == null {
        p := Tip();
      }
      ghost var start := p;
      if p == null {
        return;
      }
      TipIsValid();
      ListStart(start);
      while true
        invariant p != null && Listing(start, p, vHave) && nStep == Step(|vHave|)
        decreases p.nHeight
      {
        ListStep(start, p, vHave);
        vHave := vHave + [p];
        if p.nHeight == 0 {
          break;
        }
        p := Below(p, Max(p.nHeight - nStep, 0));
        if |vHave| > 10 {
          nStep := nStep * 2;
        }
      }
    }

    lemma TipIsValid()
      requires Valid()
      ensures Tip() != null ==> Tip().Valid()
    {
    }

    /** An ancestor, from the vector if the block is in the chain. */
    method Below(b: BlockIndex, height: nat) returns (r: BlockIndex?)
      requires Valid() && b.Valid() && height <= b.nHeight
      ensures r == b.Walk(height)
    {
      if Contains(b) {
        ContainsBelow(b, height);
        r := At(height);
      } else {
        ghost var steps;
        r, steps := b.GetAncestor(height);
      }
    }
  }

  // ------------------------------------------------------------------ locators

  /** The step back once n entries are listed. */
  function Step(n: nat): nat {
    if n <= 10 then 1 else Pow2(n - 10)
  }

  /** How far below the start the entry after n others lies, if that is not below genesis. */
  function Drop(n: nat): nat {
    if n <= 10 then n else 9 + Pow2(n - 10)
  }

  lemma StepDrop(n: nat)
    ensures Drop(n + 1) == Drop(n) + Step(n)
    ensures Step(n + 1) == if n + 1 > 10 then 2 * Step(n) else Step(n)
    ensures Step(n) > 0
  {
    hide Pow2;
    Pow2Double(0);
    if n > 10 { Pow2Double(n - 10); }
  }

  /** Ancestors of start in strictly falling order, from start itself. */
  ghost predicate Descending(start: BlockIndex, v: seq<BlockIndex>)
    requires start.Rooted()
  {
    && (forall i :: 0 <= i < |v| ==> v[i].nHeight <= start.nHeight && v[i] == start.Walk(v[i].nHeight))
    && (forall i, j :: 0 <= i < j < |v| ==> v[i].nHeight > v[j].nHeight)
    && (|v| > 0 ==> v[0] == start)
  }

  /** From start strictly down to genesis, at distances Drop(0), Drop(1), ...: logarithmically many entries. */
  ghost predicate LocatorOf(start: BlockIndex, v: seq<BlockIndex>)
    requires start.Rooted()
  {
    && Descending(start, v)
    && |v| > 0 && v[|v| - 1].nHeight == 0
    && (forall i :: 0 <= i < |v| ==> v[i].nHeight == Max(0, start.nHeight - Drop(i)))
    && (|v| > 12 ==> Pow2(|v| - 12) < start.nHeight)
  }

  /** The loop of GetLocator about to list p after the entries of v. */
  ghost predicate Listing(start: BlockIndex, p: BlockIndex, v: seq<BlockIndex>) {
    && start.Valid() && p.Valid() && p.nHeight <= start.nHeight && p == start.Walk(p.nHeight)
    && p.nHeight == Max(0, start.nHeight - Drop(|v|))
    && (forall i :: 0 <= i < |v| ==> 0 < v[i].nHeight == start.nHeight - Drop(i) && v[i] == start.Walk(v[i].nHeight))
    && (|v| > 0 ==> v[0] == start)
  }

  lemma {:induction false} DropGrows(i: nat, j: nat)
    requires i < j
    ensures Drop(i) < Drop(j)
    decreases j
  {
    StepDrop(j - 1);
    if i < j - 1 { DropGrows(i, j - 1); }
  }

  lemma ListStart(start: BlockIndex)
    requires start.Valid()
    ensures Listing(start, start, []) && Step(0) == 1
  {
  }

  /** Listing p either completes the locator or leads to the next entry. */
  lemma ListStep(start: BlockIndex, p: BlockIndex, v: seq<BlockIndex>)
    requires Listing(start, p, v)
    ensures start.Rooted() && p.Valid()
    ensures p.nHeight == 0 ==> LocatorOf(start, v + [p])
    ensures p.nHeight > 0 ==>
      var h := Max(p.nHeight - Step(|v|), 0);
      0 <= h < p.nHeight && Listing(start, p.Walk(h), v + [p])
    ensures Step(|v| + 1) == if |v| + 1 > 10 then 2 * Step(|v|) else Step(|v|)
  {
    hide Drop, Step, BlockIndex.Skips;
    StepDrop(|v|);
    NoDrop();
    if p.nHeight == 0 {
      Listed(start, p, v);
    } else {
      var h := Max(p.nHeight - Step(|v|), 0);
      start.WalkTwice(p.nHeight, h);
      start.WalkSkips(h);
    }
  }

  lemma Listed(start: BlockIndex, p: BlockIndex, v: seq<BlockIndex>)
    requires Listing(start, p, v) && p.nHeight == 0
    ensures LocatorOf(start, v + [p])
  {
    hide Drop, Step, BlockIndex.Skips;
    NoDrop();
    var v' := v + [p];
    forall i, j | 0 <= i < j < |v'| ensures v'[i].nHeight > v'[j].nHeight {
      if j < |v| { DropGrows(i, j); }
    }
    if |v'| > 12 { LongDrop(|v| - 1); }
  }

  lemma NoDrop()
    ensures Drop(0) == 0
  {
  }

  lemma LongDrop(n: nat)
    requires n > 10
    ensures Drop(n) > Pow2(n - 10)
  {
  }
}
