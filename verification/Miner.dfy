/**
  CreateNewBlock's transaction selection as it runs: an object whose counters, vectors and
  sets change while addPriorityTxs and then addPackageTxs work through the memory pool.
 */
module Miner {
  import opened Common
  import opened Mempool
  import opened Packages

  /** What a BlockAssembler is configured with. */
  datatype Limits = Limits(nBlockMaxWeight: nat, nBlockMaxSize: nat, fIncludeWitness: bool)

  /** Lock times are met, and no witness where witnesses are not accepted yet. */
  predicate Admissible(p: Pool, l: Limits, t: Tx) {
    t in p.entries && p.entries[t].isFinal && (l.fIncludeWitness || !p.entries[t].hasWitness)
  }

  /** What the template holds and what the counters say about it. */
  datatype Contents = Contents(vtx: seq<Tx>, inBlock: set<Tx>, weight: nat, sigOps: nat, size: nat, fees: int)

  function TotalFees(p: Pool, vtx: seq<Tx>): int {
    if vtx == [] then 0
    else TotalFees(p, vtx[..|vtx| - 1]) + (var t := vtx[|vtx| - 1]; if t in p.entries then p.entries[t].fee else 0)
  }

  ghost predicate Counted(p: Pool, c: Contents, accounting: bool) {
    && c.weight == COINBASE_WEIGHT + Sum(Weight(p), c.inBlock)
    && c.sigOps == COINBASE_SIGOPS + Sum(SigOps(p), c.inBlock)
    && c.fees == TotalFees(p, c.vtx)
    && (accounting ==> c.size == COINBASE_SIZE + Sum(Serialized(p), c.inBlock))
  }

  ghost predicate WithinLimits(l: Limits, c: Contents, accounting: bool) {
    c.vtx != [] ==>
      && c.weight < l.nBlockMaxWeight && c.sigOps < MAX_BLOCK_SIGOPS_COST
      && (accounting ==> c.size < l.nBlockMaxSize)
  }

  /** No transaction twice, every in-pool ancestor earlier than its descendant, exact counters, limits kept. */
  ghost predicate BlockOk(p: Pool, l: Limits, c: Contents, accounting: bool)
    requires Valid(p)
  {
    && c.inBlock == Elems(c.vtx) && NoRepeats(c.vtx) && Topological(p, c.vtx, {})
    && Counted(p, c, accounting) && WithinLimits(l, c, accounting)
    && forall i :: 0 <= i < |c.vtx| ==> Admissible(p, l, c.vtx[i])
  }

  /** The whole pool fits and is admissible, and any part of it pays the minimum fee. */
  ghost predicate TakesAll(p: Pool, l: Limits, minFee: nat -> int, accounting: bool)
    requires Valid(p)
  {
    var all := p.entries.Keys;
    && FeesExact(p) && (forall t :: t in p.entries ==> Admissible(p, l, t))
    && COINBASE_WEIGHT + WITNESS_SCALE_FACTOR * Sum(Size(p), all) < l.nBlockMaxWeight
    && COINBASE_SIGOPS + Sum(SigOps(p), all) < MAX_BLOCK_SIGOPS_COST
    && (accounting ==> COINBASE_SIZE + Sum(Serialized(p), all) < l.nBlockMaxSize)
    && forall s :: s <= all && s != {} ==> minFee(Sum(Size(p), s)) <= Sum(Fee(p), s)
  }

  /** What became of a candidate package. */
  datatype Outcome = TooCheap | NoRoom | Refused | Added

  /** Why addPriorityTxs stopped: no area, the area full, the block nearly full, or nothing left to try. */
  datatype PriorityEnd = NoArea | Reached | Finished | Drained

  /** Why addPackageTxs stopped: a candidate too cheap, too many in a row without room, or nothing left to try. */
  datatype PackageEnd = CheapCandidate(iter: Tx, m: Modified) | GaveUp(failed: seq<Tx>) | Exhausted

  /** When the first k transactions were in the block, the candidate m for t exceeded weight or signature operations. */
  ghost predicate NoRoomAt(p: Pool, l: Limits, vtx: seq<Tx>, k: nat, t: Tx, m: Modified)
    requires Valid(p) && t in p.entries && k <= |vtx|
  {
    var s := Elems(vtx[..k]);
    && t !in s && Covers(p, t, m, s, false)
    && (|| COINBASE_WEIGHT + Sum(Weight(p), s) + WITNESS_SCALE_FACTOR * m.size >= l.nBlockMaxWeight
        || COINBASE_SIGOPS + Sum(SigOps(p), s) + m.sigOps >= MAX_BLOCK_SIGOPS_COST)
  }

  /** At that time one of t's missing transactions was not admissible, or together they were too big. */
  ghost predicate RefusedAt(p: Pool, l: Limits, vtx: seq<Tx>, k: nat, t: Tx, accounting: bool)
    requires Valid(p) && t in p.entries && k <= |vtx|
  {
    var s := Elems(vtx[..k]);
    var missing := Package(p, t) - s;
    && t !in s
    && (|| (exists q :: q in missing && !Admissible(p, l, q))
        || (accounting && COINBASE_SIZE + Sum(Serialized(p), s) + Sum(Serialized(p), missing) >= l.nBlockMaxSize))
  }

  /** t's package failed one of the two tests when the block held some number of its transactions, at least `from`. */
  ghost predicate TurnedAway(p: Pool, l: Limits, vtx: seq<Tx>, from: nat, t: Tx, accounting: bool)
    requires Valid(p) && t in p.entries
  {
    || (exists k: nat, m :: from <= k <= |vtx| && NoRoomAt(p, l, vtx, k, t, m))
    || (exists k: nat :: from <= k <= |vtx| && RefusedAt(p, l, vtx, k, t, accounting))
  }

  lemma TurnedAwayStays(p: Pool, l: Limits, v: seq<Tx>, vtx: seq<Tx>, from: nat, t: Tx, accounting: bool)
    requires Valid(p) && t in p.entries && v <= vtx && TurnedAway(p, l, v, from, t, accounting)
    ensures TurnedAway(p, l, vtx, from, t, accounting)
  {
    hide Covers, Sum, Package, Elems, Valid;
    if k: nat, m :| from <= k <= |v| && NoRoomAt(p, l, v, k, t, m) {
      assert v[..k] == vtx[..k];
      assert NoRoomAt(p, l, vtx, k, t, m);
    } else {
      var k: nat :| from <= k <= |v| && RefusedAt(p, l, v, k, t, accounting);
      assert v[..k] == vtx[..k];
      assert RefusedAt(p, l, vtx, k, t, accounting);
    }
  }

  /** t would pass all tests on this block, counting its weight and signature operations with all its ancestors. */
  ghost predicate WouldFit(p: Pool, l: Limits, c: Contents, t: Tx, accounting: bool)
    requires Valid(p) && t in p.entries
  {
    && c.weight + WITNESS_SCALE_FACTOR * p.entries[t].sizeWithAncestors < l.nBlockMaxWeight
    && c.sigOps + p.entries[t].sigOpsWithAncestors < MAX_BLOCK_SIGOPS_COST
    && (forall q :: q in Package(p, t) - c.inBlock ==> Admissible(p, l, q))
    && (accounting ==> c.size + Sum(Serialized(p), Package(p, t) - c.inBlock) < l.nBlockMaxSize)
  }

  lemma PrefixOf(vtx: seq<Tx>, k: nat)
    requires k <= |vtx|
    ensures Elems(vtx[..k]) <= Elems(vtx)
  {
  }

  lemma NoRoomThenNoFit(p: Pool, l: Limits, c: Contents, accounting: bool, k: nat, t: Tx, m: Modified)
    requires Valid(p) && TotalsExact(p) && BlockOk(p, l, c, accounting) && t in p.entries && k <= |c.vtx|
    requires NoRoomAt(p, l, c.vtx, k, t, m)
    ensures !WouldFit(p, l, c, t, accounting)
  {
    hide TotalsExact, Sum, Package, Elems, Valid, Topological, NoRepeats, Admissible;
    PrefixOf(c.vtx, k);
    TotalsOf(p, t);
    SumSubset(Weight(p), Elems(c.vtx[..k]), c.inBlock);
    SumSubset(SigOps(p), Elems(c.vtx[..k]), c.inBlock);
  }

  lemma InadmissibleStaysOut(p: Pool, l: Limits, c: Contents, accounting: bool, q: Tx)
    requires Valid(p) && BlockOk(p, l, c, accounting) && !Admissible(p, l, q)
    ensures q !in c.inBlock
  {
  }

  /** What the block gained since then and what is still missing hold everything that was missing. */
  lemma RefusedThenNoFit(p: Pool, l: Limits, c: Contents, accounting: bool, k: nat, t: Tx)
    requires Valid(p) && BlockOk(p, l, c, accounting) && t in p.entries && k <= |c.vtx|
    requires RefusedAt(p, l, c.vtx, k, t, accounting)
    ensures !WouldFit(p, l, c, t, accounting)
  {
    hide Sum, Package, Valid, Topological, NoRepeats, Admissible;
    var s := Elems(c.vtx[..k]);
    PrefixOf(c.vtx, k);
    var missing, still := Package(p, t) - s, Package(p, t) - c.inBlock;
    if q :| q in missing && !Admissible(p, l, q) {
      InadmissibleStaysOut(p, l, c, accounting, q);
    } else {
      SumDisjoint(Serialized(p), s, missing);
      SumSubset(Serialized(p), s + missing, c.inBlock + still);
      SumDisjoint(Serialized(p), c.inBlock, still);
    }
  }

  /** Whoever was turned away at any time during the run would be turned away by the final block. */
  lemma TurnedAwayForGood(p: Pool, l: Limits, c: Contents, accounting: bool, from: nat, t: Tx)
    requires Valid(p) && TotalsExact(p) && BlockOk(p, l, c, accounting) && t in p.entries
    requires TurnedAway(p, l, c.vtx, from, t, accounting)
    ensures !WouldFit(p, l, c, t, accounting)
  {
    hide NoRoomAt, RefusedAt, WouldFit, BlockOk, TotalsExact, Valid;
    if k: nat, m :| from <= k <= |c.vtx| && NoRoomAt(p, l, c.vtx, k, t, m) {
      NoRoomThenNoFit(p, l, c, accounting, k, t, m);
    } else {
      var k: nat :| from <= k <= |c.vtx| && RefusedAt(p, l, c.vtx, k, t, accounting);
      RefusedThenNoFit(p, l, c, accounting, k, t);
    }
  }

  /** Little weight, few bytes or hardly any signature operation is left. */
  ghost predicate Crowded(l: Limits, c: Contents) {
    c.weight > l.nBlockMaxWeight - 4000 || c.size > l.nBlockMaxSize - 1000 || c.sigOps > MAX_BLOCK_SIGOPS_COST - 8
  }

  /** t may not enter, or does not fit next to what is there. */
  ghost predicate Dropped(p: Pool, l: Limits, c: Contents, t: Tx)
    requires t in p.entries
  {
    !Admissible(p, l, t) || !WithinLimits(l, Appended(p, c, t, true), true)
  }

  /** Every entry of the pool is in the block, may still get in, or was dropped. */
  ghost predicate Seen(p: Pool, l: Limits, c: Contents, open: set<Tx>) {
    forall t :: t in p.entries ==> t in c.inBlock || t in open || Dropped(p, l, c, t)
  }

  lemma FullerStill(p: Pool, l: Limits, c: Contents, t: Tx, open: set<Tx>)
    requires t in p.entries && Seen(p, l, c, open)
    ensures Crowded(l, c) ==> Crowded(l, Appended(p, c, t, true))
    ensures Seen(p, l, Appended(p, c, t, true), open - {t})
  {
  }

  lemma AllOpen(p: Pool, l: Limits, c: Contents)
    ensures Seen(p, l, c, p.entries.Keys + {})
  {
  }

  lemma NoneOpen(p: Pool, l: Limits, c: Contents, waiting: set<Tx>)
    requires Seen(p, l, c, {} + waiting)
    ensures forall t :: t in p.entries ==> t in c.inBlock || t in waiting || Dropped(p, l, c, t)
  {
  }

  lemma DropOne(p: Pool, l: Limits, c: Contents, t: Tx, open: set<Tx>)
    requires t in p.entries && Seen(p, l, c, open)
    requires !Admissible(p, l, t) || !WithinLimits(l, Appended(p, c, t, true), true)
    ensures Seen(p, l, c, open - {t})
  {
  }

  /** A transaction without in-pool parents passes all tests on this block. */
  ghost predicate LoneFit(p: Pool, l: Limits, c: Contents, t: Tx, accounting: bool)
    requires t in p.entries
  {
    var e := p.entries[t];
    && c.weight + WITNESS_SCALE_FACTOR * VirtualSize(e) < l.nBlockMaxWeight
    && c.sigOps + e.sigOps < MAX_BLOCK_SIGOPS_COST
    && Admissible(p, l, t) && (accounting ==> c.size + e.serializedSize < l.nBlockMaxSize)
  }

  /** Without in-pool ancestors only the transaction itself counts. */
  lemma LoneFits(p: Pool, l: Limits, c: Contents, t: Tx, accounting: bool)
    requires Valid(p) && TotalsExact(p) && t in p.entries && p.parents[t] == {} && t !in c.inBlock
    ensures WouldFit(p, l, c, t, accounting) <==> LoneFit(p, l, c, t, accounting)
  {
    NoParentsNoAncestors(p, t);
    LoneCosts(p, c, t);
  }

  lemma LonersFit(p: Pool, l: Limits, c: Contents, accounting: bool)
    requires Valid(p) && TotalsExact(p)
    ensures forall t :: t in p.entries && p.parents[t] == {} && t !in c.inBlock ==>
      (WouldFit(p, l, c, t, accounting) <==> LoneFit(p, l, c, t, accounting))
  {
    hide WouldFit, LoneFit, TotalsExact;
    forall t | t in p.entries && p.parents[t] == {} && t !in c.inBlock
      ensures WouldFit(p, l, c, t, accounting) <==> LoneFit(p, l, c, t, accounting)
    {
      LoneFits(p, l, c, t, accounting);
    }
  }

  lemma NoParentsNoAncestors(p: Pool, t: Tx)
    requires Valid(p) && t in p.entries && p.parents[t] == {}
    ensures Anc(p, t) == {}
  {
  }

  lemma LoneCosts(p: Pool, c: Contents, t: Tx)
    requires Valid(p) && TotalsExact(p) && t in p.entries && Anc(p, t) == {} && t !in c.inBlock
    ensures Package(p, t) - c.inBlock == {t} && Sum(Serialized(p), {t}) == p.entries[t].serializedSize
    ensures p.entries[t].sizeWithAncestors == VirtualSize(p.entries[t])
    ensures p.entries[t].sigOpsWithAncestors == p.entries[t].sigOps
  {
    hide TotalsExact, Valid, Anc, Sum, Admissible, VirtualSize;
    TotalsOf(p, t);
    assert Package(p, t) == {t} && {t} - c.inBlock == {t} && {t} - {t} == {};
    SumTake(Size(p), {t}, t);
    SumTake(SigOps(p), {t}, t);
    SumTake(Serialized(p), {t}, t);
    SumNothing(Size(p));
    SumNothing(SigOps(p));
    SumNothing(Serialized(p));
  }

  lemma SumNothing(f: Tx -> nat)
    ensures Sum(f, {}) == 0
  {
  }

  lemma BlockIsClosed(p: Pool, vtx: seq<Tx>)
    requires Valid(p) && Topological(p, vtx, {})
    ensures Closed(p, Elems(vtx))
  {
    forall t | t in Elems(vtx) ensures t in p.entries && Anc(p, t) <= Elems(vtx) {
      var i :| 0 <= i < |vtx| && vtx[i] == t;
      assert Elems(vtx[..i]) <= Elems(vtx);
    }
  }

  function Appended(p: Pool, c: Contents, t: Tx, accounting: bool): Contents
    requires t in p.entries
  {
    var e := p.entries[t];
    Contents(c.vtx + [t], c.inBlock + {t}, c.weight + e.weight, c.sigOps + e.sigOps,
             if accounting then c.size + e.serializedSize else c.size, c.fees + e.fee)
  }

  lemma AppendCounted(p: Pool, c: Contents, t: Tx, accounting: bool)
    requires Counted(p, c, accounting) && t in p.entries && t !in c.inBlock
    ensures Counted(p, Appended(p, c, t, accounting), accounting)
  {
    hide Sum, TotalFees;
    SumAdd(Weight(p), c.inBlock, t);
    SumAdd(SigOps(p), c.inBlock, t);
    SumAdd(Serialized(p), c.inBlock, t);
    AppendFees(p, c.vtx, t);
  }

  lemma AppendFees(p: Pool, vtx: seq<Tx>, t: Tx)
    requires t in p.entries
    ensures TotalFees(p, vtx + [t]) == TotalFees(p, vtx) + p.entries[t].fee
  {
    assert (vtx + [t])[..|vtx|] == vtx;
  }

  lemma AppendOrder(p: Pool, vtx: seq<Tx>, t: Tx)
    requires Valid(p) && NoRepeats(vtx) && Topological(p, vtx, {}) && t in p.entries && t !in Elems(vtx)
    requires Anc(p, t) <= Elems(vtx)
    ensures NoRepeats(vtx + [t]) && Topological(p, vtx + [t], {})
    ensures Elems(vtx + [t]) == Elems(vtx) + {t}
  {
    var s := vtx + [t];
    forall i | 0 <= i < |s| ensures s[i] in p.entries && Anc(p, s[i]) <= {} + Elems(s[..i]) {
      assert s[..i] == vtx[..i];
      if i == |vtx| { assert vtx[..i] == vtx; } else { assert s[i] == vtx[i]; }
    }
    forall i | 0 <= i < |vtx| ensures s[i] != t { assert vtx[i] in Elems(vtx); }
  }

  lemma EmptyBlock(p: Pool, l: Limits, accounting: bool)
    requires Valid(p)
    ensures BlockOk(p, l, Contents([], {}, COINBASE_WEIGHT, COINBASE_SIGOPS, COINBASE_SIZE, 0), accounting)
  {
    hide Valid;
  }

  /** AddToBlock keeps everything when the transaction is new, its ancestors are in and it fits. */
  lemma AppendOk(p: Pool, l: Limits, c: Contents, t: Tx, accounting: bool)
    requires Valid(p) && BlockOk(p, l, c, accounting) && Admissible(p, l, t) && t !in c.inBlock
      && Anc(p, t) <= c.inBlock
    requires WithinLimits(l, Appended(p, c, t, accounting), accounting)
    ensures BlockOk(p, l, Appended(p, c, t, accounting), accounting)
  {
    hide Counted, Topological, NoRepeats;
    AppendCounted(p, c, t, accounting);
    AppendOrder(p, c.vtx, t);
  }

  class BlockAssembler {
    const pool: Pool
    const limits: Limits
    const minFee: nat -> int
    var fNeedSizeAccounting: bool
    var vtx: seq<Tx>
    var inBlock: set<Tx>
    var nBlockWeight: nat
    var nBlockSigOpsCost: nat
    var nBlockSize: nat
    var nBlockTx: nat
    var nFees: int
    var lastFewTxs: nat
    var blockFinished: bool

    ghost function C(): Contents
      reads this
    {
      Contents(vtx, inBlock, nBlockWeight, nBlockSigOpsCost, nBlockSize, nFees)
    }

    ghost predicate Ok()
      reads this
    {
      Mempool.Valid(pool) && TotalsExact(pool) && BlockOk(pool, limits, C(), fNeedSizeAccounting) && nBlockTx == |vtx|
    }

    /** As resetBlock leaves it. */
    ghost predicate IsReset()
      reads this
    {
      vtx == [] && nBlockSize == COINBASE_SIZE && lastFewTxs == 0 && !blockFinished
    }

    /** resetBlock: an empty template, room reserved for the coinbase transaction. */
    method ResetBlock()
      requires Mempool.Valid(pool) && TotalsExact(pool)
      modifies this`vtx, this`inBlock, this`nBlockWeight, this`nBlockSigOpsCost, this`nBlockSize, this`nBlockTx,
        this`nFees, this`lastFewTxs, this`blockFinished
      ensures Ok() && IsReset()
    {
      hide Mempool.Valid, TotalsExact, BlockOk;
      EmptyBlock(pool, limits, fNeedSizeAccounting);
      vtx, inBlock := [], {};
      nBlockSize, nBlockWeight, nBlockSigOpsCost := COINBASE_SIZE, COINBASE_WEIGHT, COINBASE_SIGOPS;
      nBlockTx, nFees, lastFewTxs, blockFinished := 0, 0, 0, false;
    }

    /** The constructor's clamping of the limits, then resetBlock. */
    constructor (pool: Pool, maxWeight: nat, maxSize: nat, fIncludeWitness: bool, minFee: nat -> int)
      requires Mempool.Valid(pool) && TotalsExact(pool)
      ensures Ok() && this.pool == pool && IsReset()
      ensures 4000 <= limits.nBlockMaxWeight <= 4000000 - 4000 && 1000 <= limits.nBlockMaxSize <= 4000000 - 1000
    {
      this.pool := pool;
      var w := if maxWeight < 4000000 - 4000 then maxWeight else 4000000 - 4000;
      var z := if maxSize < 4000000 - 1000 then maxSize else 4000000 - 1000;
      limits := Limits(if w > 4000 then w else 4000, if z > 1000 then z else 1000, fIncludeWitness);
      this.minFee := minFee;
      fNeedSizeAccounting := (if z > 1000 then z else 1000) < 4000000 - 1000;
      vtx, inBlock := [], {};
      nBlockSize, nBlockWeight, nBlockSigOpsCost := COINBASE_SIZE, COINBASE_WEIGHT, COINBASE_SIGOPS;
      nBlockTx, nFees, lastFewTxs, blockFinished := 0, 0, 0, false;
    }

    method AddToBlock(t: Tx)
      requires Ok() && Admissible(pool, limits, t) && t !in inBlock && Anc(pool, t) <= inBlock
      requires WithinLimits(limits, Appended(pool, C(), t, fNeedSizeAccounting), fNeedSizeAccounting)
      modifies this`vtx, this`inBlock, this`nBlockWeight, this`nBlockSigOpsCost, this`nBlockSize, this`nBlockTx,
        this`nFees
      ensures Ok() && C() == Appended(pool, old(C()), t, fNeedSizeAccounting)
    {
      hide BlockOk, TotalsExact;
      AppendOk(pool, limits, C(), t, fNeedSizeAccounting);
      var e := pool.entries[t];
      vtx := vtx + [t];
      if fNeedSizeAccounting {
        nBlockSize := nBlockSize + e.serializedSize;
      }
      nBlockWeight := nBlockWeight + e.weight;
      nBlockTx := nBlockTx + 1;
      nBlockSigOpsCost := nBlockSigOpsCost + e.sigOps;
      nFees := nFees + e.fee;
      inBlock := inBlock + {t};
    }

    predicate IsStillDependent(t: Tx)
      requires Mempool.Valid(pool) && t in pool.entries
      reads this
    {
      exists q :: q in pool.parents[t] && q !in inBlock
    }

    /** TestForBlock: succeeds exactly when the transaction is final and fits every limit. */
    method TestForBlock(t: Tx) returns (fits: bool)
      requires t in pool.entries
      modifies this`lastFewTxs, this`blockFinished
      ensures fits <==> pool.entries[t].isFinal &&
                        WithinLimits(limits, Appended(pool, C(), t, fNeedSizeAccounting), fNeedSizeAccounting)
      ensures fits ==> blockFinished == old(blockFinished)
      ensures blockFinished && !old(blockFinished) ==> Crowded(limits, C()) || old(lastFewTxs) > 50
      ensures lastFewTxs != old(lastFewTxs) ==> lastFewTxs == old(lastFewTxs) + 1 && Crowded(limits, C())
    {
      var e := pool.entries[t];
      if nBlockWeight + e.weight >= limits.nBlockMaxWeight {
        if nBlockWeight > limits.nBlockMaxWeight - 400 || lastFewTxs > 50 {
          blockFinished := true;
          return false;
        }
        if nBlockWeight > limits.nBlockMaxWeight - 4000 {
          lastFewTxs := lastFewTxs + 1;
        }
        return false;
      }
      if fNeedSizeAccounting && nBlockSize + e.serializedSize >= limits.nBlockMaxSize {
        if nBlockSize > limits.nBlockMaxSize - 100 || lastFewTxs > 50 {
          blockFinished := true;
          return false;
        }
        if nBlockSize > limits.nBlockMaxSize - 1000 {
          lastFewTxs := lastFewTxs + 1;
        }
        return false;
      }
      if nBlockSigOpsCost + e.sigOps >= MAX_BLOCK_SIGOPS_COST {
        if nBlockSigOpsCost > MAX_BLOCK_SIGOPS_COST - 8 {
          blockFinished := true;
        }
        return false;
      }
      return e.isFinal;
    }

    // ---------------------------------------------------- priority selection

    /**
      addPriorityTxs: the heap gives up an entry of highest priority, an entry waits until all its
      parents are in, and is queued again when one of them gets in.  It ends with the transaction that
      leaves the free area, with a block nearly full, or when everything left waits for a parent or was dropped.
     */
    method AddPriorityTxs(blockPrioritySize: nat, priority: Tx -> real) returns (ghost end: PriorityEnd)
      requires Ok() && IsReset()
      modifies this
      ensures end.NoArea? <==> Min(limits.nBlockMaxSize, blockPrioritySize) == 0
      ensures end.NoArea? ==> vtx == []
      ensures end.Reached? ==>
        vtx != [] && !FreeAt(pool, vtx, priority, Min(limits.nBlockMaxSize, blockPrioritySize), |vtx| - 1)
      ensures end.Finished? ==> Crowded(limits, C())
      ensures end.Drained? ==>
        forall t :: t in pool.entries ==> t in inBlock || IsStillDependent(t) || Dropped(pool, limits, C(), t)
      ensures Ok() && fNeedSizeAccounting == old(fNeedSizeAccounting)
      ensures HighestFirst(pool, vtx, priority)
      ensures FreeArea(pool, vtx, priority, Min(limits.nBlockMaxSize, blockPrioritySize), |vtx| - 1)
    {
      hide BlockOk, TotalsExact, Anc, WithinLimits, HighestFirst, FreeArea, Outranked, Mempool.Valid, Crowded, Seen;
      hide Dropped, FreeAt, Sum, AllowFree;
      var nBlockPrioritySize := Min(limits.nBlockMaxSize, blockPrioritySize);
      NothingChosen(pool, priority, nBlockPrioritySize);
      if nBlockPrioritySize == 0 {
        return NoArea;
      }
      var fSizeAccounting := fNeedSizeAccounting;
      fNeedSizeAccounting := true;
      var vecPriority := pool.entries.Keys;
      var waitPriMap: set<Tx> := {};
      NothingAccounted(pool, limits, C(), fSizeAccounting);
      AllOpen(pool, limits, C());
      var reached := false;
      while vecPriority != {} && !blockFinished && !reached
        invariant fNeedSizeAccounting && if reached then AreaLeft(priority, nBlockPrioritySize)
                                         else Selecting(vecPriority, waitPriMap, priority, nBlockPrioritySize)
        decreases pool.entries.Keys - inBlock, vecPriority, !reached
      {
        var iter := PopHighest(vecPriority, priority);
        vecPriority, waitPriMap, reached := TryFree(iter, priority, nBlockPrioritySize, vecPriority, waitPriMap);
      }
      end := if reached then Reached else if blockFinished then Finished else Drained;
      if end.Drained? { NoneOpen(pool, limits, C(), waitPriMap); }
      FreeFewer(pool, vtx, priority, nBlockPrioritySize);
      AccountingMayStop(pool, limits, C(), fSizeAccounting);
      fNeedSizeAccounting := fSizeAccounting;
    }

    /** While the heap is worked through: nothing is lost, and the best free transactions came first. */
    ghost predicate Selecting(heap: set<Tx>, waiting: set<Tx>, priority: Tx -> real, size: int)
      reads this
    {
      && Ok() && heap <= pool.entries.Keys && waiting <= pool.entries.Keys
      && heap !! waiting && heap !! inBlock && waiting !! inBlock
      && (forall t :: t in waiting ==> IsStillDependent(t))
      && HighestFirst(pool, vtx, priority) && Outranked(pool, vtx, priority, heap + waiting)
      && FreeArea(pool, vtx, priority, size, |vtx|)
      && (lastFewTxs > 0 || blockFinished ==> Crowded(limits, C()))
      && Seen(pool, limits, C(), heap + waiting)
    }

    /** The last transaction has left the free area. */
    ghost predicate AreaLeft(priority: Tx -> real, size: int)
      reads this
    {
      && Ok() && vtx != [] && HighestFirst(pool, vtx, priority)
      && FreeArea(pool, vtx, priority, size, |vtx| - 1) && !FreeAt(pool, vtx, priority, size, |vtx| - 1)
    }

    /** One turn of the loop: the front of the heap is dropped, waits, or is added and releases its children. */
    method TryFree(iter: Tx, priority: Tx -> real, size: int, heap: set<Tx>, waiting: set<Tx>)
      returns (vecPriority: set<Tx>, waitPriMap: set<Tx>, reached: bool)
      requires fNeedSizeAccounting && Selecting(heap, waiting, priority, size)
      requires iter in heap && forall t :: t in heap ==> priority(t) <= priority(iter)
      modifies this`vtx, this`inBlock, this`nBlockWeight, this`nBlockSigOpsCost, this`nBlockSize, this`nBlockTx,
        this`nFees, this`lastFewTxs, this`blockFinished
      ensures if reached then AreaLeft(priority, size) else Selecting(vecPriority, waitPriMap, priority, size)
      ensures inBlock == old(inBlock) + {iter} || (inBlock == old(inBlock) && vecPriority == heap - {iter})
    {
      hide BlockOk, TotalsExact, Anc, WithinLimits, HighestFirst, FreeArea, Outranked, Mempool.Valid, Crowded, Seen;
      hide Dropped, FreeAt, Sum, AllowFree;
      vecPriority, waitPriMap, reached := heap - {iter}, waiting, false;
      ghost var open := heap + waiting;
      assert open - {iter} == vecPriority + waitPriMap && open == vecPriority + (waitPriMap + {iter});
      OutrankedFewer(pool, vtx, priority, open, open - {iter});
      if !limits.fIncludeWitness && pool.entries[iter].hasWitness {
        DropOne(pool, limits, C(), iter, open);
        return;
      }
      if IsStillDependent(iter) {
        waitPriMap := waitPriMap + {iter};
        return;
      }
      var fits := TestForBlock(iter);
      if fits {
        vecPriority, waitPriMap, reached := TakeFree(iter, priority, size, heap, waiting);
      } else {
        DropOne(pool, limits, C(), iter, open);
      }
    }

    /** The front of the heap fits: it is added, and either leaves the free area or releases its children. */
    method TakeFree(iter: Tx, priority: Tx -> real, size: int, heap: set<Tx>, waiting: set<Tx>)
      returns (vecPriority: set<Tx>, waitPriMap: set<Tx>, reached: bool)
      requires fNeedSizeAccounting && Selecting(heap, waiting, priority, size)
      requires iter in heap && forall t :: t in heap ==> priority(t) <= priority(iter)
      requires Admissible(pool, limits, iter) && WithinLimits(limits, Appended(pool, C(), iter, true), true)
      requires !IsStillDependent(iter)
      modifies this`vtx, this`inBlock, this`nBlockWeight, this`nBlockSigOpsCost, this`nBlockSize, this`nBlockTx,
        this`nFees
      ensures if reached then AreaLeft(priority, size) else Selecting(vecPriority, waitPriMap, priority, size)
      ensures inBlock == old(inBlock) + {iter}
    {
      hide BlockOk, TotalsExact, Anc, WithinLimits, HighestFirst, FreeArea, Outranked, Mempool.Valid, Crowded, Seen;
      hide Dropped, FreeAt, Sum, AllowFree, Admissible;
      vecPriority, waitPriMap, reached := heap - {iter}, waiting, false;
      FullerStill(pool, limits, C(), iter, heap + waiting);
      assert heap + waiting - {iter} == vecPriority + waitPriMap;
      AddFree(iter, priority, size, heap, waiting);
      if nBlockSize >= size || !AllowFree(priority(iter)) {
        NotFree(pool, vtx, priority, size);
        reached := true;
        return;
      }
      vecPriority, waitPriMap := Release(iter, vecPriority, waitPriMap, inBlock - {iter});
    }

    /** The waiting children of a transaction that got in go back to the heap; the others still miss a parent. */
    method Release(iter: Tx, heap: set<Tx>, waiting: set<Tx>, ghost before: set<Tx>)
      returns (heap': set<Tx>, waiting': set<Tx>)
      requires Mempool.Valid(pool) && waiting <= pool.entries.Keys && inBlock == before + {iter} && heap !! waiting
      requires forall t :: t in waiting ==> exists q :: q in pool.parents[t] && q !in before
      ensures heap' + waiting' == heap + waiting && heap' !! waiting'
      ensures forall t :: t in waiting' ==> t in waiting && IsStillDependent(t)
    {
      var ready := set child | child in waiting && iter in pool.parents[child];
      heap', waiting' := heap + ready, waiting - ready;
    }

    /** AddToBlock for the front of the heap, all of whose parents are in. */
    method AddFree(iter: Tx, priority: Tx -> real, size: int, ghost heap: set<Tx>, ghost waiting: set<Tx>)
      requires Ok() && fNeedSizeAccounting && Admissible(pool, limits, iter) && iter !in inBlock && iter in heap
      requires WithinLimits(limits, Appended(pool, C(), iter, true), true)
      requires !IsStillDependent(iter) && forall t :: t in heap ==> priority(t) <= priority(iter)
      requires waiting <= pool.entries.Keys && forall t :: t in waiting ==> IsStillDependent(t)
      requires HighestFirst(pool, vtx, priority) && Outranked(pool, vtx, priority, heap + waiting)
      requires FreeArea(pool, vtx, priority, size, |vtx|)
      modifies this`vtx, this`inBlock, this`nBlockWeight, this`nBlockSigOpsCost, this`nBlockSize, this`nBlockTx,
        this`nFees
      ensures Ok() && C() == Appended(pool, old(C()), iter, true)
      ensures nBlockSize == COINBASE_SIZE + Sum(Serialized(pool), Elems(vtx))
      ensures HighestFirst(pool, vtx, priority) && Outranked(pool, vtx, priority, (heap - {iter}) + waiting)
      ensures FreeArea(pool, vtx, priority, size, |vtx| - 1)
      ensures nBlockSize < size && AllowFree(priority(iter)) ==> FreeArea(pool, vtx, priority, size, |vtx|)
    {
      hide BlockOk, TotalsExact, Anc, WithinLimits, HighestFirst, FreeArea, Outranked, Mempool.Valid;
      ParentsInMeansAncestorsIn(pool, limits, C(), fNeedSizeAccounting, iter);
      RankNext(pool, limits, C(), priority, iter, heap, waiting);
      AddToBlock(iter);
      SizeIs(pool, limits, C());
      assert vtx[..|vtx| - 1] == old(vtx);
      FreeNext(pool, vtx, priority, size);
    }

    /** The front of the heap: none of the others has a higher priority. */
    method PopHighest(heap: set<Tx>, priority: Tx -> real) returns (iter: Tx)
      requires heap != {}
      ensures iter in heap && forall t :: t in heap ==> priority(t) <= priority(iter)
    {
      iter :| iter in heap;
      var todo := heap - {iter};
      while todo != {}
        invariant iter in heap && todo <= heap && forall t :: t in heap - todo ==> priority(t) <= priority(iter)
        decreases todo
      {
        var t :| t in todo;
        todo := todo - {t};
        if priority(t) > priority(iter) {
          iter := t;
        }
      }
    }

    // ----------------------------------------------------- package selection

    /** All admissible and, if sizes are counted, small enough together. */
    ghost predicate Acceptable(package: set<Tx>)
      reads this
    {
      && (forall t :: t in package ==> Admissible(pool, limits, t))
      && (fNeedSizeAccounting ==> nBlockSize + Sum(Serialized(pool), package) < limits.nBlockMaxSize)
    }

    /** TestPackageTransactions: exactly when every transaction is admissible and, if counted, the sizes fit. */
    method TestPackageTransactions(package: set<Tx>) returns (fits: bool)
      requires package <= pool.entries.Keys && package != {}
      ensures fits <==> Acceptable(package)
    {
      var todo := package;
      var nPotentialBlockSize := nBlockSize;
      while todo != {}
        invariant todo <= package
        invariant forall t :: t in package - todo ==> Admissible(pool, limits, t)
        invariant fNeedSizeAccounting ==>
                    && nPotentialBlockSize + Sum(Serialized(pool), todo) == nBlockSize + Sum(Serialized(pool), package)
                    && (todo != package ==> nPotentialBlockSize < limits.nBlockMaxSize)
        decreases todo
      {
        var it :| it in todo;
        SumTake(Serialized(pool), todo, it);
        todo := todo - {it};
        var e := pool.entries[it];
        if !e.isFinal || (!limits.fIncludeWitness && e.hasWitness) {
          assert !Admissible(pool, limits, it);
          return false;
        }
        if fNeedSizeAccounting {
          if nPotentialBlockSize + e.serializedSize >= limits.nBlockMaxSize {
            return false;
          }
          nPotentialBlockSize := nPotentialBlockSize + e.serializedSize;
        }
      }
      return true;
    }

    /** Whether the template has room for a whole set of transactions. */
    ghost predicate Room(s: set<Tx>)
      reads this
    {
      && nBlockWeight + Sum(Weight(pool), s) < limits.nBlockMaxWeight
      && nBlockSigOpsCost + Sum(SigOps(pool), s) < MAX_BLOCK_SIGOPS_COST
      && (fNeedSizeAccounting ==> nBlockSize + Sum(Serialized(pool), s) < limits.nBlockMaxSize)
    }

    /** The sorted package goes in one by one and leaves mapModifiedTx. */
    method AddSorted(sorted: seq<Tx>, modifiedIn: map<Tx, Modified>) returns (mapModifiedTx: map<Tx, Modified>)
      requires Ok() && NoRepeats(sorted) && Elems(sorted) !! inBlock && Topological(pool, sorted, inBlock)
      requires Room(Elems(sorted)) && forall i :: 0 <= i < |sorted| ==> Admissible(pool, limits, sorted[i])
      modifies this`vtx, this`inBlock, this`nBlockWeight, this`nBlockSigOpsCost, this`nBlockSize, this`nBlockTx,
        this`nFees
      ensures Ok() && vtx == old(vtx) + sorted && inBlock == old(inBlock) + Elems(sorted)
      ensures mapModifiedTx == modifiedIn - Elems(sorted)
    {
      hide Mempool.Valid, TotalsExact, BlockOk, Anc, NoRepeats, Topological, Elems, WithinLimits, Counted;
      mapModifiedTx := modifiedIn;
      SortedEnds(sorted);
      for i := 0 to |sorted|
        invariant Ok() && vtx == old(vtx) + sorted[..i] && inBlock == old(inBlock) + Elems(sorted[..i])
        invariant Room(Elems(sorted[i..]))
        invariant mapModifiedTx == modifiedIn - Elems(sorted[..i])
      {
        var t := sorted[i];
        NextSorted(pool, sorted, i, old(inBlock));
        AddOneSorted(t, Elems(sorted[i + 1..]));
        mapModifiedTx := mapModifiedTx - {t};
      }
    }

    /** AddToBlock for the next of several transactions that all fit. */
    method AddOneSorted(t: Tx, ghost rest: set<Tx>)
      requires Ok() && Admissible(pool, limits, t) && t !in inBlock && Anc(pool, t) <= inBlock
      requires t !in rest && Room(rest + {t})
      modifies this`vtx, this`inBlock, this`nBlockWeight, this`nBlockSigOpsCost, this`nBlockSize, this`nBlockTx,
        this`nFees
      ensures Ok() && vtx == old(vtx) + [t] && inBlock == old(inBlock) + {t} && Room(rest)
    {
      hide TotalsExact, BlockOk, Anc, Mempool.Valid;
      SumAdd(Weight(pool), rest, t);
      SumAdd(SigOps(pool), rest, t);
      SumAdd(Serialized(pool), rest, t);
      AddToBlock(t);
    }

    /** TestPackage: the package's ancestor totals against what is left of weight and signature operations. */
    predicate TestPackage(packageSize: int, packageSigOpsCost: int)
      reads this
    {
      && nBlockWeight + WITNESS_SCALE_FACTOR * packageSize < limits.nBlockMaxWeight
      && nBlockSigOpsCost + packageSigOpsCost < MAX_BLOCK_SIGOPS_COST
    }

    /** A package that passed both tests is sorted, added, and its descendants' totals are updated. */
    method AddPackage(iter: Tx, package: set<Tx>, ghost m: Modified, modifiedIn: map<Tx, Modified>, ghost exact: bool)
      returns (mapModifiedTx: map<Tx, Modified>)
      requires Ok() && iter in pool.entries && iter !in inBlock && package == (Anc(pool, iter) - inBlock) + {iter}
      requires ModifiedOk(pool, modifiedIn, inBlock, exact) && Covers(pool, iter, m, inBlock, exact)
      requires exact ==> FeesExact(pool) && Untouched(pool, modifiedIn.Keys, inBlock, inBlock)
      requires TestPackage(m.size, m.sigOps)
      requires Acceptable(package)
      modifies this`vtx, this`inBlock, this`nBlockWeight, this`nBlockSigOpsCost, this`nBlockSize, this`nBlockTx,
        this`nFees
      ensures Ok() && old(vtx) <= vtx && inBlock == old(inBlock) + package
      ensures ModifiedOk(pool, mapModifiedTx, inBlock, exact)
      ensures exact ==> Untouched(pool, mapModifiedTx.Keys, inBlock, inBlock)
      ensures modifiedIn.Keys - package <= mapModifiedTx.Keys
    {
      hide TotalsExact, BlockOk, ModifiedOk, Covers, Closed, Anc, NoRepeats, SortedByCount, Topological;
      hide Elems, Package, Admissible, Mempool.Valid, FeesExact, Untouched;
      RoomForPackage(pool, iter, m, inBlock, package, exact);
      var sorted := SortForBlock(pool, package);
      SortedIsTopological(pool, iter, inBlock, package, sorted);
      ClosedBlock(pool, limits, C(), fNeedSizeAccounting);
      ghost var before := inBlock;
      AllAdmissible(pool, limits, sorted);
      mapModifiedTx := AddSorted(sorted, modifiedIn);
      ModifiedWithout(pool, modifiedIn, before, package, exact);
      mapModifiedTx := UpdatePackagesForAdded(pool, package, mapModifiedTx, before, exact);
    }

    /** What onlyUnconfirmed leaves of the ancestors, and the transaction itself. */
    function Missing(t: Tx): set<Tx>
      requires Mempool.Valid(pool) && t in pool.entries
      reads this
    {
      (Anc(pool, t) - inBlock) + {t}
    }

    /** One candidate of addPackageTxs: the fee, the two tests, and the package added if it passes. */
    method TryPackage(iter: Tx, m: Modified, modifiedIn: map<Tx, Modified>, ghost exact: bool)
      returns (outcome: Outcome, mapModifiedTx: map<Tx, Modified>)
      requires Ok() && iter in pool.entries && iter !in inBlock && m.size >= 0 && Covers(pool, iter, m, inBlock, exact)
      requires ModifiedOk(pool, modifiedIn, inBlock, exact)
      requires exact ==> TakesAll(pool, limits, minFee, fNeedSizeAccounting)
      requires exact ==> FeesExact(pool) && Untouched(pool, modifiedIn.Keys, inBlock, inBlock)
      modifies this`vtx, this`inBlock, this`nBlockWeight, this`nBlockSigOpsCost, this`nBlockSize, this`nBlockTx,
        this`nFees
      ensures outcome.TooCheap? <==> m.fees < minFee(m.size)
      ensures !outcome.Added? ==> C() == old(C())
      ensures outcome.NoRoom? <==> m.fees >= minFee(m.size) && !old(TestPackage(m.size, m.sigOps))
      ensures outcome.Refused? <==>
        m.fees >= minFee(m.size) && old(TestPackage(m.size, m.sigOps)) && !old(Acceptable(Missing(iter)))
      ensures if outcome.Added? then inBlock == old(inBlock + Missing(iter))
              else vtx == old(vtx) && inBlock == old(inBlock) && mapModifiedTx == modifiedIn
      ensures Ok() && old(vtx) <= vtx && iter in old(Missing(iter)) && (exact ==> outcome.Added?)
      ensures ModifiedOk(pool, mapModifiedTx, inBlock, exact)
      ensures exact ==> Untouched(pool, mapModifiedTx.Keys, inBlock, inBlock)
      ensures outcome.Added? ==> modifiedIn.Keys <= mapModifiedTx.Keys + inBlock
    {
      hide TotalsExact, BlockOk, ModifiedOk, Covers, Closed, Anc, TakesAll, FeesExact, Untouched, Mempool.Valid;
      hide Admissible, Sum;
      mapModifiedTx := modifiedIn;
      var package := Missing(iter);
      if exact { EveryPackageFits(pool, limits, C(), minFee, fNeedSizeAccounting, iter, m, package); }
      if m.fees < minFee(m.size) {
        return TooCheap, mapModifiedTx;
      }
      if !TestPackage(m.size, m.sigOps) {
        return NoRoom, mapModifiedTx;
      }
      PackageInPool(pool, iter, inBlock);
      var fits := TestPackageTransactions(package);
      if !fits {
        return Refused, mapModifiedTx;
      }
      mapModifiedTx := AddPackage(iter, package, m, mapModifiedTx, exact);
      return Added, mapModifiedTx;
    }

    /** TryPackage, keeping account of who was turned away and of the candidates without room since the last success. */
    method Consider(iter: Tx, m: Modified, modifiedIn: map<Tx, Modified>, ghost exact: bool,
                    ghost from: nat, ghost awayIn: set<Tx>, ghost failedIn: seq<Tx>)
      returns (outcome: Outcome, mapModifiedTx: map<Tx, Modified>, ghost away: set<Tx>, ghost failed: seq<Tx>)
      requires Ok() && iter in pool.entries && iter !in inBlock && m.size >= 0 && Covers(pool, iter, m, inBlock, exact)
      requires ModifiedOk(pool, modifiedIn, inBlock, exact)
      requires exact ==> TakesAll(pool, limits, minFee, fNeedSizeAccounting)
      requires exact ==> FeesExact(pool) && Untouched(pool, modifiedIn.Keys, inBlock, inBlock)
      requires from <= |vtx| && AllTurnedAway(pool, limits, vtx, from, awayIn, fNeedSizeAccounting)
      requires NoneHasRoom(pool, limits, vtx, failedIn)
      modifies this`vtx, this`inBlock, this`nBlockWeight, this`nBlockSigOpsCost, this`nBlockSize, this`nBlockTx,
        this`nFees
      ensures Ok() && old(vtx) <= vtx && ModifiedOk(pool, mapModifiedTx, inBlock, exact)
      ensures exact ==> Untouched(pool, mapModifiedTx.Keys, inBlock, inBlock) && outcome.Added?
      ensures outcome.TooCheap? ==>
        m.fees < minFee(m.size) && iter !in vtx && Covers(pool, iter, m, inBlock, false)
      ensures outcome.Added? ==>
        iter in inBlock && old(inBlock) <= inBlock && modifiedIn.Keys <= mapModifiedTx.Keys + inBlock
      ensures !outcome.Added? ==> inBlock == old(inBlock) && mapModifiedTx == modifiedIn
      ensures away == if outcome.NoRoom? || outcome.Refused? then awayIn + {iter} else awayIn
      ensures AllTurnedAway(pool, limits, vtx, from, away, fNeedSizeAccounting)
      ensures failed == if outcome.Added? then [] else if outcome.NoRoom? then failedIn + [iter] else failedIn
      ensures NoneHasRoom(pool, limits, vtx, failed)
    {
      hide TotalsExact, BlockOk, ModifiedOk, Covers, Closed, Anc, TakesAll, FeesExact, Untouched, Mempool.Valid;
      hide Admissible, Sum, TurnedAway, NoneHasRoom, AllTurnedAway, Package, NoRoomAt;
      ghost var before := C();
      outcome, mapModifiedTx := TryPackage(iter, m, modifiedIn, exact);
      failed := failedIn;
      if outcome.TooCheap? { CheapLeftOut(pool, limits, C(), fNeedSizeAccounting, iter, m, exact); }
      away := TurnAway(pool, limits, before, C(), fNeedSizeAccounting, from, iter, m, awayIn, outcome, exact);
      if outcome.NoRoom? {
        failed := FailAgain(pool, limits, C(), fNeedSizeAccounting, iter, m, failedIn, exact);
      } else if outcome.Added? {
        NoneFailed(pool, limits, vtx, |vtx|, fNeedSizeAccounting);
        failed := [];
      }
    }

    /** The better of the next entry of the pool and some modified entry. */
    method NextCandidate(order: seq<Tx>, mi: nat, mapModifiedTx: map<Tx, Modified>, ghost exact: bool)
      returns (iter: Tx, m: Modified, fUsingModified: bool, mi': nat)
      requires Ok() && ModifiedOk(pool, mapModifiedTx, inBlock, exact) && (mi < |order| || mapModifiedTx != map[])
      requires exact ==> FeesExact(pool) && Untouched(pool, mapModifiedTx.Keys, inBlock, inBlock)
      requires mi <= |order|
      requires mi < |order| ==> order[mi] in pool.entries && order[mi] !in mapModifiedTx && order[mi] !in inBlock
      ensures iter in pool.entries && iter !in inBlock && m.size >= 0 && Covers(pool, iter, m, inBlock, exact)
      ensures if fUsingModified then iter in mapModifiedTx && mi' == mi
              else mi < |order| && iter == order[mi] && mi' == mi + 1
      ensures fUsingModified ==> m == mapModifiedTx[iter]
      ensures !fUsingModified ==> m == Cached(pool, iter)
    {
      hide TotalsExact, BlockOk, ModifiedOk, Covers, FeesExact, Untouched, Mempool.Valid;
      var modifiedScoresBetter: bool := *;
      if mi == |order| || (mapModifiedTx != map[] && modifiedScoresBetter) {
        iter :| iter in mapModifiedTx;
        fUsingModified, mi' := true, mi;
      } else {
        iter, fUsingModified, mi' := order[mi], false, mi + 1;
      }
      CandidateOk(pool, mapModifiedTx, inBlock, iter, fUsingModified, exact);
      m := if fUsingModified then mapModifiedTx[iter] else Cached(pool, iter);
    }

    /**
      addPackageTxs: terminates on every pool, never evaluates a transaction that is already in
      the block, only appends complete packages that fit, and takes every candidate when all
      of the pool fits and pays.  Unless it ends on a candidate that is too cheap, or gives up near a
      full block, everything offered is in the block or was turned away by one of the two tests.
     */
    method AddPackageTxs(order: seq<Tx>) returns (ghost end: PackageEnd)
      requires Ok() && forall i :: 0 <= i < |order| ==> order[i] in pool.entries
      modifies this
      ensures Ok() && old(vtx) <= vtx && fNeedSizeAccounting == old(fNeedSizeAccounting)
      ensures TakesAll(pool, limits, minFee, fNeedSizeAccounting) ==> forall t :: t in order ==> t in vtx
      ensures end.CheapCandidate? ==>
        && end.iter in pool.entries && end.iter !in vtx && Covers(pool, end.iter, end.m, inBlock, false)
        && end.m.size >= 0 && end.m.fees < minFee(end.m.size)
      ensures end.GaveUp? ==>
        && |end.failed| > MAX_CONSECUTIVE_FAILURES && nBlockWeight > limits.nBlockMaxWeight - 4000
        && NoneHasRoom(pool, limits, vtx, end.failed)
      ensures end.Exhausted? ==> forall t :: t in order ==>
        t in vtx || TurnedAway(pool, limits, vtx, |old(vtx)|, t, fNeedSizeAccounting)
      ensures end.Exhausted? ==> forall t :: t in order && WouldFit(pool, limits, C(), t, fNeedSizeAccounting) ==>
        t in vtx
    {
      hide TotalsExact, BlockOk, ModifiedOk, Covers, Closed, Anc, TakesAll, FeesExact, Untouched, Mempool.Valid;
      hide Admissible, Sum, TurnedAway, WouldFit, NoneHasRoom, AllTurnedAway, Package, NoRoomAt, Handled;
      ghost var exact := TakesAll(pool, limits, minFee, fNeedSizeAccounting);
      ClosedBlock(pool, limits, C(), fNeedSizeAccounting);
      NothingModified(pool, limits, minFee, fNeedSizeAccounting, inBlock);
      var mapModifiedTx: map<Tx, Modified> := map[];
      assert mapModifiedTx.Keys == {};
      mapModifiedTx := UpdatePackagesForAdded(pool, inBlock, mapModifiedTx, {}, exact);
      assert {} + inBlock == inBlock;
      var failedTx: set<Tx> := {};
      var mi := 0;
      var nConsecutiveFailed := 0;
      ghost var failed: seq<Tx>, away: set<Tx> := [], {};
      NoneHandled(order, inBlock + mapModifiedTx.Keys + away);
      NoneFailed(pool, limits, vtx, |vtx|, fNeedSizeAccounting);
      end := Exhausted;
      while mi < |order| || mapModifiedTx != map[]
        invariant Ok() && old(vtx) <= vtx && 0 <= mi <= |order|
        invariant ModifiedOk(pool, mapModifiedTx, inBlock, exact) && fNeedSizeAccounting == old(fNeedSizeAccounting)
        invariant exact ==> Untouched(pool, mapModifiedTx.Keys, inBlock, inBlock) && away == {}
        invariant end == Exhausted && |failed| == nConsecutiveFailed && NoneHasRoom(pool, limits, vtx, failed)
        invariant failedTx <= away && AllTurnedAway(pool, limits, vtx, |old(vtx)|, away, fNeedSizeAccounting)
        invariant Handled(order, mi, inBlock + mapModifiedTx.Keys + away)
        decreases pool.entries.Keys - inBlock, |order| - mi, mapModifiedTx.Keys
      {
        if mi < |order| && (order[mi] in mapModifiedTx || order[mi] in inBlock || order[mi] in failedTx) {
          HandleOne(order, mi, inBlock + mapModifiedTx.Keys + away, mi + 1, inBlock + mapModifiedTx.Keys + away);
          mi := mi + 1;
          continue;
        }
        ghost var mi0, handled := mi, inBlock + mapModifiedTx.Keys + away;
        var iter, m, fUsingModified;
        iter, m, fUsingModified, mi := NextCandidate(order, mi, mapModifiedTx, exact);
        assert iter !in inBlock;
        var outcome;
        outcome, mapModifiedTx, away, failed :=
          Consider(iter, m, mapModifiedTx, exact, |old(vtx)|, away, failed);
        if outcome.TooCheap? {
          return CheapCandidate(iter, m);
        }
        if outcome.NoRoom? {
          nConsecutiveFailed := nConsecutiveFailed + 1;
          if nConsecutiveFailed > MAX_CONSECUTIVE_FAILURES && nBlockWeight > limits.nBlockMaxWeight - 4000 {
            end := GaveUp(failed);
            break;
          }
        }
        if outcome.Added? {
          nConsecutiveFailed := 0;
        } else if fUsingModified {
          ModifiedWithout(pool, mapModifiedTx, inBlock, {iter}, exact);
          mapModifiedTx := mapModifiedTx - {iter};
          failedTx := failedTx + {iter};
        }
        HandleOne(order, mi0, handled, mi, inBlock + mapModifiedTx.Keys + away);
      }
      InBlockIsListed(pool, limits, C(), fNeedSizeAccounting);
      NobodyElseFits(pool, limits, C(), fNeedSizeAccounting, |old(vtx)|, away);
      if end.Exhausted? { AllHandled(order, inBlock + mapModifiedTx.Keys + away); }
    }

    /** CreateNewBlock's selection: priority transactions first, then packages. */
    method CreateNewBlock(nBlockPrioritySize: nat, priority: Tx -> real, order: seq<Tx>)
      returns (ghost end: PackageEnd)
      requires Mempool.Valid(pool) && TotalsExact(pool)
      requires forall i :: 0 <= i < |order| ==> order[i] in pool.entries
      modifies this
      ensures NoRepeats(vtx) && nBlockTx == |vtx|
      ensures forall i, q :: 0 <= i < |vtx| && vtx[i] in pool.entries && q in pool.parents[vtx[i]] ==> q in vtx[..i]
      ensures vtx != [] ==> COINBASE_WEIGHT + Sum(Weight(pool), Elems(vtx)) < limits.nBlockMaxWeight
      ensures vtx != [] ==> COINBASE_SIGOPS + Sum(SigOps(pool), Elems(vtx)) < MAX_BLOCK_SIGOPS_COST
      ensures vtx != [] && fNeedSizeAccounting ==>
        COINBASE_SIZE + Sum(Serialized(pool), Elems(vtx)) < limits.nBlockMaxSize
      ensures forall i :: 0 <= i < |vtx| ==> Admissible(pool, limits, vtx[i])
      ensures nFees == TotalFees(pool, vtx)
      ensures TakesAll(pool, limits, minFee, fNeedSizeAccounting) ==> forall t :: t in order ==> t in vtx
      ensures end.CheapCandidate? ==> end.iter !in vtx && end.m.size >= 0 && end.m.fees < minFee(end.m.size)
      ensures end.GaveUp? ==>
        && |end.failed| > MAX_CONSECUTIVE_FAILURES
        && COINBASE_WEIGHT + Sum(Weight(pool), Elems(vtx)) > limits.nBlockMaxWeight - 4000
      ensures end.Exhausted? ==>
        forall t :: t in order && t !in vtx ==> !WouldFit(pool, limits, C(), t, fNeedSizeAccounting)
      ensures end.Exhausted? ==> forall t :: t in order && t !in vtx && pool.parents[t] == {} ==>
        !LoneFit(pool, limits, C(), t, fNeedSizeAccounting)
    {
      hide TotalsExact, Anc, Topological, TakesAll, TurnedAway, WouldFit;
      ResetBlock();
      ghost var first := AddPriorityTxs(nBlockPrioritySize, priority);
      end := AddPackageTxs(order);
      ParentsEarlier(pool, vtx);
      LonersFit(pool, limits, C(), fNeedSizeAccounting);
    }
  }

  // ------------------------------------------------------------ order of priorities

  /** AllowFree: above COIN * 144 / 250. */
  predicate AllowFree(priority: real) {
    priority > 57600000.0
  }

  /** Whoever could have come at an earlier place, all parents being in, has no higher priority than what did. */
  ghost predicate HighestFirst(p: Pool, vtx: seq<Tx>, priority: Tx -> real)
    requires Valid(p)
  {
    forall i, j :: 0 <= i < j < |vtx| && vtx[j] in p.entries && p.parents[vtx[j]] <= Elems(vtx[..i]) ==>
      priority(vtx[j]) <= priority(vtx[i])
  }

  /** The same for those that may still be chosen. */
  ghost predicate Outranked(p: Pool, vtx: seq<Tx>, priority: Tx -> real, open: set<Tx>)
    requires Valid(p)
  {
    forall i, t :: 0 <= i < |vtx| && t in open && t in p.entries && p.parents[t] <= Elems(vtx[..i]) ==>
      priority(t) <= priority(vtx[i])
  }

  /** The transaction at i is a free one and ends within the priority area. */
  ghost predicate FreeAt(p: Pool, vtx: seq<Tx>, priority: Tx -> real, size: int, i: nat)
    requires i < |vtx|
  {
    AllowFree(priority(vtx[i])) && COINBASE_SIZE + Sum(Serialized(p), Elems(vtx[..i + 1])) < size
  }

  /** So are the first n of them. */
  ghost predicate FreeArea(p: Pool, vtx: seq<Tx>, priority: Tx -> real, size: int, n: int) {
    forall i :: 0 <= i < n && i < |vtx| ==> FreeAt(p, vtx, priority, size, i)
  }

  lemma NothingChosen(p: Pool, priority: Tx -> real, size: int)
    requires Valid(p)
    ensures HighestFirst(p, [], priority) && FreeArea(p, [], priority, size, -1) && FreeArea(p, [], priority, size, 0)
    ensures forall open :: Outranked(p, [], priority, open)
  {
  }

  lemma OutrankedFewer(p: Pool, vtx: seq<Tx>, priority: Tx -> real, open: set<Tx>, open': set<Tx>)
    requires Valid(p) && Outranked(p, vtx, priority, open) && open' <= open
    ensures Outranked(p, vtx, priority, open')
  {
  }

  /** The front of the heap is added while no waiting transaction has all its parents in. */
  lemma RankNext(p: Pool, l: Limits, c: Contents, priority: Tx -> real, t: Tx, heap: set<Tx>, waiting: set<Tx>)
    requires Valid(p) && BlockOk(p, l, c, true) && t in heap && t in p.entries
    requires forall u :: u in heap ==> priority(u) <= priority(t)
    requires waiting <= p.entries.Keys && forall u :: u in waiting ==> !(p.parents[u] <= c.inBlock)
    requires HighestFirst(p, c.vtx, priority) && Outranked(p, c.vtx, priority, heap + waiting)
    ensures HighestFirst(p, c.vtx + [t], priority) && Outranked(p, c.vtx + [t], priority, (heap - {t}) + waiting)
  {
    hide Topological, NoRepeats, Counted, WithinLimits, Valid;
    var v, w := c.vtx, c.vtx + [t];
    forall i | 0 <= i <= |v| ensures w[..i] == v[..i] {}
    assert v[..|v|] == v;
  }

  lemma SizeIs(p: Pool, l: Limits, c: Contents)
    requires Valid(p) && BlockOk(p, l, c, true)
    ensures c.size == COINBASE_SIZE + Sum(Serialized(p), Elems(c.vtx))
  {
  }

  lemma FreeAtPrefix(p: Pool, v: seq<Tx>, vtx: seq<Tx>, priority: Tx -> real, size: int, i: nat)
    requires v <= vtx && i < |v| && FreeAt(p, v, priority, size, i)
    ensures FreeAt(p, vtx, priority, size, i)
  {
    hide Sum, Elems, AllowFree, Serialized;
    assert v[..i + 1] == vtx[..i + 1];
  }

  lemma FreeAtEnd(p: Pool, vtx: seq<Tx>, priority: Tx -> real, size: int)
    requires vtx != [] && AllowFree(priority(vtx[|vtx| - 1])) && COINBASE_SIZE + Sum(Serialized(p), Elems(vtx)) < size
    ensures FreeAt(p, vtx, priority, size, |vtx| - 1)
  {
    hide Sum, Elems, AllowFree, Serialized;
    assert vtx[..|vtx| - 1 + 1] == vtx;
  }

  lemma FreeNext(p: Pool, vtx: seq<Tx>, priority: Tx -> real, size: int)
    requires vtx != [] && FreeArea(p, vtx[..|vtx| - 1], priority, size, |vtx| - 1)
    ensures FreeArea(p, vtx, priority, size, |vtx| - 1)
    ensures AllowFree(priority(vtx[|vtx| - 1])) && COINBASE_SIZE + Sum(Serialized(p), Elems(vtx)) < size ==>
              FreeArea(p, vtx, priority, size, |vtx|)
  {
    hide Sum, Elems, AllowFree, Serialized, FreeAt;
    var v := vtx[..|vtx| - 1];
    forall i | 0 <= i < |v| ensures FreeAt(p, vtx, priority, size, i) { FreeAtPrefix(p, v, vtx, priority, size, i); }
    if AllowFree(priority(vtx[|vtx| - 1])) && COINBASE_SIZE + Sum(Serialized(p), Elems(vtx)) < size {
      FreeAtEnd(p, vtx, priority, size);
    }
  }

  lemma NotFree(p: Pool, vtx: seq<Tx>, priority: Tx -> real, size: int)
    requires vtx != []
    requires !AllowFree(priority(vtx[|vtx| - 1])) || COINBASE_SIZE + Sum(Serialized(p), Elems(vtx)) >= size
    ensures !FreeAt(p, vtx, priority, size, |vtx| - 1)
  {
    hide Sum, Elems, AllowFree, Serialized;
    assert vtx[..|vtx| - 1 + 1] == vtx;
  }

  lemma FreeFewer(p: Pool, vtx: seq<Tx>, priority: Tx -> real, size: int)
    ensures FreeArea(p, vtx, priority, size, |vtx|) ==> FreeArea(p, vtx, priority, size, |vtx| - 1)
  {
  }

  lemma NothingAccounted(p: Pool, l: Limits, c: Contents, accounting: bool)
    requires Valid(p) && BlockOk(p, l, c, accounting) && c.vtx == [] && c.size == COINBASE_SIZE
    ensures BlockOk(p, l, c, true) && c.inBlock == {}
  {
  }

  lemma AccountingMayStop(p: Pool, l: Limits, c: Contents, accounting: bool)
    requires Valid(p) && BlockOk(p, l, c, true)
    ensures BlockOk(p, l, c, accounting)
  {
  }

  /** Parents in the block bring all ancestors with them. */
  lemma ParentsInMeansAncestorsIn(p: Pool, l: Limits, c: Contents, accounting: bool, t: Tx)
    requires Valid(p) && BlockOk(p, l, c, accounting) && t in p.entries
    requires forall q :: q in p.parents[t] ==> q in c.inBlock
    ensures Anc(p, t) <= c.inBlock
  {
    hide Counted, WithinLimits, NoRepeats, Topological;
    BlockIsClosed(p, c.vtx);
    forall q | q in Anc(p, t) ensures q in c.inBlock {
      var s := AncVia(p, t, q);
    }
  }

  lemma SortedEnds(sorted: seq<Tx>)
    ensures sorted[..0] == [] && sorted[0..] == sorted && sorted[..|sorted|] == sorted && Elems([]) == {}
  {
  }

  lemma NextSorted(p: Pool, sorted: seq<Tx>, i: nat, included: set<Tx>)
    requires Valid(p) && i < |sorted| && NoRepeats(sorted) && Elems(sorted) !! included
      && Topological(p, sorted, included)
    ensures sorted[i] in p.entries && sorted[i] !in included + Elems(sorted[..i])
      && sorted[i] !in Elems(sorted[i + 1..])
    ensures Anc(p, sorted[i]) <= included + Elems(sorted[..i])
    ensures sorted[..i + 1] == sorted[..i] + [sorted[i]]
    ensures Elems(sorted[..i + 1]) == Elems(sorted[..i]) + {sorted[i]}
    ensures Elems(sorted[i..]) == Elems(sorted[i + 1..]) + {sorted[i]}
  {
    assert sorted[i] in Elems(sorted);
    assert sorted[..i + 1] == sorted[..i] + [sorted[i]];
    assert sorted[i..] == [sorted[i]] + sorted[i + 1..];
  }

  lemma ParentsEarlier(p: Pool, vtx: seq<Tx>)
    requires Valid(p) && Topological(p, vtx, {})
    ensures forall i, q :: 0 <= i < |vtx| && vtx[i] in p.entries && q in p.parents[vtx[i]] ==> q in vtx[..i]
  {
    hide Anc;
    forall i, q | 0 <= i < |vtx| && vtx[i] in p.entries && q in p.parents[vtx[i]] ensures q in vtx[..i] {
      ParentsAreAncestors(p, vtx[i]);
      assert q in Elems(vtx[..i]);
    }
  }

  lemma ClosedBlock(p: Pool, l: Limits, c: Contents, accounting: bool)
    requires Valid(p) && BlockOk(p, l, c, accounting)
    ensures Closed(p, c.inBlock) && c.inBlock <= p.entries.Keys
    ensures Closed(p, {})
  {
    BlockIsClosed(p, c.vtx);
  }

  lemma NothingModified(p: Pool, l: Limits, minFee: nat -> int, accounting: bool, inBlock: set<Tx>)
    requires Valid(p)
    ensures ModifiedOk(p, map[], {}, TakesAll(p, l, minFee, accounting)) && Untouched(p, {}, {}, {} + inBlock)
    ensures TakesAll(p, l, minFee, accounting) ==> FeesExact(p)
  {
  }

  lemma ModifiedWithout(p: Pool, mapModifiedTx: map<Tx, Modified>, included: set<Tx>, gone: set<Tx>, exact: bool)
    requires Valid(p) && ModifiedOk(p, mapModifiedTx, included, exact)
    ensures ModifiedOk(p, mapModifiedTx - gone, included, exact)
    ensures Untouched(p, mapModifiedTx.Keys, included, included) ==>
              Untouched(p, (mapModifiedTx - gone).Keys, included, included + gone)
  {
  }

  /** The pool's own totals for t with all its ancestors. */
  function Cached(p: Pool, t: Tx): Modified
    requires t in p.entries
  {
    var e := p.entries[t];
    Modified(e.sizeWithAncestors, e.modFeesWithAncestors, e.sigOpsWithAncestors)
  }

  ghost predicate AllTurnedAway(p: Pool, l: Limits, vtx: seq<Tx>, from: nat, away: set<Tx>, accounting: bool)
    requires Valid(p)
  {
    forall t :: t in away ==> t in p.entries && TurnedAway(p, l, vtx, from, t, accounting)
  }

  /** All of them were candidates for which this block has no room. */
  ghost predicate NoneHasRoom(p: Pool, l: Limits, vtx: seq<Tx>, failed: seq<Tx>)
    requires Valid(p)
  {
    forall i :: 0 <= i < |failed| ==> failed[i] in p.entries && exists m :: NoRoomAt(p, l, vtx, |vtx|, failed[i], m)
  }

  lemma NoneFailed(p: Pool, l: Limits, vtx: seq<Tx>, from: nat, accounting: bool)
    requires Valid(p)
    ensures NoneHasRoom(p, l, vtx, []) && AllTurnedAway(p, l, vtx, from, {}, accounting)
  {
  }

  lemma CheapLeftOut(p: Pool, l: Limits, c: Contents, accounting: bool, t: Tx, m: Modified, exact: bool)
    requires Valid(p) && BlockOk(p, l, c, accounting) && t in p.entries && t !in c.inBlock
    requires Covers(p, t, m, c.inBlock, exact)
    ensures t !in c.vtx && Covers(p, t, m, c.inBlock, false)
  {
  }

  lemma NoRoomNow(p: Pool, l: Limits, c: Contents, accounting: bool, t: Tx, m: Modified, exact: bool)
    requires Valid(p) && BlockOk(p, l, c, accounting) && t in p.entries && t !in c.inBlock
    requires Covers(p, t, m, c.inBlock, exact)
    requires c.weight + WITNESS_SCALE_FACTOR * m.size >= l.nBlockMaxWeight
          || c.sigOps + m.sigOps >= MAX_BLOCK_SIGOPS_COST
    ensures NoRoomAt(p, l, c.vtx, |c.vtx|, t, m)
  {
    hide Sum, Package, Valid, Topological, NoRepeats, Admissible;
    assert c.vtx[..|c.vtx|] == c.vtx;
  }

  lemma RefusedNow(p: Pool, l: Limits, c: Contents, accounting: bool, t: Tx)
    requires Valid(p) && BlockOk(p, l, c, accounting) && t in p.entries && t !in c.inBlock
    requires var missing := (Anc(p, t) - c.inBlock) + {t};
      || (exists q :: q in missing && !Admissible(p, l, q))
      || (accounting && c.size + Sum(Serialized(p), missing) >= l.nBlockMaxSize)
    ensures RefusedAt(p, l, c.vtx, |c.vtx|, t, accounting)
  {
    hide Sum, Anc, Valid, Topological, NoRepeats, Admissible;
    assert c.vtx[..|c.vtx|] == c.vtx;
    assert Package(p, t) - c.inBlock == (Anc(p, t) - c.inBlock) + {t};
  }

  /** A candidate that failed a test joins those turned away; a growing block keeps them turned away. */
  lemma TurnAway(p: Pool, l: Limits, before: Contents, c: Contents, accounting: bool, from: nat, t: Tx, m: Modified,
                 away: set<Tx>, outcome: Outcome, exact: bool)
    returns (away': set<Tx>)
    requires Valid(p) && BlockOk(p, l, before, accounting) && t in p.entries && t !in before.inBlock
    requires Covers(p, t, m, before.inBlock, exact) && before.vtx <= c.vtx && from <= |before.vtx|
    requires AllTurnedAway(p, l, before.vtx, from, away, accounting)
    requires outcome.NoRoom? ==>
      || before.weight + WITNESS_SCALE_FACTOR * m.size >= l.nBlockMaxWeight
      || before.sigOps + m.sigOps >= MAX_BLOCK_SIGOPS_COST
    requires outcome.Refused? ==>
      var missing := (Anc(p, t) - before.inBlock) + {t};
      || (exists q :: q in missing && !Admissible(p, l, q))
      || (accounting && before.size + Sum(Serialized(p), missing) >= l.nBlockMaxSize)
    ensures away' == if outcome.NoRoom? || outcome.Refused? then away + {t} else away
    ensures AllTurnedAway(p, l, c.vtx, from, away', accounting)
  {
    hide NoRoomAt, RefusedAt, BlockOk, Covers, Valid, Anc, Admissible, Sum;
    away' := away;
    if outcome.NoRoom? {
      NoRoomNow(p, l, before, accounting, t, m, exact);
      away' := away + {t};
    } else if outcome.Refused? {
      RefusedNow(p, l, before, accounting, t);
      away' := away + {t};
    }
    forall u | u in away' ensures u in p.entries && TurnedAway(p, l, c.vtx, from, u, accounting) {
      TurnedAwayStays(p, l, before.vtx, c.vtx, from, u, accounting);
    }
  }

  lemma FailAgain(p: Pool, l: Limits, c: Contents, accounting: bool, t: Tx, m: Modified, failed: seq<Tx>, exact: bool)
    returns (failed': seq<Tx>)
    requires Valid(p) && BlockOk(p, l, c, accounting) && t in p.entries && t !in c.inBlock
    requires Covers(p, t, m, c.inBlock, exact) && NoneHasRoom(p, l, c.vtx, failed)
    requires c.weight + WITNESS_SCALE_FACTOR * m.size >= l.nBlockMaxWeight
          || c.sigOps + m.sigOps >= MAX_BLOCK_SIGOPS_COST
    ensures failed' == failed + [t] && NoneHasRoom(p, l, c.vtx, failed')
  {
    hide NoRoomAt, BlockOk, Covers, Valid;
    NoRoomNow(p, l, c, accounting, t, m, exact);
    failed' := failed + [t];
    forall i | 0 <= i < |failed'|
      ensures failed'[i] in p.entries && exists m' :: NoRoomAt(p, l, c.vtx, |c.vtx|, failed'[i], m')
    {
      if i == |failed| { assert NoRoomAt(p, l, c.vtx, |c.vtx|, t, m); }
    }
  }

  ghost predicate Handled(order: seq<Tx>, mi: nat, s: set<Tx>) {
    mi <= |order| && forall i :: 0 <= i < mi ==> order[i] in s
  }

  lemma NoneHandled(order: seq<Tx>, s: set<Tx>)
    ensures Handled(order, 0, s)
  {
  }

  lemma HandleOne(order: seq<Tx>, mi: nat, s: set<Tx>, mi': nat, s': set<Tx>)
    requires Handled(order, mi, s) && s <= s'
    requires mi' == mi || (mi' == mi + 1 <= |order| && order[mi] in s')
    ensures Handled(order, mi', s')
  {
  }

  lemma AllHandled(order: seq<Tx>, s: set<Tx>)
    requires Handled(order, |order|, s)
    ensures forall t :: t in order ==> t in s
  {
  }

  lemma NobodyElseFits(p: Pool, l: Limits, c: Contents, accounting: bool, from: nat, away: set<Tx>)
    requires Valid(p) && TotalsExact(p) && BlockOk(p, l, c, accounting)
    requires AllTurnedAway(p, l, c.vtx, from, away, accounting)
    ensures forall t :: t in away ==>
      t in p.entries && TurnedAway(p, l, c.vtx, from, t, accounting) && !WouldFit(p, l, c, t, accounting)
  {
    hide TurnedAway, WouldFit, BlockOk, TotalsExact, Valid;
    forall t | t in away ensures t in p.entries && !WouldFit(p, l, c, t, accounting) {
      TurnedAwayForGood(p, l, c, accounting, from, t);
    }
  }

  lemma InBlockIsListed(p: Pool, l: Limits, c: Contents, accounting: bool)
    requires Valid(p) && BlockOk(p, l, c, accounting)
    ensures forall t :: t in c.inBlock ==> t in c.vtx
  {
  }

  lemma PackageInPool(p: Pool, t: Tx, included: set<Tx>)
    requires Valid(p) && t in p.entries
    ensures (Anc(p, t) - included) + {t} <= p.entries.Keys
  {
    AncRank(p, t);
  }

  /** Both kinds of candidate cover what their package still costs. */
  lemma CandidateOk(p: Pool, mapModifiedTx: map<Tx, Modified>, included: set<Tx>, t: Tx, fUsingModified: bool,
    exact: bool)
    requires Valid(p) && TotalsExact(p) && ModifiedOk(p, mapModifiedTx, included, exact)
    requires exact ==> FeesExact(p) && Untouched(p, mapModifiedTx.Keys, included, included)
    requires if fUsingModified then t in mapModifiedTx else t in p.entries && t !in included && t !in mapModifiedTx
    ensures t in p.entries && t !in included
    ensures fUsingModified ==> Covers(p, t, mapModifiedTx[t], included, exact) && mapModifiedTx[t].size >= 0
    ensures !fUsingModified ==> var m := Cached(p, t); m.size >= 0 && Covers(p, t, m, included, exact)
  {
    hide Package, Sum, Anc, TotalsExact, FeesExact;
    if !fUsingModified {
      TotalsOf(p, t);
      SumSubset(Size(p), Package(p, t) - included, Package(p, t));
      SumSubset(SigOps(p), Package(p, t) - included, Package(p, t));
      if exact {
        FeeOf(p, t);
        assert Package(p, t) - included == Package(p, t);
      }
    }
  }

  /** Where the whole pool fits and pays, so does every package that is still missing. */
  lemma EveryPackageFits(p: Pool, l: Limits, c: Contents, minFee: nat -> int, accounting: bool, t: Tx, m: Modified,
    package: set<Tx>)
    requires Valid(p) && BlockOk(p, l, c, accounting) && TakesAll(p, l, minFee, accounting)
    requires t in p.entries && t !in c.inBlock && package == (Anc(p, t) - c.inBlock) + {t}
    requires Covers(p, t, m, c.inBlock, true)
    ensures minFee(m.size) <= m.fees && forall q :: q in package ==> Admissible(p, l, q)
    ensures c.weight + WITNESS_SCALE_FACTOR * m.size < l.nBlockMaxWeight && c.sigOps + m.sigOps < MAX_BLOCK_SIGOPS_COST
    ensures accounting ==> c.size + Sum(Serialized(p), package) < l.nBlockMaxSize
  {
    hide Anc, Sum, FeesExact, Topological, NoRepeats, Admissible, Valid, WithinLimits;
    var all := p.entries.Keys;
    assert package == Package(p, t) - c.inBlock;
    PackageInPool(p, t, c.inBlock);
    ClosedBlock(p, l, c, accounting);
    Beside(Size(p), c.inBlock, package, all);
    Beside(SigOps(p), c.inBlock, package, all);
    Beside(Serialized(p), c.inBlock, package, all);
    SizesCoverWeights(p, c.inBlock);
  }

  lemma Beside(f: Tx -> nat, a: set<Tx>, b: set<Tx>, all: set<Tx>)
    requires a <= all && b <= all && a !! b
    ensures Sum(f, a) + Sum(f, b) <= Sum(f, all)
  {
    SumDisjoint(f, a, b);
    SumSubset(f, a + b, all);
  }

  lemma SizesCoverWeights(p: Pool, s: set<Tx>)
    requires s <= p.entries.Keys
    ensures Sum(Weight(p), s) <= WITNESS_SCALE_FACTOR * Sum(Size(p), s)
  {
    forall x | x in s ensures Weight(p)(x) <= WITNESS_SCALE_FACTOR * Size(p)(x) {
      SizeCoversWeight(p.entries[x]);
    }
    SumScaled(Weight(p), Size(p), s);
  }

  /** Virtual sizes cover weights, so a package within its totals leaves room for all its members. */
  lemma RoomForPackage(p: Pool, t: Tx, m: Modified, included: set<Tx>, package: set<Tx>, exact: bool)
    requires Valid(p) && t in p.entries && t !in included && package == (Anc(p, t) - included) + {t}
    requires Covers(p, t, m, included, exact)
    ensures package !! included && package <= p.entries.Keys
    ensures Sum(Weight(p), package) <= WITNESS_SCALE_FACTOR * m.size
    ensures Sum(SigOps(p), package) <= m.sigOps
  {
    hide Sum, Anc, Valid, VirtualSize;
    PackageInPool(p, t, included);
    assert package == Package(p, t) - included;
    SizesCoverWeights(p, package);
  }

  lemma AllAdmissible(p: Pool, l: Limits, sorted: seq<Tx>)
    requires forall t :: t in Elems(sorted) ==> Admissible(p, l, t)
    ensures forall i :: 0 <= i < |sorted| ==> Admissible(p, l, sorted[i])
  {
    forall i | 0 <= i < |sorted| ensures Admissible(p, l, sorted[i]) { assert sorted[i] in Elems(sorted); }
  }
}
