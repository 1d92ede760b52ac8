/**
  BlockAssembler of src/miner.cpp: priority selection, then package selection over a memory
  pool of any shape.  Which package scores best is left open: what is proved about packages
  holds for every order in which the pool and the modified set offer them.
 */
module Packages {
  import opened Mempool

  const MAX_BLOCK_SIGOPS_COST := 80000
  const MAX_CONSECUTIVE_FAILURES := 1000
  const COINBASE_WEIGHT := 4000
  const COINBASE_SIGOPS := 400
  const COINBASE_SIZE := 1000

  /** CTxMemPoolModifiedEntry: ancestor totals less what is already in the block. */
  datatype Modified = Modified(size: int, fees: int, sigOps: int)

  // --------------------------------------------------- the modified entries

  function Fee(p: Pool): Tx -> nat {
    t => if t in p.entries && p.entries[t].fee >= 0 then p.entries[t].fee else 0
  }

  /** No fee is negative or changed by prioritisation, and the stored totals are the sums. */
  ghost predicate FeesExact(p: Pool)
    requires Valid(p)
  {
    forall t :: t in p.entries ==>
      0 <= p.entries[t].fee == p.entries[t].modFee && p.entries[t].modFeesWithAncestors == Sum(Fee(p), Package(p, t))
  }

  /**
    At least what including t and its missing ancestors still costs, at most what t costs with all its ancestors;
    if exact, the cost and the fees of what is missing.
   */
  ghost predicate Covers(p: Pool, t: Tx, m: Modified, included: set<Tx>, exact: bool)
    requires Valid(p) && t in p.entries
  {
    var missing := Package(p, t) - included;
    && Sum(Size(p), missing) <= m.size <= Sum(Size(p), Package(p, t))
    && Sum(SigOps(p), missing) <= m.sigOps <= Sum(SigOps(p), Package(p, t))
    && (exact ==> m == Modified(Sum(Size(p), missing), Sum(Fee(p), missing), Sum(SigOps(p), missing)))
  }

  ghost predicate ModifiedOk(p: Pool, mapModifiedTx: map<Tx, Modified>, included: set<Tx>, exact: bool)
    requires Valid(p)
  {
    forall t :: t in mapModifiedTx ==>
      t in p.entries && t !in included && Covers(p, t, mapModifiedTx[t], included, exact)
  }

  /** Entries outside `handled` that have no modified entry have no ancestor in the block. */
  ghost predicate Untouched(p: Pool, modified: set<Tx>, included: set<Tx>, handled: set<Tx>)
    requires Valid(p)
  {
    forall t :: t in p.entries && t !in modified && t !in handled ==> Package(p, t) !! included
  }

  /** With every transaction the block also holds all its ancestors. */
  ghost predicate Closed(p: Pool, included: set<Tx>)
    requires Valid(p)
  {
    forall t :: t in included ==> t in p.entries && Anc(p, t) <= included
  }

  lemma FeeOf(p: Pool, t: Tx)
    requires Valid(p) && FeesExact(p) && t in p.entries
    ensures Fee(p)(t) == p.entries[t].fee == p.entries[t].modFee
    ensures p.entries[t].modFeesWithAncestors == Sum(Fee(p), Package(p, t))
  {
  }

  lemma TotalsOf(p: Pool, t: Tx)
    requires Valid(p) && TotalsExact(p) && t in p.entries
    ensures p.entries[t].sizeWithAncestors == Sum(Size(p), Package(p, t))
    ensures p.entries[t].sigOpsWithAncestors == Sum(SigOps(p), Package(p, t))
  {
  }

  /** update_for_parent_inclusion: what an entry says of its package stays right when an ancestor is included. */
  lemma CoversLess(p: Pool, t: Tx, m: Modified, included: set<Tx>, it: Tx, exact: bool)
    requires Valid(p) && t in p.entries && it in Package(p, t) && it !in included && it in p.entries
    requires Covers(p, t, m, included, exact) && (exact ==> FeesExact(p))
    ensures Covers(p, t, Modified(m.size - Size(p)(it), m.fees - p.entries[it].fee, m.sigOps - SigOps(p)(it)),
      included + {it}, exact)
  {
    hide FeesExact, Package, Sum, Anc, Valid;
    if exact { FeeOf(p, it); }
    var rest := Package(p, t) - included;
    SumTake(Size(p), rest, it);
    SumTake(SigOps(p), rest, it);
    SumTake(Fee(p), rest, it);
    assert Package(p, t) - (included + {it}) == rest - {it};
  }

  /** A new modified entry starts from the pool's totals over all ancestors, less one. */
  lemma CoversFresh(p: Pool, t: Tx, included: set<Tx>, it: Tx, exact: bool)
    requires Valid(p) && TotalsExact(p) && t in p.entries && it in Package(p, t) && it in p.entries
    requires exact ==> FeesExact(p) && Package(p, t) !! included
    ensures var e := p.entries[t];
            Covers(p, t, Modified(e.sizeWithAncestors - Size(p)(it), e.modFeesWithAncestors - p.entries[it].modFee,
                                  e.sigOpsWithAncestors - SigOps(p)(it)), included + {it}, exact)
  {
    hide FeesExact, TotalsExact, Package, Sum, Anc, Valid;
    TotalsOf(p, t);
    if exact {
      FeeOf(p, t);
      FeeOf(p, it);
    }
    var all := Package(p, t);
    SumTake(Size(p), all, it);
    SumTake(SigOps(p), all, it);
    SumTake(Fee(p), all, it);
    SumSubset(Size(p), all - (included + {it}), all - {it});
    SumSubset(SigOps(p), all - (included + {it}), all - {it});
    assert exact ==> all - (included + {it}) == all - {it};
  }

  lemma CoversIrrelevant(p: Pool, t: Tx, m: Modified, included: set<Tx>, it: Tx, exact: bool)
    requires Valid(p) && t in p.entries && it !in Package(p, t) && Covers(p, t, m, included, exact)
    ensures Covers(p, t, m, included + {it}, exact)
  {
    assert Package(p, t) - (included + {it}) == Package(p, t) - included;
  }

  /** CalculateDescendants: everything that depends on it, and it. */
  function Descendants(p: Pool, it: Tx): set<Tx>
    requires Valid(p)
  {
    set t | t in p.entries && it in Package(p, t)
  }

  /** One entry of mapModifiedTx after `it` got into the block. */
  function Update(p: Pool, mapModifiedTx: map<Tx, Modified>, t: Tx, it: Tx): Modified
    requires t in p.entries && it in p.entries
  {
    var e := p.entries[it];
    if t in mapModifiedTx then
      var m := mapModifiedTx[t];
      Modified(m.size - VirtualSize(e), m.fees - e.fee, m.sigOps - e.sigOps)
    else
      var d := p.entries[t];
      Modified(d.sizeWithAncestors - VirtualSize(e), d.modFeesWithAncestors - e.modFee,
        d.sigOpsWithAncestors - e.sigOps)
  }

  /**
    The fees of a package after two of its ancestors got in, one after the other: the first inclusion
    takes off the modified fee, the second the plain one, so that the rest is right if and only if the
    second was not prioritised.
   */
  lemma SecondFeeIsPlain(p: Pool, t: Tx, first: Tx, second: Tx)
    requires t in p.entries && first in p.entries && second in p.entries
    ensures var m := Update(p, map[t := Update(p, map[], t, first)], t, second);
      m.fees == p.entries[t].modFeesWithAncestors - p.entries[first].modFee - p.entries[second].modFee <==>
        p.entries[second].fee == p.entries[second].modFee
  {
  }

  lemma UpdateCovers(p: Pool, mapModifiedTx: map<Tx, Modified>, t: Tx, it: Tx, included: set<Tx>, exact: bool)
    requires Valid(p) && TotalsExact(p) && t in p.entries && it in p.entries && it in Package(p, t) && it !in included
    requires t in mapModifiedTx ==> Covers(p, t, mapModifiedTx[t], included, exact)
    requires exact ==> FeesExact(p) && (t !in mapModifiedTx ==> Package(p, t) !! included)
    ensures Covers(p, t, Update(p, mapModifiedTx, t, it), included + {it}, exact)
  {
    hide Covers, TotalsExact, FeesExact, Package, Sum, Anc, Valid, VirtualSize;
    if t in mapModifiedTx {
      CoversLess(p, t, mapModifiedTx[t], included, it, exact);
    } else {
      CoversFresh(p, t, included, it, exact);
    }
  }

  lemma DescendantsNotIncluded(p: Pool, before: set<Tx>, alreadyAdded: set<Tx>, included: set<Tx>, it: Tx)
    requires Valid(p) && Closed(p, before) && before <= included <= before + alreadyAdded
    requires it in p.entries && it !in included
    ensures forall t :: t in Descendants(p, it) ==> t in p.entries && it in Package(p, t)
    ensures forall t :: t in Descendants(p, it) && t !in alreadyAdded ==> t !in included
    ensures forall t :: t in p.entries && t !in Descendants(p, it) ==> it !in Package(p, t)
    ensures it in Descendants(p, it)
  {
  }

  /** The inner loop of UpdatePackagesForAdded: all descendants of one added transaction. */
  method UpdateDescendants(p: Pool, alreadyAdded: set<Tx>, it: Tx, modifiedIn: map<Tx, Modified>,
                           ghost before: set<Tx>, ghost included: set<Tx>, ghost exact: bool)
    returns (mapModifiedTx: map<Tx, Modified>)
    requires Valid(p) && TotalsExact(p) && Closed(p, before) && before <= included <= before + alreadyAdded
    requires it in alreadyAdded && it in p.entries && it !in included
    requires ModifiedOk(p, modifiedIn, included, exact) && modifiedIn.Keys !! alreadyAdded
    requires exact ==> FeesExact(p) && Untouched(p, modifiedIn.Keys, included, before + alreadyAdded)
    ensures ModifiedOk(p, mapModifiedTx, included + {it}, exact) && mapModifiedTx.Keys !! alreadyAdded
    ensures mapModifiedTx.Keys == modifiedIn.Keys + (Descendants(p, it) - alreadyAdded)
  {
    hide Covers, TotalsExact, FeesExact, Anc, Package, Descendants, Update, Closed, Valid, Sum;
    mapModifiedTx := modifiedIn;
    var todo := Descendants(p, it);
    DescendantsNotIncluded(p, before, alreadyAdded, included, it);
    while todo != {}
      invariant todo <= Descendants(p, it)
      invariant mapModifiedTx.Keys == modifiedIn.Keys + (Descendants(p, it) - todo - alreadyAdded)
      invariant forall t :: t in mapModifiedTx && t in todo ==> t in modifiedIn && mapModifiedTx[t] == modifiedIn[t]
      invariant forall t :: t in mapModifiedTx && t in Descendants(p, it) - todo ==>
                  Covers(p, t, mapModifiedTx[t], included + {it}, exact)
      invariant forall t :: t in mapModifiedTx && t !in Descendants(p, it) ==>
        t in modifiedIn && mapModifiedTx[t] == modifiedIn[t]
      decreases todo
    {
      var desc :| desc in todo;
      todo := todo - {desc};
      if desc in alreadyAdded {
        continue;
      }
      UpdateCovers(p, mapModifiedTx, desc, it, included, exact);
      mapModifiedTx := mapModifiedTx[desc := Update(p, mapModifiedTx, desc, it)];
    }
    forall t | t in mapModifiedTx
      ensures t in p.entries && t !in included + {it} && Covers(p, t, mapModifiedTx[t], included + {it}, exact)
    {
      if t !in Descendants(p, it) { CoversIrrelevant(p, t, modifiedIn[t], included, it, exact); }
    }
  }

  lemma StillUntouched(p: Pool, modifiedIn: map<Tx, Modified>, mapModifiedTx: map<Tx, Modified>,
                       before: set<Tx>, alreadyAdded: set<Tx>, done: set<Tx>)
    requires Valid(p) && Untouched(p, modifiedIn.Keys, before, before + alreadyAdded) && done <= alreadyAdded
    requires forall t :: t in mapModifiedTx <==>
               t in modifiedIn || (t in p.entries && t !in alreadyAdded && Package(p, t) * done != {})
    ensures Untouched(p, mapModifiedTx.Keys, before + done, before + alreadyAdded)
  {
    hide Package;
    forall t | t in p.entries && t !in mapModifiedTx && t !in before + alreadyAdded
      ensures Package(p, t) !! before + done
    {
      var pack := Package(p, t);
      assert t !in modifiedIn && pack * done == {};
      forall q | q in pack ensures q !in before + done { assert q in pack * done <==> q in done; }
    }
  }

  /** Every modified entry still covers its package once all of `alreadyAdded` is in the block. */
  method UpdatePackagesForAdded(p: Pool, alreadyAdded: set<Tx>, modifiedIn: map<Tx, Modified>, ghost before: set<Tx>,
                                ghost exact: bool)
    returns (mapModifiedTx: map<Tx, Modified>)
    requires Valid(p) && TotalsExact(p) && Closed(p, before) && before !! alreadyAdded && alreadyAdded <= p.entries.Keys
    requires ModifiedOk(p, modifiedIn, before, exact) && modifiedIn.Keys !! alreadyAdded
    requires exact ==> FeesExact(p) && Untouched(p, modifiedIn.Keys, before, before + alreadyAdded)
    ensures ModifiedOk(p, mapModifiedTx, before + alreadyAdded, exact)
    ensures exact ==> Untouched(p, mapModifiedTx.Keys, before + alreadyAdded, before + alreadyAdded)
    ensures forall t :: t in mapModifiedTx <==>
              t in modifiedIn || (t in p.entries && t !in alreadyAdded && Package(p, t) * alreadyAdded != {})
  {
    hide ModifiedOk, TotalsExact, FeesExact, Untouched, Closed, Package;
    mapModifiedTx := modifiedIn;
    var todo := alreadyAdded;
    assert before + (alreadyAdded - todo) == before;
    while todo != {}
      invariant todo <= alreadyAdded
      invariant ModifiedOk(p, mapModifiedTx, before + (alreadyAdded - todo), exact)
        && mapModifiedTx.Keys !! alreadyAdded
      invariant forall t :: t in mapModifiedTx <==>
                  t in modifiedIn || (t in p.entries && t !in alreadyAdded
                    && Package(p, t) * (alreadyAdded - todo) != {})
      decreases todo
    {
      var it :| it in todo;
      ghost var done := alreadyAdded - todo;
      if exact { StillUntouched(p, modifiedIn, mapModifiedTx, before, alreadyAdded, done); }
      mapModifiedTx := UpdateDescendants(p, alreadyAdded, it, mapModifiedTx, before, before + done, exact);
      todo := todo - {it};
      assert before + done + {it} == before + (alreadyAdded - todo);
      forall t | t in p.entries
        ensures Package(p, t) * (alreadyAdded - todo) != {} <==> Package(p, t) * done != {} || it in Package(p, t)
      {
        assert alreadyAdded - todo == done + {it};
        assert it in Package(p, t) ==> it in Package(p, t) * (done + {it});
        assert Package(p, t) * done <= Package(p, t) * (done + {it});
      }
    }
    assert alreadyAdded - todo == alreadyAdded;
    if exact { StillUntouched(p, modifiedIn, mapModifiedTx, before, alreadyAdded, alreadyAdded); }
  }

  // ------------------------------------------------------------ block order

  function Elems(s: seq<Tx>): set<Tx> {
    set t | t in s
  }

  ghost predicate NoRepeats(s: seq<Tx>) {
    forall i, j :: 0 <= i < j < |s| ==> s[i] != s[j]
  }

  /** Every ancestor comes before, given what is in the block already. */
  ghost predicate Topological(p: Pool, s: seq<Tx>, included: set<Tx>)
    requires Valid(p)
  {
    forall i :: 0 <= i < |s| ==> s[i] in p.entries && Anc(p, s[i]) <= included + Elems(s[..i])
  }

  ghost predicate SortedByCount(p: Pool, s: seq<Tx>) {
    forall i, j :: 0 <= i < j < |s| ==>
      s[i] in p.entries && s[j] in p.entries && p.entries[s[i]].countWithAncestors <= p.entries[s[j]].countWithAncestors
  }

  method PickFirst(p: Pool, s: set<Tx>) returns (t: Tx)
    requires s != {} && s <= p.entries.Keys
    ensures t in s && forall u :: u in s ==> p.entries[t].countWithAncestors <= p.entries[u].countWithAncestors
  {
    t :| t in s;
    var todo := s - {t};
    while todo != {}
      invariant t in s && todo <= s
      invariant forall u :: u in s - todo ==> p.entries[t].countWithAncestors <= p.entries[u].countWithAncestors
      decreases todo
    {
      var u :| u in todo;
      todo := todo - {u};
      if p.entries[u].countWithAncestors < p.entries[t].countWithAncestors {
        t := u;
      }
    }
  }

  /** SortForBlock: the package in order of ancestor count. */
  method SortForBlock(p: Pool, package: set<Tx>) returns (sorted: seq<Tx>)
    requires package <= p.entries.Keys
    ensures Elems(sorted) == package && NoRepeats(sorted) && SortedByCount(p, sorted)
  {
    sorted := [];
    var rest := package;
    while rest != {}
      invariant rest <= package && Elems(sorted) == package - rest && NoRepeats(sorted) && SortedByCount(p, sorted)
      invariant forall i :: 0 <= i < |sorted| ==> sorted[i] in p.entries
      invariant forall i, u :: 0 <= i < |sorted| && u in rest ==>
                  p.entries[sorted[i]].countWithAncestors <= p.entries[u].countWithAncestors
      decreases rest
    {
      var t := PickFirst(p, rest);
      assert forall i :: 0 <= i < |sorted| ==> sorted[i] in Elems(sorted);
      ghost var before := sorted;
      sorted := sorted + [t];
      assert Elems(sorted) == Elems(before) + {t};
      rest := rest - {t};
    }
  }

  /** Sorting an ancestor package by ancestor count gives an order valid for the block. */
  lemma SortedIsTopological(p: Pool, t: Tx, included: set<Tx>, package: set<Tx>, sorted: seq<Tx>)
    requires Valid(p) && TotalsExact(p) && t in p.entries && package == (Anc(p, t) - included) + {t}
    requires Elems(sorted) == package && SortedByCount(p, sorted) && package <= p.entries.Keys
    ensures Topological(p, sorted, included)
  {
    forall i | 0 <= i < |sorted| ensures sorted[i] in p.entries && Anc(p, sorted[i]) <= included + Elems(sorted[..i]) {
      assert sorted[i] in Elems(sorted);
      forall q | q in Anc(p, sorted[i]) ensures q in included + Elems(sorted[..i]) {
        EarlierThanDescendant(p, t, included, package, sorted, i, q);
      }
    }
  }

  lemma CountGrows(p: Pool, t: Tx, q: Tx)
    requires Valid(p) && TotalsExact(p) && t in p.entries && q in Anc(p, t)
    ensures q in p.entries && p.entries[q].countWithAncestors < p.entries[t].countWithAncestors
  {
    AncestorCountGrows(p, t, q);
  }

  lemma SmallerCountIsEarlier(p: Pool, sorted: seq<Tx>, i: nat, q: Tx)
    requires SortedByCount(p, sorted) && i < |sorted| && q in Elems(sorted) && q in p.entries && sorted[i] in p.entries
    requires p.entries[q].countWithAncestors < p.entries[sorted[i]].countWithAncestors
    ensures q in Elems(sorted[..i])
  {
    var j :| 0 <= j < |sorted| && sorted[j] == q;
    assert sorted[..i][j] == q;
  }

  lemma EarlierThanDescendant(p: Pool, t: Tx, included: set<Tx>, package: set<Tx>, sorted: seq<Tx>, i: nat, q: Tx)
    requires Valid(p) && TotalsExact(p) && t in p.entries && package == (Anc(p, t) - included) + {t}
    requires Elems(sorted) == package && SortedByCount(p, sorted) && package <= p.entries.Keys
    requires i < |sorted| && sorted[i] in p.entries && q in Anc(p, sorted[i])
    ensures q in included + Elems(sorted[..i])
  {
    hide Anc, TotalsExact, Valid, SortedByCount;
    assert sorted[i] in Elems(sorted);
    if sorted[i] != t { AncTransitive(p, t, sorted[i]); }
    CountGrows(p, sorted[i], q);
    if q !in included {
      assert q in Elems(sorted);
      SmallerCountIsEarlier(p, sorted, i, q);
    }
  }
}
