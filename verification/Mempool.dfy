/**
  The memory pool as the block assembler sees it (src/txmempool.h, src/txmempool.cpp):
  entries with weight, signature operations and fees, linked to their in-pool parents.
 */
module Mempool {

  type Tx = nat

  const WITNESS_SCALE_FACTOR := 4
  const BYTES_PER_SIGOP := 20

  /** CTxMemPoolEntry; the last four fields are the totals the pool keeps over an entry and its ancestors. */
  datatype Entry = Entry(weight: nat, sigOps: nat, fee: int, modFee: int, serializedSize: nat,
                         isFinal: bool, hasWitness: bool,
                         sizeWithAncestors: int, modFeesWithAncestors: int, sigOpsWithAncestors: int,
                         countWithAncestors: int)

  /** `rank` numbers the entries so that parents precede children: the links have no cycle. */
  datatype Pool = Pool(entries: map<Tx, Entry>, parents: map<Tx, set<Tx>>, rank: map<Tx, nat>)

  predicate Valid(p: Pool) {
    && p.parents.Keys == p.entries.Keys && p.rank.Keys == p.entries.Keys
    && (forall t, q :: t in p.entries && q in p.parents[t] ==> q in p.entries && p.rank[q] < p.rank[t])
  }

  /** GetTxSize: weight or signature operations in virtual bytes, rounded up. */
  function VirtualSize(e: Entry): nat {
    var w := if e.weight >= e.sigOps * BYTES_PER_SIGOP then e.weight else e.sigOps * BYTES_PER_SIGOP;
    (w + WITNESS_SCALE_FACTOR - 1) / WITNESS_SCALE_FACTOR
  }

  /** It is the least size whose fourfold covers the weight and the signature operations. */
  lemma SizeCoversWeight(e: Entry)
    ensures WITNESS_SCALE_FACTOR * VirtualSize(e) >= e.weight
    ensures forall s :: VirtualSize(e) <= s <==>
      WITNESS_SCALE_FACTOR * s >= e.weight && WITNESS_SCALE_FACTOR * s >= BYTES_PER_SIGOP * e.sigOps
  {
  }

  /** CalculateMemPoolAncestors without limits. */
  function Anc(p: Pool, t: Tx): set<Tx>
    requires Valid(p) && t in p.entries
    decreases p.rank[t]
  {
    set q, s | s in p.parents[t] && q in Anc(p, s) + {s} :: q
  }

  lemma {:induction false} AncRank(p: Pool, t: Tx)
    requires Valid(p) && t in p.entries
    ensures forall q :: q in Anc(p, t) ==> q in p.entries && p.rank[q] < p.rank[t]
    decreases p.rank[t]
  {
    forall q | q in Anc(p, t) ensures q in p.entries && p.rank[q] < p.rank[t] {
      var s :| s in p.parents[t] && q in Anc(p, s) + {s};
      AncRank(p, s);
    }
  }

  lemma AncVia(p: Pool, t: Tx, q: Tx) returns (s: Tx)
    requires Valid(p) && t in p.entries && q in Anc(p, t)
    ensures s in p.parents[t] && s in p.entries && p.rank[s] < p.rank[t] && q in Anc(p, s) + {s}
  {
    s :| s in p.parents[t] && q in Anc(p, s) + {s};
  }

  lemma AncThrough(p: Pool, t: Tx, s: Tx)
    requires Valid(p) && t in p.entries && s in p.parents[t]
    ensures Anc(p, s) + {s} <= Anc(p, t)
  {
  }

  /** Ancestors of ancestors are ancestors. */
  lemma {:induction false} AncTransitive(p: Pool, t: Tx, q: Tx)
    requires Valid(p) && t in p.entries && q in Anc(p, t)
    ensures q in p.entries && Anc(p, q) <= Anc(p, t)
    decreases p.rank[t]
  {
    hide Anc;
    AncRank(p, t);
    var s := AncVia(p, t, q);
    if q != s {
      AncTransitive(p, s, q);
    }
    assert Anc(p, q) <= Anc(p, s) + {s};
    AncThrough(p, t, s);
  }

  lemma ParentsAreAncestors(p: Pool, t: Tx)
    requires Valid(p) && t in p.entries
    ensures p.parents[t] <= Anc(p, t)
  {
    forall q | q in p.parents[t] ensures q in Anc(p, t) { assert q in Anc(p, q) + {q}; }
  }

  /** They are no more than what must be there: every set with the parents and their parents contains them. */
  lemma {:induction false} AncLeast(p: Pool, t: Tx, s: set<Tx>)
    requires Valid(p) && t in p.entries && p.parents[t] <= s
    requires forall q :: q in s && q in p.entries ==> p.parents[q] <= s
    ensures Anc(p, t) <= s
    decreases p.rank[t]
  {
    hide Anc;
    forall q | q in Anc(p, t) ensures q in s {
      var via := AncVia(p, t, q);
      AncLeast(p, via, s);
    }
  }

  /** A dependant always has strictly more ancestors than what it depends on. */
  lemma AncestorCountGrows(p: Pool, t: Tx, q: Tx)
    requires Valid(p) && t in p.entries && q in Anc(p, t)
    ensures q in p.entries && |Anc(p, q)| < |Anc(p, t)|
  {
    AncTransitive(p, t, q);
    AncRank(p, q);
    assert q !in Anc(p, q);
    Subset(Anc(p, q) + {q}, Anc(p, t));
  }

  lemma {:induction false} Subset(a: set<Tx>, b: set<Tx>)
    requires a <= b
    ensures |a| <= |b|
    decreases |a|
  {
    if a != {} {
      var x :| x in a;
      Subset(a - {x}, b - {x});
    }
  }

  // ---------------------------------------------------------- sums over sets

  ghost function Sum(f: Tx -> nat, s: set<Tx>): nat
    decreases |s|
  {
    if s == {} then 0
    else
      var x :| x in s;
      f(x) + Sum(f, s - {x})
  }

  /** The sum does not depend on the order in which elements are taken. */
  lemma {:induction false} SumTake(f: Tx -> nat, s: set<Tx>, x: Tx)
    requires x in s
    ensures Sum(f, s) == f(x) + Sum(f, s - {x})
    decreases |s|
  {
    var y :| y in s && Sum(f, s) == f(y) + Sum(f, s - {y});
    if y != x {
      SumTake(f, s - {y}, x);
      SumTake(f, s - {x}, y);
      assert s - {y} - {x} == s - {x} - {y};
    }
  }

  lemma SumAdd(f: Tx -> nat, s: set<Tx>, x: Tx)
    requires x !in s
    ensures Sum(f, s + {x}) == f(x) + Sum(f, s)
  {
    SumTake(f, s + {x}, x);
    assert s + {x} - {x} == s;
  }

  lemma {:induction false} SumDisjoint(f: Tx -> nat, a: set<Tx>, b: set<Tx>)
    requires a !! b
    ensures Sum(f, a + b) == Sum(f, a) + Sum(f, b)
    decreases |a|
  {
    if a == {} {
      assert a + b == b;
    } else {
      var x :| x in a;
      SumTake(f, a, x);
      SumTake(f, a + b, x);
      assert a + b - {x} == (a - {x}) + b;
      SumDisjoint(f, a - {x}, b);
    }
  }

  lemma SumSubset(f: Tx -> nat, a: set<Tx>, b: set<Tx>)
    requires a <= b
    ensures Sum(f, a) <= Sum(f, b)
  {
    SumDisjoint(f, a, b - a);
    assert a + (b - a) == b;
  }

  lemma {:induction false} SumScaled(f: Tx -> nat, g: Tx -> nat, s: set<Tx>)
    requires forall x :: x in s ==> f(x) <= WITNESS_SCALE_FACTOR * g(x)
    ensures Sum(f, s) <= WITNESS_SCALE_FACTOR * Sum(g, s)
    decreases |s|
  {
    if s != {} {
      var x :| x in s;
      SumTake(f, s, x);
      SumTake(g, s, x);
      SumScaled(f, g, s - {x});
    }
  }

  // ------------------------------------------------------------ stored totals

  function Size(p: Pool): Tx -> nat {
    t => if t in p.entries then VirtualSize(p.entries[t]) else 0
  }

  function SigOps(p: Pool): Tx -> nat {
    t => if t in p.entries then p.entries[t].sigOps else 0
  }

  function Weight(p: Pool): Tx -> nat {
    t => if t in p.entries then p.entries[t].weight else 0
  }

  function Serialized(p: Pool): Tx -> nat {
    t => if t in p.entries then p.entries[t].serializedSize else 0
  }

  /** A transaction with its ancestors. */
  function Package(p: Pool, t: Tx): set<Tx>
    requires Valid(p) && t in p.entries
  {
    Anc(p, t) + {t}
  }

  /** What CTxMemPool::check demands of the stored totals. */
  ghost predicate TotalsExact(p: Pool)
    requires Valid(p)
  {
    forall t :: t in p.entries ==>
      && p.entries[t].sizeWithAncestors == Sum(Size(p), Package(p, t))
      && p.entries[t].sigOpsWithAncestors == Sum(SigOps(p), Package(p, t))
      && p.entries[t].countWithAncestors == |Anc(p, t)| + 1
  }
}
