/**
  CuckooCache::cache (src/cuckoocache.h): a table of 2^n slots in which an element may stand at
  any of eight hashed places, with a bit per slot that marks it as garbage and a bit that tells
  whether it belongs to the current epoch.
 */
module CuckooCache {
  import opened Common

  // ------------------------------------------------------- garbage flags

  function BitOf(x: bv8, b: bv3): bool {
    (x >> b) & 1 == 1
  }

  lemma SetBit(x: bv8, s: bv3, b: bv3)
    ensures BitOf(x | ((1 as bv8) << s), b) == (b == s || BitOf(x, b))
  {
  }

  lemma UnsetBit(x: bv8, s: bv3, b: bv3)
    ensures BitOf(x & !((1 as bv8) << s), b) == (b != s && BitOf(x, b))
  {
  }

  /** The bit position `s & 7`. */
  function Low(s: nat): bv3 {
    (s % 8) as bv3
  }

  lemma LowInjective(s: nat, t: nat)
    requires s / 8 == t / 8 && s != t
    ensures Low(s) != Low(t)
  {
    assert (Low(s) as nat) == s % 8 && (Low(t) as nat) == t % 8;
  }

  /** bit_packed_atomic_flags: eight flags to a byte. */
  class BitPackedFlags {
    const size: nat
    const mem: array<bv8>

    predicate Ok() {
      mem.Length == (size + 7) / 8
    }

    ghost function IsSet(s: nat): bool
      requires Ok() && s < size
      reads mem
    {
      BitOf(mem[s / 8], Low(s))
    }

    ghost function Flags(): (f: seq<bool>)
      requires Ok()
      reads mem
      ensures |f| == size && forall i :: 0 <= i < size ==> f[i] == IsSet(i)
    {
      seq(size, i requires 0 <= i < size reads mem => IsSet(i))
    }

    constructor (size: nat)
      ensures Ok() && this.size == size && fresh(mem) && forall s: nat :: s < size ==> IsSet(s)
    {
      this.size := size;
      mem := new bv8[(size + 7) / 8](_ => 0xFF);
    }

    method BitSet(s: nat)
      requires Ok() && s < size
      modifies mem
      ensures Flags() == old(Flags())[s := true]
    {
      hide BitOf, Low;
      forall t: nat | t / 8 == s / 8 && t != s ensures Low(t) != Low(s) { LowInjective(s, t); }
      forall b: bv3 ensures BitOf(mem[s / 8] | ((1 as bv8) << Low(s)), b) == (b == Low(s) || BitOf(mem[s / 8], b)) {
        SetBit(mem[s / 8], Low(s), b);
      }
      mem[s / 8] := mem[s / 8] | ((1 as bv8) << Low(s));
    }

    method BitUnset(s: nat)
      requires Ok() && s < size
      modifies mem
      ensures Flags() == old(Flags())[s := false]
    {
      hide BitOf, Low;
      forall t: nat | t / 8 == s / 8 && t != s ensures Low(t) != Low(s) { LowInjective(s, t); }
      forall b: bv3 ensures BitOf(mem[s / 8] & !((1 as bv8) << Low(s)), b) == (b != Low(s) && BitOf(mem[s / 8], b)) {
        UnsetBit(mem[s / 8], Low(s), b);
      }
      mem[s / 8] := mem[s / 8] & !((1 as bv8) << Low(s));
    }

    method BitIsSet(s: nat) returns (r: bool)
      requires Ok() && s < size
      ensures r == Flags()[s]
    {
      r := BitOf(mem[s / 8], Low(s));
    }
  }

  // ------------------------------------------------------- what a table holds

  /** The elements that are not garbage. */
  ghost function Live<E>(t: seq<E>, g: seq<bool>): multiset<E>
    requires |t| == |g|
  {
    if t == [] then multiset{} else Live(t[..|t| - 1], g[..|g| - 1]) + Slot(t[|t| - 1], g[|g| - 1])
  }

  ghost function Slot<E>(x: E, garbage: bool): multiset<E> {
    if garbage then multiset{} else multiset{x}
  }

  /** Changing one slot exchanges what it held for what it holds. */
  lemma {:induction false} LiveChange<E>(t: seq<E>, g: seq<bool>, i: nat, x: E, b: bool)
    requires i < |t| == |g|
    ensures Live(t[i := x], g[i := b]) + Slot(t[i], g[i]) == Live(t, g) + Slot(x, b)
  {
    hide Slot;
    var n := |t| - 1;
    var t', g' := t[i := x], g[i := b];
    if i < n {
      LiveChange(t[..n], g[..n], i, x, b);
      assert t'[..n] == t[..n][i := x] && g'[..n] == g[..n][i := b];
      Exchange(Live(t'[..n], g'[..n]), Slot(t[i], g[i]), Live(t[..n], g[..n]), Slot(x, b), Slot(t[n], g[n]));
    } else {
      assert t'[..n] == t[..n] && g'[..n] == g[..n];
      Swapped(Live(t[..n], g[..n]), Slot(x, b), Slot(t[i], g[i]));
    }
  }

  lemma Exchange<E>(a: multiset<E>, b: multiset<E>, c: multiset<E>, d: multiset<E>, e: multiset<E>)
    requires a + b == c + d
    ensures a + e + b == c + e + d
  {
    assert a + e + b == a + b + e;
    assert c + e + d == c + d + e;
  }

  lemma Swapped<E>(a: multiset<E>, b: multiset<E>, c: multiset<E>)
    ensures a + b + c == a + c + b
  {
  }

  /** The number of elements of the current epoch that are not garbage. */
  ghost function Current(r: seq<bool>, g: seq<bool>): nat
    requires |r| == |g|
  {
    if r == [] then 0 else Current(r[..|r| - 1], g[..|g| - 1]) + One(r[|r| - 1] && !g[|g| - 1])
  }

  ghost function One(b: bool): nat {
    if b then 1 else 0
  }

  lemma {:induction false} CurrentChange(r: seq<bool>, g: seq<bool>, i: nat, v: bool, b: bool)
    requires i < |r| == |g|
    ensures Current(r[i := v], g[i := b]) + One(r[i] && !g[i]) == Current(r, g) + One(v && !b)
  {
    var n := |r| - 1;
    var r', g' := r[i := v], g[i := b];
    if i < n {
      CurrentChange(r[..n], g[..n], i, v, b);
      assert r'[..n] == r[..n][i := v] && g'[..n] == g[..n][i := b];
    } else {
      assert r'[..n] == r[..n] && g'[..n] == g[..n];
    }
  }

  /** Ageing: what is not of the current epoch becomes garbage, the rest stops being current. */
  ghost function AgedGarbage(r: seq<bool>, g: seq<bool>): (a: seq<bool>)
    requires |r| == |g|
    ensures |a| == |g| && forall i :: 0 <= i < |a| ==> a[i] == (g[i] || !r[i])
  {
    seq(|g|, i requires 0 <= i < |g| => g[i] || !r[i])
  }

  lemma {:induction false} NoneCurrent(r: seq<bool>, g: seq<bool>)
    requires |r| == |g| && forall i :: 0 <= i < |r| ==> !r[i]
    ensures Current(r, g) == 0
  {
    if |r| > 0 { NoneCurrent(r[..|r| - 1], g[..|g| - 1]); }
  }

  lemma {:induction false} AllGarbage<E>(t: seq<E>, g: seq<bool>)
    requires |t| == |g| && forall i :: 0 <= i < |g| ==> g[i]
    ensures Live(t, g) == multiset{}
  {
    if |t| > 0 { AllGarbage(t[..|t| - 1], g[..|g| - 1]); }
  }

  lemma {:induction false} LiveSomewhere<E>(t: seq<E>, g: seq<bool>, x: E)
    requires |t| == |g|
    ensures x in Live(t, g) <==> exists i :: 0 <= i < |t| && !g[i] && t[i] == x
  {
    if |t| > 0 {
      var n := |t| - 1;
      LiveSomewhere(t[..n], g[..n], x);
      if x in Live(t[..n], g[..n]) {
        var i :| 0 <= i < n && !g[..n][i] && t[..n][i] == x;
        assert !g[i] && t[i] == x;
      }
      if i :| 0 <= i < |t| && !g[i] && t[i] == x {
        if i < n { assert !g[..n][i] && t[..n][i] == x; }
      }
    }
  }

  // ------------------------------------------------------------------ the cache

  /** How a displacement ends, and after how many evictions. */
  datatype Walk<E> = Walk(table: seq<E>, carried: E, moves: nat, placed: bool)

  ghost predicate Held<E>(t: seq<E>, g: seq<bool>, r: seq<bool>, e: E) {
    |t| == |g| == |r| && exists i :: 0 <= i < |t| && t[i] == e && !g[i] && r[i]
  }

  /** Exchanging x for the element at loc loses e only if e is what comes out, with its epoch. */
  lemma HeldStep<E>(t: seq<E>, g: seq<bool>, r: seq<bool>, loc: nat, x: E, epoch: bool, e: E)
    requires |t| == |g| == |r| && loc < |t| && (Held(t, g, r, e) || (x == e && epoch))
    ensures Held(t[loc := x], g[loc := false], r[loc := epoch], e) || (!g[loc] && t[loc] == e && r[loc])
  {
    var t', g', r' := t[loc := x], g[loc := false], r[loc := epoch];
    if x == e && epoch {
      assert t'[loc] == e && !g'[loc] && r'[loc];
    } else {
      var i :| 0 <= i < |t| && t[i] == e && !g[i] && r[i];
      if i != loc { assert t'[i] == e && !g'[i] && r'[i]; }
    }
  }

  lemma HeldAt<E>(t: seq<E>, g: seq<bool>, r: seq<bool>, i: nat)
    requires |t| == |g| == |r| && i < |t| && !g[i] && r[i]
    ensures Held(t, g, r, t[i])
  {
  }

  predicate SameEnd<E(==)>(v: Walk<E>, w: Walk<E>) {
    v.table == w.table && v.carried == w.carried && v.placed == w.placed
  }

  class Cache<Element(==)> {
    const size: nat
    const depthLimit: nat
    const epochSize: nat
    const hash: (nat, Element) -> nat
    const table: array<Element>
    const epochFlags: array<bool>
    const flags: BitPackedFlags
    var counter: int

    /** compute_hashes: the eight places of an element. */
    function Locs(e: Element): (locs: seq<nat>)
      requires size > 0
      ensures |locs| == 8 && forall k :: 0 <= k < 8 ==> locs[k] < size
    {
      seq(8, k requires 0 <= k < 8 => hash(k, e) % size)
    }

    ghost predicate Shape() {
      && size > 0 && epochSize > 0 && table.Length == epochFlags.Length == size && flags.Ok() && flags.size == size
      && depthLimit > 0
      && (table as object) != epochFlags && (table as object) != flags.mem && (epochFlags as object) != flags.mem
    }

    ghost function Garbage(): (g: seq<bool>)
      requires Shape()
      reads flags.mem
      ensures |g| == size
    {
      flags.Flags()
    }

    ghost function Elements(): multiset<Element>
      requires Shape()
      reads flags.mem, table
    {
      Live(table[..], Garbage())
    }

    ghost function CurrentCount(): nat
      requires Shape()
      reads flags.mem, epochFlags
    {
      Current(epochFlags[..], Garbage())
    }

    /** Every element that is not garbage stands at one of its places. */
    ghost predicate Placed()
      requires Shape()
      reads flags.mem, table
    {
      forall i :: 0 <= i < size && !Garbage()[i] ==> i in Locs(table[i])
    }

    /** 45 percent of the slots, computed in 32 bits, and at least one. */
    static function EpochSize(slots: nat): (n: nat)
      ensures n >= 1
    {
      var share := ((45 * slots) % 0x1_0000_0000) / 100;
      if share > 1 then share else 1
    }

    function Slack(): nat {
      if epochSize / 16 > 1 then epochSize / 16 else 1
    }

    /** The counter leaves no room for more current elements than the bound. */
    ghost predicate Valid()
      reads this, flags.mem, table, epochFlags
    {
      Shape() && Placed() && counter >= 0 && CurrentCount() + counter <= epochSize + Slack()
    }

    /** setup for 2^depth slots; empty stands for the value of a default-constructed element. */
    constructor (depth: nat, empty: Element, hash: (nat, Element) -> nat)
      requires depth > 0
      ensures Valid() && Elements() == multiset{} && size == Pow2(depth) && depthLimit == depth
      ensures fresh(table) && fresh(epochFlags) && fresh(flags) && fresh(flags.mem)
    {
      hide EpochSize, Pow2;
      depthLimit := depth;
      size := Pow2(depth);
      this.hash := hash;
      table := new Element[Pow2(depth)](_ => empty);
      epochFlags := new bool[Pow2(depth)](_ => false);
      flags := new BitPackedFlags(Pow2(depth));
      epochSize := EpochSize(Pow2(depth));
      counter := EpochSize(Pow2(depth));
      new;
      AllGarbage(table[..], Garbage());
      NoneCurrent(epochFlags[..], Garbage());
    }

    /** The table ages before an insert: the counter ran out and the epoch is full. */
    ghost predicate Ages()
      requires Shape()
      reads this, flags.mem, epochFlags
    {
      counter == 0 && CurrentCount() >= epochSize
    }

    ghost function AgedFlags(): (g: seq<bool>)
      requires Shape()
      reads this, flags.mem, epochFlags
      ensures |g| == size
    {
      if Ages() then AgedGarbage(epochFlags[..], Garbage()) else Garbage()
    }

    /** The elements left for an insert. */
    ghost function AfterAgeing(): multiset<Element>
      requires Shape()
      reads this, flags.mem, epochFlags, table
    {
      Live(table[..], AgedFlags())
    }

    /** One of the places of e is garbage once the table has aged. */
    ghost predicate OpenFor(e: Element, garbage: seq<bool>)
      requires Shape() && |garbage| == size
    {
      exists k :: 0 <= k < 8 && garbage[Locs(e)[k]]
    }

    method AllowErase(n: nat)
      requires Shape() && n < size
      modifies flags.mem
      ensures Garbage() == old(Garbage())[n := true]
    {
      flags.BitSet(n);
    }

    method PleaseKeep(n: nat)
      requires Shape() && n < size
      modifies flags.mem
      ensures Garbage() == old(Garbage())[n := false]
    {
      flags.BitUnset(n);
    }

    method CountCurrent() returns (count: nat)
      requires Shape()
      ensures count == CurrentCount()
    {
      count := 0;
      for i := 0 to size
        invariant count == Current(epochFlags[..i], Garbage()[..i])
      {
        assert epochFlags[..i + 1][..i] == epochFlags[..i] && Garbage()[..i + 1][..i] == Garbage()[..i];
        var garbage := flags.BitIsSet(i);
        if epochFlags[i] && !garbage {
          count := count + 1;
        }
      }
      assert epochFlags[..size] == epochFlags[..] && Garbage()[..size] == Garbage();
    }

    /** The old epoch becomes garbage, the current one becomes the old one. */
    method Age()
      requires Shape()
      modifies flags.mem, epochFlags
      ensures Garbage() == AgedGarbage(old(epochFlags[..]), old(Garbage()))
      ensures forall i :: 0 <= i < size ==> !epochFlags[i]
    {
      for i := 0 to size
        invariant forall k :: i <= k < size ==> epochFlags[k] == old(epochFlags[k]) && Garbage()[k] == old(Garbage())[k]
        invariant forall k :: 0 <= k < i ==>
          !epochFlags[k] && Garbage()[k] == (old(Garbage())[k] || !old(epochFlags[k]))
      {
        if epochFlags[i] {
          epochFlags[i] := false;
        } else {
          AllowErase(i);
        }
      }
    }

    method EpochCheck()
      requires Valid()
      modifies this`counter, flags.mem, epochFlags
      ensures Placed() && counter >= 0 && CurrentCount() + 1 + counter <= epochSize + Slack()
      ensures Garbage() == old(AgedFlags())
    {
      if counter != 0 {
        counter := counter - 1;
        return;
      }
      var unused := CountCurrent();
      if unused >= epochSize {
        Age();
        NoneCurrent(epochFlags[..], Garbage());
        counter := epochSize;
      } else {
        var need := if epochSize / 16 > epochSize - unused then epochSize / 16 else epochSize - unused;
        counter := if need > 1 then need else 1;
      }
    }

    /** A slot gets an element, is kept, and gets an epoch. */
    method Put(loc: nat, e: Element, epoch: bool)
      requires Shape() && Placed() && loc < size && loc in Locs(e)
      modifies table, flags.mem, epochFlags
      ensures Placed() && table[..] == old(table[..])[loc := e] && Garbage() == old(Garbage())[loc := false]
      ensures epochFlags[..] == old(epochFlags[..])[loc := epoch]
      ensures Elements() + Slot(old(table[loc]), old(Garbage())[loc]) == old(Elements()) + multiset{e}
      ensures CurrentCount() + One(old(epochFlags[loc]) && !old(Garbage())[loc]) == old(CurrentCount()) + One(epoch)
    {
      hide Live, Current, Locs;
      LiveChange(table[..], Garbage(), loc, e, false);
      CurrentChange(epochFlags[..], Garbage(), loc, epoch, false);
      table[loc] := e;
      PleaseKeep(loc);
      epochFlags[loc] := epoch;
      assert table[..] == old(table[..])[loc := e];
      assert epochFlags[..] == old(epochFlags[..])[loc := epoch];
    }

    /** An element that is already there is kept and joins the current epoch. */
    method Renew(loc: nat, e: Element) returns (ghost dropped: multiset<Element>)
      requires Shape() && Placed() && loc < size && loc in Locs(e) && table[loc] == e
      modifies table, flags.mem, epochFlags
      ensures Placed() && HoldsCurrent(e) && e in Elements()
      ensures dropped <= multiset{e} && |dropped| <= 1 && Elements() + dropped == old(Elements()) + multiset{e}
      ensures CurrentCount() <= old(CurrentCount()) + 1
    {
      hide Live, Current, Locs, Held;
      dropped := Slot(e, Garbage()[loc]);
      Put(loc, e, true);
      HeldAt(table[..], Garbage(), epochFlags[..], loc);
      LiveSomewhere(table[..], Garbage(), e);
    }

    /** x takes a place that is garbage; e, if it is x or was there, is there in the current epoch. */
    method PutOpen(loc: nat, x: Element, epoch: bool, ghost e: Element)
      requires Shape() && Placed() && loc < size && loc in Locs(x) && Garbage()[loc]
      requires HoldsCurrent(e) || (x == e && epoch)
      modifies table, flags.mem, epochFlags
      ensures Placed() && HoldsCurrent(e) && table[..] == old(table[..])[loc := x]
      ensures Elements() == old(Elements()) + multiset{x} && CurrentCount() == old(CurrentCount()) + One(epoch)
    {
      hide Live, Current, Locs, Held;
      HeldStep(table[..], Garbage(), epochFlags[..], loc, x, epoch, e);
      Put(loc, x, epoch);
    }

    /** x takes the place of another element, which comes out with its epoch. */
    method Swap(loc: nat, x: Element, epoch: bool, ghost e: Element) returns (evicted: Element, lastEpoch: bool)
      requires Shape() && Placed() && loc < size && loc in Locs(x) && !Garbage()[loc]
      requires HoldsCurrent(e) || (x == e && epoch)
      modifies table, flags.mem, epochFlags
      ensures Placed() && Garbage() == old(Garbage()) && evicted == old(table[loc])
      ensures table[..] == old(table[..])[loc := x] && (HoldsCurrent(e) || (evicted == e && lastEpoch))
      ensures Elements() + multiset{evicted} == old(Elements()) + multiset{x}
      ensures CurrentCount() + One(lastEpoch) == old(CurrentCount()) + One(epoch)
    {
      hide Live, Current, Locs, Held;
      evicted, lastEpoch := table[loc], epochFlags[loc];
      HeldStep(table[..], Garbage(), epochFlags[..], loc, x, epoch, e);
      assert Garbage()[loc := false] == Garbage();
      Put(loc, x, epoch);
    }

    /** The first of the places that is garbage, or none. */
    method FindOpen(locs: seq<nat>) returns (k: nat)
      requires Shape() && |locs| == 8 && forall i :: 0 <= i < 8 ==> locs[i] < size
      ensures k <= 8 && (forall i :: 0 <= i < k ==> !Garbage()[locs[i]]) && (k < 8 ==> Garbage()[locs[k]])
    {
      k := 0;
      while k < 8
        invariant 0 <= k <= 8 && forall i :: 0 <= i < k ==> !Garbage()[locs[i]]
      {
        var open := flags.BitIsSet(locs[k]);
        if open {
          return;
        }
        k := k + 1;
      }
    }

    /** The place after the last one looked at, cyclically; the second one if that is not a place. */
    function NextLoc(locs: seq<nat>, last: int): (next: nat)
      requires |locs| == 8
      ensures next in locs
    {
      locs[(1 + Find(locs, last, 0)) % 8]
    }

    /** The first eviction takes the second place, not the first as the comment in the source says. */
    lemma FirstEviction(locs: seq<nat>)
      requires |locs| == 8
      ensures NextLoc(locs, -1) == locs[1]
    {
      NotFound(locs, 0);
    }

    /** A place and the next one, around the end, are the same, and no earlier place is it. */
    predicate Repeated(locs: seq<nat>, last: nat)
      requires |locs| == 8
    {
      exists k :: 0 <= k < 8 && locs[k] == last && locs[(k + 1) % 8] == last && last !in locs[..k]
    }

    /**
      The element just put in at `last` is moved again at once if and only if the first of the evicted
      element's places that is `last` is followed by the same place.
     */
    lemma MovedAgain(locs: seq<nat>, last: nat)
      requires |locs| == 8 && last in locs
      ensures NextLoc(locs, last) == last <==> Repeated(locs, last)
    {
      var k := Find(locs, last, 0);
      FirstFound(locs, last, 0);
      assert last !in locs[..k];
      forall j | 0 <= j < 8 && locs[j] == last && last !in locs[..j] ensures j == k { OneFirst(locs, last, j, k); }
    }

    /** So it is never moved when the places are all different. */
    lemma NotMovedAgain(locs: seq<nat>, last: nat)
      requires |locs| == 8 && last in locs && forall i, j :: 0 <= i < j < 8 ==> locs[i] != locs[j]
      ensures NextLoc(locs, last) != last
    {
      MovedAgain(locs, last);
    }

    /** But it is where the first two places are the same one. */
    lemma MovedAtOnce(a: nat, others: seq<nat>)
      requires |others| == 6
      ensures NextLoc([a, a] + others, a) == a
    {
      var locs := [a, a] + others;
      assert locs[0] == a && locs[1] == a && a !in locs[..0];
      MovedAgain(locs, a);
    }

    lemma OneFirst(locs: seq<nat>, last: nat, j: nat, k: nat)
      requires j < |locs| && k < |locs| && locs[j] == last && locs[k] == last && last !in locs[..j]
        && last !in locs[..k]
      ensures j == k
    {
      var m := Min(j, k);
      assert forall n :: m < n < |locs| ==> locs[..n][m] == last;
    }

    lemma {:induction false} FirstFound(locs: seq<nat>, last: nat, k: nat)
      requires k <= |locs| && last in locs && last !in locs[..k]
      ensures var r := Find(locs, last, k); r < |locs| && locs[r] == last && last !in locs[..r]
      decreases |locs| - k
    {
      assert locs[..|locs|] == locs;
      if locs[k] != last {
        assert locs[..k + 1] == locs[..k] + [locs[k]];
        FirstFound(locs, last, k + 1);
      }
    }

    lemma {:induction false} NotFound(locs: seq<nat>, k: nat)
      requires k <= |locs|
      ensures Find(locs, -1, k) == |locs|
      decreases |locs| - k
    {
      if k < |locs| { NotFound(locs, k + 1); }
    }

    function Find(locs: seq<nat>, last: int, k: nat): (r: nat)
      requires k <= |locs|
      ensures k <= r <= |locs|
      decreases |locs| - k
    {
      if k == |locs| || locs[k] == last then k else Find(locs, last, k + 1)
    }

    /** Where the displacement ends: the table, the element in hand and whether it found an open place. */
    ghost function Displaced(t: seq<Element>, g: seq<bool>, x: Element, last: int, n: nat): Walk<Element>
      requires Shape() && |t| == |g| == size
      decreases n
    {
      if n == 0 then Walk(t, x, 0, false)
      else if OpenFor(x, g) then Walk(t[FirstOpen(Locs(x), g) := x], x, 0, true)
      else
        var loc := NextLoc(Locs(x), last);
        var w := Displaced(t[loc := x], g, t[loc], loc, n - 1);
        w.(moves := w.moves + 1)
    }

    ghost function FirstOpen(locs: seq<nat>, g: seq<bool>): (loc: nat)
      requires (forall k :: 0 <= k < |locs| ==> locs[k] < |g|) && exists k :: 0 <= k < |locs| && g[locs[k]]
      ensures loc in locs && loc < |g| && g[loc]
    {
      if g[locs[0]] then locs[0]
      else
        var k :| 0 <= k < |locs| && g[locs[k]];
        assert locs[1..][k - 1] == locs[k];
        FirstOpen(locs[1..], g)
    }

    /** One round, for whatever it was that has come to this point. */
    lemma Unrolled(t: seq<Element>, g: seq<bool>, x: Element, last: int, n: nat, v: Walk<Element>)
      requires Shape() && |t| == |g| == size && n > 0 && SameEnd(v, Displaced(t, g, x, last, n))
      ensures OpenFor(x, g) ==> v.placed && v.table == t[FirstOpen(Locs(x), g) := x]
      ensures !OpenFor(x, g) ==>
        var loc := NextLoc(Locs(x), last); SameEnd(v, Displaced(t[loc := x], g, t[loc], loc, n - 1))
    {
    }

    lemma NoneLeft(t: seq<Element>, g: seq<bool>, x: Element, last: int, v: Walk<Element>)
      requires Shape() && |t| == |g| == size && SameEnd(v, Displaced(t, g, x, last, 0))
      ensures !v.placed && v.table == t && v.carried == x
    {
    }

    lemma FromTheStart(t: seq<Element>, g: seq<bool>, x: Element, n: nat)
      requires Shape() && |t| == |g| == size
      ensures var w := Displaced(t, g, x, -1, n); SameEnd(w, w)
    {
    }

    /**
      An element is given up only after n evictions, none of which led to an element with an open place
      before; otherwise the last one stands at an open place of its own, and all others are in the table.
     */
    lemma {:induction false} DisplacedEnds(t: seq<Element>, g: seq<bool>, x: Element, last: int, n: nat)
      requires Shape() && |t| == |g| == size
      ensures var w := Displaced(t, g, x, last, n);
        && |w.table| == size && w.moves <= n && (!w.placed <==> w.moves == n)
        && (w.placed ==> OpenFor(w.carried, g) && w.carried in w.table)
        && (!w.placed ==> multiset(w.table) + multiset{w.carried} == multiset(t) + multiset{x})
        && (w.moves > 0 ==> !OpenFor(x, g))
      decreases n
    {
      if n > 0 && !OpenFor(x, g) {
        var loc := NextLoc(Locs(x), last);
        DisplacedEnds(t[loc := x], g, t[loc], loc, n - 1);
        SwapIn(t, loc, x);
      } else if n > 0 {
        var loc := FirstOpen(Locs(x), g);
        assert t[loc := x][loc] == x;
      }
    }

    lemma SwapIn(t: seq<Element>, loc: nat, x: Element)
      requires loc < |t|
      ensures multiset(t[loc := x]) + multiset{t[loc]} == multiset(t) + multiset{x}
    {
    }

    /** Some place of e holds it in the current epoch, so that it outlives the next ageing. */
    ghost predicate HoldsCurrent(e: Element)
      requires Shape()
      reads flags.mem, table, epochFlags
    {
      Held(table[..], Garbage(), epochFlags[..], e)
    }

    /**
      The elements after an insert are those before (after ageing) and the new one, except for
      at most one of them.
     */
    method Insert(e: Element) returns (ghost dropped: multiset<Element>)
      requires Valid()
      modifies this`counter, table, flags.mem, epochFlags
      ensures Valid()
      ensures |dropped| <= 1 && Elements() + dropped == old(AfterAgeing()) + multiset{e}
      ensures old(OpenFor(e, AgedFlags())) ==> e in Elements() && dropped <= multiset{e}
      ensures HoldsCurrent(e) || dropped == multiset{e}
      ensures old(forall k :: 0 <= k < 8 ==> table[Locs(e)[k]] != e) ==>
        var w := Displaced(old(table[..]), old(AgedFlags()), e, -1, depthLimit);
        table[..] == w.table && dropped == if w.placed then multiset{} else multiset{w.carried}
    {
      hide Live, Current, Locs, Held, Displaced;
      EpochCheck();
      ghost var total, count := Elements() + multiset{e}, CurrentCount();
      var locs := Locs(e);
      for k := 0 to 8
      {
        assert table[Locs(e)[k]] == table[locs[k]];
        if table[locs[k]] == e {
          dropped := Renew(locs[k], e);
          return;
        }
      }
      dropped := Displace(e);
      assert e in Elements() + dropped;
    }

    /** The displacement loop: each round finds an open place or evicts the element of one place. */
    method Displace(e: Element) returns (ghost dropped: multiset<Element>)
      requires Shape() && Placed()
      modifies table, flags.mem, epochFlags
      ensures Placed()
      ensures |dropped| <= 1 && Elements() + dropped == old(Elements()) + multiset{e}
      ensures old(OpenFor(e, Garbage())) ==> dropped == multiset{}
      ensures CurrentCount() <= old(CurrentCount()) + 1
      ensures HoldsCurrent(e) || dropped == multiset{e}
      ensures var w := Displaced(old(table[..]), old(Garbage()), e, -1, depthLimit);
        table[..] == w.table && dropped == if w.placed then multiset{} else multiset{w.carried}
    {
      hide Live, Current, Locs, Held, NextLoc, FirstOpen, Displaced, SameEnd;
      ghost var total, count := Elements() + multiset{e}, CurrentCount() + 1;
      var x, lastEpoch := e, true;
      var lastLoc: int := -1;
      var locs := Locs(x);
      FromTheStart(table[..], Garbage(), e, depthLimit);
      for depth := 0 to depthLimit
        invariant locs == Locs(x) && Placed()
        invariant depth > 0 ==> !old(OpenFor(e, Garbage()))
        invariant depth == 0 ==> x == e && Garbage() == old(Garbage())
        invariant Elements() + multiset{x} == total && CurrentCount() + One(lastEpoch) == count
        invariant Garbage() == old(Garbage()) && (HoldsCurrent(e) || (x == e && lastEpoch))
        invariant SameEnd(Displaced(old(table[..]), old(Garbage()), e, -1, depthLimit),
                          Displaced(table[..], old(Garbage()), x, lastLoc, depthLimit - depth))
      {
        var k := FindOpen(locs);
        Unrolled(table[..], Garbage(), x, lastLoc, depthLimit - depth,
                 Displaced(old(table[..]), old(Garbage()), e, -1, depthLimit));
        if k < 8 {
          FirstOpenIs(locs, Garbage(), k);
          PutOpen(locs[k], x, lastEpoch, e);
          dropped := multiset{};
          return;
        }
        var loc := NextLoc(locs, lastLoc);
        x, lastEpoch := Swap(loc, x, lastEpoch, e);
        lastLoc := loc;
        locs := Locs(x);
      }
      NoneLeft(table[..], Garbage(), x, lastLoc, Displaced(old(table[..]), old(Garbage()), e, -1, depthLimit));
      dropped := multiset{x};
    }

    lemma {:induction false} FirstOpenIs(locs: seq<nat>, g: seq<bool>, k: nat)
      requires k < |locs| && (forall i :: 0 <= i < |locs| ==> locs[i] < |g|)
      requires g[locs[k]] && forall i :: 0 <= i < k ==> !g[locs[i]]
      ensures FirstOpen(locs, g) == locs[k]
    {
      if k > 0 {
        assert locs[1..][k - 1] == locs[k];
        FirstOpenIs(locs[1..], g, k - 1);
      }
    }

    method Erase(loc: nat)
      requires Valid() && loc < size
      modifies flags.mem
      ensures Valid() && Elements() <= old(Elements()) <= Elements() + multiset{table[loc]}
    {
      hide Live, Current, Locs;
      LiveChange(table[..], Garbage(), loc, table[loc], true);
      CurrentChange(epochFlags[..], Garbage(), loc, epochFlags[loc], true);
      assert table[..][loc := table[loc]] == table[..];
      assert epochFlags[..][loc := epochFlags[loc]] == epochFlags[..];
      Shrunk(Live(table[..], Garbage()[loc := true]), Elements(), table[loc], Garbage()[loc]);
      AllowErase(loc);
    }

    /** True exactly when the element stands at one of its places, garbage or not. */
    method Contains(e: Element, erase: bool) returns (found: bool)
      requires Valid()
      modifies flags.mem
      ensures Valid() && found == exists k :: 0 <= k < 8 && table[Locs(e)[k]] == e
      ensures old(e in Elements()) ==> found
      ensures Elements() <= old(Elements()) <= Elements() + multiset{e}
      ensures !erase || !found ==> Elements() == old(Elements())
    {
      hide Live, Current, Locs;
      var locs := Locs(e);
      LiveFound(e);
      for k := 0 to 8
        invariant forall i :: 0 <= i < k ==> table[locs[i]] != e
      {
        if table[locs[k]] == e {
          if erase {
            Erase(locs[k]);
          }
          return true;
        }
      }
      return false;
    }

    lemma LiveFound(e: Element)
      requires Shape() && Placed()
      ensures e in Elements() ==> exists k :: 0 <= k < 8 && table[Locs(e)[k]] == e
    {
      LiveSomewhere(table[..], Garbage(), e);
      if e in Elements() {
        var i :| 0 <= i < size && !Garbage()[i] && table[i] == e;
        assert i in Locs(e);
      }
    }
  }

  lemma Shrunk<E>(a: multiset<E>, b: multiset<E>, x: E, garbage: bool)
    requires a + Slot(x, garbage) == b + Slot(x, true)
    ensures a <= b <= a + multiset{x}
  {
    assert b + Slot(x, true) == b;
  }
}
