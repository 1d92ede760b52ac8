/**
  CRollingBloomFilter (src/bloom.cpp): two 64-bit words per 64 cells hold, for each cell, the
  number 1, 2 or 3 of the generation that last set it, or 0.  The history of inserts since the
  last reset says what every cell holds, so contains() is characterised exactly.
 */
module RollingBloom {
  import L = Limbs

  type Key = seq<bv8>

  datatype Cell = Cell(pair: nat, bit: bv6)

  // ------------------------------------------------------------ words and bits

  function Bit(x: bv64, b: bv6): bool {
    (x >> b) & 1 == 1
  }

  function And(x: bv64, y: bv64): bv64 { x & y }
  function Or(x: bv64, y: bv64): bv64 { x | y }
  function Xor(x: bv64, y: bv64): bv64 { x ^ y }
  function Not(x: bv64): bv64 { !x }
  function At(v: bool, bit: bv6): bv64 { (if v then 1 else 0 as bv64) << bit }

  /** `-(uint64_t)v` for v one or zero. */
  function Mask(v: bool): bv64 {
    if v then 0xFFFF_FFFF_FFFF_FFFF else 0
  }

  lemma BitAnd(x: bv64, y: bv64, b: bv6)
    ensures Bit(And(x, y), b) == (Bit(x, b) && Bit(y, b))
  {
  }

  lemma BitOr(x: bv64, y: bv64, b: bv6)
    ensures Bit(Or(x, y), b) == (Bit(x, b) || Bit(y, b))
  {
    hide Bit, And, Or, Not;
    DeMorgan(x, y);
    BitNot(x, b);
    BitNot(y, b);
    BitAnd(Not(x), Not(y), b);
    BitNot(And(Not(x), Not(y)), b);
  }

  lemma DeMorgan(x: bv64, y: bv64)
    ensures Or(x, y) == Not(And(Not(x), Not(y)))
  {
  }

  lemma BitNot(x: bv64, b: bv6)
    ensures Bit(Not(x), b) == !Bit(x, b)
  {
  }

  lemma BitMask(x: bv64, v: bool, b: bv6)
    ensures Bit(Xor(x, Mask(v)), b) == (Bit(x, b) != v)
  {
  }

  lemma BitAt(v: bool, bit: bv6, b: bv6)
    ensures Bit(At(v, bit), b) == (v && b == bit)
  {
  }

  /** `(x & ~(1 << bit)) | (v << bit)` */
  function WithBit(x: bv64, bit: bv6, v: bool): bv64 {
    Or(And(x, Not(At(true, bit))), At(v, bit))
  }

  lemma WithBitIs(x: bv64, bit: bv6, v: bool, b: bv6)
    ensures Bit(WithBit(x, bit, v), b) == if b == bit then v else Bit(x, b)
  {
    hide Bit, And, Or, Not, At;
    BitAt(true, bit, b);
    BitAt(v, bit, b);
    BitNot(At(true, bit), b);
    BitAnd(x, Not(At(true, bit)), b);
    BitOr(And(x, Not(At(true, bit))), At(v, bit), b);
  }

  function WipeMask(p1: bv64, p2: bv64, g1: bool, g2: bool): bv64 {
    Or(Xor(p1, Mask(g1)), Xor(p2, Mask(g2)))
  }

  function Wiped(p1: bv64, p2: bv64, g1: bool, g2: bool): (bv64, bv64) {
    (And(p1, WipeMask(p1, p2, g1, g2)), And(p2, WipeMask(p1, p2, g1, g2)))
  }

  /** The wipe clears a cell exactly when it holds the given generation. */
  lemma WipeIs(p1: bv64, p2: bv64, g1: bool, g2: bool, b: bv6)
    ensures var same := Bit(p1, b) == g1 && Bit(p2, b) == g2; var w := Wiped(p1, p2, g1, g2);
      Bit(w.0, b) == (Bit(p1, b) && !same) && Bit(w.1, b) == (Bit(p2, b) && !same)
  {
    hide Bit, Mask, And, Or, Xor;
    BitMask(p1, g1, b);
    BitMask(p2, g2, b);
    BitOr(Xor(p1, Mask(g1)), Xor(p2, Mask(g2)), b);
    BitAnd(p1, WipeMask(p1, p2, g1, g2), b);
    BitAnd(p2, WipeMask(p1, p2, g1, g2), b);
  }

  // ----------------------------------------------------------------- the window

  /** Insert i of count lies in one of the three generations that the filter keeps. */
  predicate Recent(i: int, count: int, perGeneration: nat) {
    0 <= i < count && (perGeneration == 0 || i / perGeneration + 2 >= (count - 1) / perGeneration)
  }

  /** At least the last 2 * nEntriesPerGeneration + 1 inserts, fewer than 3 generations of them. */
  lemma Window(i: int, count: int, perGeneration: nat)
    requires 0 <= i < count
    ensures count - 1 - i <= 2 * perGeneration ==> Recent(i, count, perGeneration)
    ensures Recent(i, count, perGeneration) && perGeneration > 0 ==> count - 1 - i < 3 * perGeneration
  {
    if perGeneration > 0 {
      Far(i, count - 1, 2, perGeneration);
      Far(i, count - 1, 3, perGeneration);
    }
  }

  lemma Far(i: nat, j: nat, k: nat, n: nat)
    requires n > 0
    ensures j <= i + k * n ==> j / n <= i / n + k
    ensures j >= i + k * n ==> j / n >= i / n + k
  {
    QuotientShift(i, k, n);
    QuotientMono(j, i + k * n, n);
    QuotientMono(i + k * n, j, n);
  }

  lemma QuotientShift(x: nat, k: nat, n: nat)
    requires n > 0
    ensures (x + k * n) / n == x / n + k
  {
    assert (x / n + k) * n == (x / n) * n + k * n;
    L.ModUnique(x % n, x / n + k, n, x + k * n);
  }

  lemma QuotientMono(x: nat, y: nat, n: nat)
    requires n > 0
    ensures x <= y ==> x / n <= y / n
  {
    L.MulMono(y / n + 1, x / n, n);
  }

  /** Hence every one of the last nElements keys of a filter constructed for nElements. */
  lemma LastElements(i: int, count: int, nElements: nat)
    requires 0 <= i < count && count - i <= nElements
    ensures Recent(i, count, (nElements + 1) / 2)
  {
    Window(i, count, (nElements + 1) / 2);
  }

  /** The generation, counted from the reset without wrapping, of insert i. */
  function GenerationOf(i: int, perGeneration: nat): int {
    if perGeneration == 0 then 1 else i / perGeneration
  }

  // ---------------------------------------------------------------- the filter

  /** The number that a bit of two words makes. */
  function Pair(p1: bv64, p2: bv64, b: bv6): int {
    (if Bit(p1, b) then 1 else 0) + (if Bit(p2, b) then 2 else 0)
  }

  lemma PairSet(p1: bv64, p2: bv64, bit: bv6, g: int, b: bv6)
    requires 1 <= g <= 3
    ensures Pair(WithBit(p1, bit, g % 2 == 1), WithBit(p2, bit, g / 2 == 1), b)
      == if b == bit then g else Pair(p1, p2, b)
  {
    hide Bit, WithBit;
    WithBitIs(p1, bit, g % 2 == 1, b);
    WithBitIs(p2, bit, g / 2 == 1, b);
  }

  lemma PairWiped(p1: bv64, p2: bv64, g: int, b: bv6)
    requires 1 <= g <= 3
    ensures Pair(Wiped(p1, p2, g % 2 == 1, g / 2 == 1).0, Wiped(p1, p2, g % 2 == 1, g / 2 == 1).1, b)
      == if Pair(p1, p2, b) == g then 0 else Pair(p1, p2, b)
  {
    hide Bit, Wiped;
    WipeIs(p1, p2, g % 2 == 1, g / 2 == 1, b);
  }

  /** The generation number stored in a cell. */
  function Level(data: seq<bv64>, c: Cell): int
    requires 2 * c.pair + 1 < |data|
  {
    Pair(data[2 * c.pair], data[2 * c.pair + 1], c.bit)
  }

  lemma Wrapped(t: int, now: int)
    requires now - 2 <= t <= now
    ensures t % 3 + 1 == (now + 1) % 3 + 1 <==> t == now - 2
  {
  }

  /** What a cell holds when it was last set in generation stamp[c] and now is the current one. */
  function Expected(stamp: map<Cell, int>, now: int, c: Cell): int {
    if c in stamp && stamp[c] >= now - 2 then stamp[c] % 3 + 1 else 0
  }

  ghost predicate Levels(data: seq<bv64>, stamp: map<Cell, int>, now: int) {
    && (forall c: Cell :: 2 * c.pair + 1 < |data| ==> Level(data, c) == Expected(stamp, now, c))
    && (forall c :: c in stamp ==> 0 <= stamp[c] <= now)
  }

  /** One cell set to the current generation. */
  lemma SetCell(data: seq<bv64>, data': seq<bv64>, stamp: map<Cell, int>, now: int, c: Cell)
    requires Levels(data, stamp, now) && 2 * c.pair + 1 < |data| == |data'| && now >= 0
    requires var g := now % 3 + 1;
      data' == data[2 * c.pair := WithBit(data[2 * c.pair], c.bit, g % 2 == 1)]
                   [2 * c.pair + 1 := WithBit(data[2 * c.pair + 1], c.bit, g / 2 == 1)]
    ensures Levels(data', stamp[c := now], now)
  {
    hide Pair, WithBit;
    forall d: Cell | 2 * d.pair + 1 < |data'| ensures Level(data', d) == Expected(stamp[c := now], now, d) {
      PairSet(data[2 * c.pair], data[2 * c.pair + 1], c.bit, now % 3 + 1, d.bit);
      assert Level(data, d) == Expected(stamp, now, d);
    }
  }

  function Wipe(p1: bv64, p2: bv64, g: int): (bv64, bv64) {
    Wiped(p1, p2, g % 2 == 1, g / 2 == 1)
  }

  /** The next generation number is free once the cells that still hold it are cleared. */
  lemma NextGeneration(data: seq<bv64>, data': seq<bv64>, stamp: map<Cell, int>, now: int)
    requires Levels(data, stamp, now) && |data| == |data'| && now >= 0
    requires forall w :: 0 <= w && 2 * w + 1 < |data| ==>
      (data'[2 * w], data'[2 * w + 1]) == Wipe(data[2 * w], data[2 * w + 1], (now + 1) % 3 + 1)
    ensures Levels(data', stamp, now + 1)
  {
    hide Pair, Wiped;
    var g := (now + 1) % 3 + 1;
    forall c: Cell | 2 * c.pair + 1 < |data'| ensures Level(data', c) == Expected(stamp, now + 1, c) {
      var w := c.pair;
      PairWiped(data[2 * w], data[2 * w + 1], g, c.bit);
      if c in stamp && stamp[c] >= now - 2 { Wrapped(stamp[c], now); }
      assert (data'[2 * w], data'[2 * w + 1]) == Wipe(data[2 * w], data[2 * w + 1], g);
      assert Level(data, c) == Expected(stamp, now, c);
    }
  }

  class RollingBloomFilter {
    const nEntriesPerGeneration: nat
    const nHashFuncs: nat
    const hash: (nat, nat, Key) -> nat
    var nEntriesThisGeneration: int
    var nGeneration: int
    var nTweak: nat
    const data: array<bv64>

    /** The keys inserted since the last reset, oldest first. */
    ghost var log: seq<Key>
    /** The unwrapped generation that last set each cell, and the current one. */
    ghost var stamp: map<Cell, int>
    ghost var now: int

    /** The cell of hash function n for a key. */
    function CellOf(tweak: nat, n: nat, key: Key): (c: Cell)
      requires data.Length > 0 && data.Length % 2 == 0
      ensures 2 * c.pair + 1 < data.Length
      ensures var h := hash(n, tweak, key);
        c.bit as nat == h % 64 && 2 * c.pair <= h / 64 % data.Length <= 2 * c.pair + 1
    {
      var h := hash(n, tweak, key);
      var pos := (h / 64) % data.Length;
      Cell(pos / 2, (h % 64) as bv6)
    }

    predicate Shape() {
      data.Length > 0 && data.Length % 2 == 0
    }

    /** One of the first n hash functions maps key to c. */
    ghost predicate HitBy(tweak: nat, key: Key, n: nat, c: Cell)
      requires Shape()
    {
      exists k :: 0 <= k < n && CellOf(tweak, k, key) == c
    }

    /** The stamps that inserting these keys leaves. */
    ghost predicate Stamps(st: map<Cell, int>, keys: seq<Key>, tweak: nat)
      requires Shape()
    {
      && (forall i, n :: 0 <= i < |keys| && 0 <= n < nHashFuncs ==>
            var c := CellOf(tweak, n, keys[i]); c in st && st[c] >= GenerationOf(i, nEntriesPerGeneration))
      && (forall c :: c in st ==> exists i :: 0 <= i < |keys| && StampedBy(st, keys, tweak, c, i))
    }

    ghost predicate StampedBy(st: map<Cell, int>, keys: seq<Key>, tweak: nat, c: Cell, i: int)
      requires Shape() && 0 <= i < |keys| && c in st
    {
      st[c] == GenerationOf(i, nEntriesPerGeneration) && HitBy(tweak, keys[i], nHashFuncs, c)
    }

    /** The counters are what the number of inserts says. */
    ghost predicate Counters()
      reads this
    {
      && nGeneration == now % 3 + 1
      && if |log| == 0 then now == 0 && nEntriesThisGeneration == 0
         else if nEntriesPerGeneration == 0 then now == 1 && nEntriesThisGeneration == |log|
         else && now == (|log| - 1) / nEntriesPerGeneration
              && nEntriesThisGeneration == |log| - now * nEntriesPerGeneration
    }

    ghost predicate Valid()
      reads this, data
    {
      && Shape() && Counters() && now >= 0 && Levels(data[..], stamp, now) && Stamps(stamp, log, nTweak)
    }

    constructor (nElements: nat, hashFuncs: nat, pairs: nat, hash: (nat, nat, Key) -> nat, tweak: nat)
      requires pairs > 0
      ensures Valid() && log == [] && nEntriesPerGeneration == (nElements + 1) / 2 && fresh(data)
    {
      nEntriesPerGeneration := (nElements + 1) / 2;
      nHashFuncs := hashFuncs;
      this.hash := hash;
      data := new bv64[2 * pairs](_ => 0);
      new;
      Reset(tweak);
    }

    method Reset(tweak: nat)
      requires Shape()
      modifies this, data
      ensures Valid() && log == []
    {
      nTweak := tweak;
      nEntriesThisGeneration := 0;
      nGeneration := 1;
      log, stamp, now := [], map[], 0;
      for i := 0 to data.Length
        modifies data
        invariant forall k :: 0 <= k < i ==> data[k] == 0
      {
        data[i] := 0;
      }
      Cleared(data[..]);
    }

    /** The next generation takes over the oldest one's number. */
    method StartGeneration()
      requires Shape() && nGeneration == now % 3 + 1 && now >= 0 && Levels(data[..], stamp, now)
      modifies this`nEntriesThisGeneration, this`nGeneration, this`now, data
      ensures nEntriesThisGeneration == 0 && now == old(now) + 1
      ensures nGeneration == now % 3 + 1 && Levels(data[..], stamp, now)
    {
      hide Levels, Wipe;
      ghost var before := data[..];
      nEntriesThisGeneration := 0;
      nGeneration := nGeneration + 1;
      if nGeneration == 4 {
        nGeneration := 1;
      }
      WipeAll(nGeneration);
      now := now + 1;
      NextGeneration(before, data[..], stamp, now - 1);
    }

    /** Clears the old entries that used generation number g. */
    method WipeAll(g: int)
      requires Shape()
      modifies data
      ensures forall w :: 0 <= w && 2 * w + 1 < data.Length ==>
        (data[2 * w], data[2 * w + 1]) == Wipe(old(data[2 * w]), old(data[2 * w + 1]), g)
    {
      hide And, WipeMask, Wipe;
      for w := 0 to data.Length / 2
        invariant forall k :: 2 * w <= k < data.Length ==> data[k] == old(data[k])
        invariant forall k :: 0 <= k < w ==>
          (data[2 * k], data[2 * k + 1]) == Wipe(old(data[2 * k]), old(data[2 * k + 1]), g)
      {
        var p1, p2 := data[2 * w], data[2 * w + 1];
        var mask := WipeMask(p1, p2, g % 2 == 1, g / 2 == 1);
        WipeUnfold(p1, p2, g);
        data[2 * w] := And(p1, mask);
        data[2 * w + 1] := And(p2, mask);
      }
    }

    /** The cells of a key get the current generation number. */
    method SetCells(key: Key)
      requires Shape() && nGeneration == now % 3 + 1 && now >= 0 && Levels(data[..], stamp, now)
      modifies this`stamp, data
      ensures Levels(data[..], stamp, now)
      ensures forall c :: c in stamp <==> c in old(stamp) || HitBy(nTweak, key, nHashFuncs, c)
      ensures forall c :: c in stamp ==> stamp[c] == if HitBy(nTweak, key, nHashFuncs, c) then now else old(stamp)[c]
    {
      hide Levels, WithBit;
      for n := 0 to nHashFuncs
        invariant Levels(data[..], stamp, now)
        invariant forall c :: c in stamp <==> c in old(stamp) || HitBy(nTweak, key, n, c)
        invariant forall c :: c in stamp ==> stamp[c] == if HitBy(nTweak, key, n, c) then now else old(stamp)[c]
      {
        ghost var before := data[..];
        var c := CellOf(nTweak, n, key);
        data[2 * c.pair] := WithBit(data[2 * c.pair], c.bit, nGeneration % 2 == 1);
        data[2 * c.pair + 1] := WithBit(data[2 * c.pair + 1], c.bit, nGeneration / 2 == 1);
        SetCell(before, data[..], stamp, now, c);
        stamp := stamp[c := now];
      }
    }

    method Insert(key: Key)
      requires Valid()
      modifies this, data
      ensures Valid() && log == old(log) + [key]
    {
      hide Levels, CellOf, Stamps;
      ghost var was := stamp;
      NextCount(|log|, nEntriesPerGeneration, now, nEntriesThisGeneration);
      if nEntriesThisGeneration == nEntriesPerGeneration {
        StartGeneration();
      }
      nEntriesThisGeneration := nEntriesThisGeneration + 1;
      StampsBounded(data[..], stamp, now);
      SetCells(key);
      log := log + [key];
      StampsKept(was, stamp, old(log), key, nTweak, now);
    }

    lemma StampsKept(was: map<Cell, int>, st: map<Cell, int>, keys: seq<Key>, key: Key, tweak: nat, g: int)
      requires Shape() && g == GenerationOf(|keys|, nEntriesPerGeneration)
      requires Stamps(was, keys, tweak) && forall c :: c in was ==> was[c] <= g
      requires forall c :: c in st <==> c in was || HitBy(tweak, key, nHashFuncs, c)
      requires forall c :: c in st ==> st[c] == if HitBy(tweak, key, nHashFuncs, c) then g else was[c]
      ensures Stamps(st, keys + [key], tweak)
    {
      hide CellOf, GenerationOf;
      var keys' := keys + [key];
      forall i, n | 0 <= i < |keys'| && 0 <= n < nHashFuncs
        ensures var c := CellOf(tweak, n, keys'[i]); c in st && st[c] >= GenerationOf(i, nEntriesPerGeneration)
      {
        var c := CellOf(tweak, n, keys'[i]);
        if i < |keys| {
          assert c == CellOf(tweak, n, keys[i]);
        } else {
          assert HitBy(tweak, key, nHashFuncs, c);
        }
      }
      forall c | c in st ensures exists i :: 0 <= i < |keys'| && StampedBy(st, keys', tweak, c, i) {
        if HitBy(tweak, key, nHashFuncs, c) {
          assert StampedBy(st, keys', tweak, c, |keys|);
        } else {
          var i :| 0 <= i < |keys| && StampedBy(was, keys, tweak, c, i);
          assert StampedBy(st, keys', tweak, c, i);
        }
      }
    }

    /**
      True exactly when every cell of the key was set by one of the inserts that the filter
      still keeps; in particular for every key among those.
     */
    method Contains(key: Key) returns (r: bool)
      requires Valid()
      ensures r <==> forall n :: 0 <= n < nHashFuncs ==> SetRecently(CellOf(nTweak, n, key))
      ensures (exists i :: Recent(i, |log|, nEntriesPerGeneration) && log[i] == key) ==> r
    {
      hide Levels, CellOf, Stamps, Pair, Bit;
      for n := 0 to nHashFuncs
        invariant forall k :: 0 <= k < n ==> SetRecently(CellOf(nTweak, k, key))
      {
        var c := CellOf(nTweak, n, key);
        CellMeans(c);
        SetMeans(data[2 * c.pair], data[2 * c.pair + 1], c.bit);
        if !Bit(Or(data[2 * c.pair], data[2 * c.pair + 1]), c.bit) {
          KeyIsThere(key, n);
          return false;
        }
      }
      return true;
    }

    lemma CellMeans(c: Cell)
      requires Valid() && 2 * c.pair + 1 < data.Length
      ensures Level(data[..], c) != 0 <==> SetRecently(c)
    {
      hide CellOf, Level;
      assert Level(data[..], c) == Expected(stamp, now, c);
      if c in stamp && stamp[c] >= now - 2 {
        var i :| 0 <= i < |log| && StampedBy(stamp, log, nTweak, c, i);
        RecentMeans(i, |log|, nEntriesPerGeneration, now);
      }
      if SetRecently(c) {
        var i :| Recent(i, |log|, nEntriesPerGeneration) && HitBy(nTweak, log[i], nHashFuncs, c);
        RecentMeans(i, |log|, nEntriesPerGeneration, now);
      }
    }

    lemma KeyIsThere(key: Key, n: nat)
      requires Shape() && n < nHashFuncs
      ensures (exists i :: Recent(i, |log|, nEntriesPerGeneration) && log[i] == key) ==>
        SetRecently(CellOf(nTweak, n, key))
    {
      hide CellOf;
      var c := CellOf(nTweak, n, key);
      assert HitBy(nTweak, key, nHashFuncs, c);
    }

    /** Some insert that the filter still keeps set the cell. */
    ghost predicate SetRecently(c: Cell)
      requires Shape()
      reads this
    {
      exists i :: Recent(i, |log|, nEntriesPerGeneration) && HitBy(nTweak, log[i], nHashFuncs, c)
    }
  }

  lemma Cleared(data: seq<bv64>)
    requires forall k :: 0 <= k < |data| ==> data[k] == 0
    ensures Levels(data, map[], 0)
  {
  }

  lemma WipeUnfold(p1: bv64, p2: bv64, g: int)
    ensures Wipe(p1, p2, g) == (And(p1, WipeMask(p1, p2, g % 2 == 1, g / 2 == 1)),
      And(p2, WipeMask(p1, p2, g % 2 == 1, g / 2 == 1)))
  {
  }

  lemma SetMeans(p1: bv64, p2: bv64, b: bv6)
    ensures Bit(Or(p1, p2), b) <==> Pair(p1, p2, b) != 0
  {
    hide Bit, Or;
    BitOr(p1, p2, b);
  }

  lemma StampsBounded(data: seq<bv64>, stamp: map<Cell, int>, now: int)
    requires Levels(data, stamp, now)
    ensures forall c :: c in stamp ==> stamp[c] <= now
  {
  }

  lemma RecentMeans(i: int, count: int, perGeneration: nat, now: int)
    requires 0 <= i < count && now == if perGeneration == 0 then 1 else (count - 1) / perGeneration
    ensures Recent(i, count, perGeneration) <==> GenerationOf(i, perGeneration) >= now - 2
  {
  }

  /** The counters tell the generation of the next insert. */
  lemma NextCount(count: nat, perGeneration: nat, now: int, entries: int)
    requires if count == 0 then now == 0 && entries == 0
             else if perGeneration == 0 then now == 1 && entries == count
             else now == (count - 1) / perGeneration && entries == count - now * perGeneration
    ensures GenerationOf(count, perGeneration) == if entries == perGeneration then now + 1 else now
    ensures entries == perGeneration && perGeneration > 0 ==> count == (now + 1) * perGeneration
  {
    var n := perGeneration;
    if n > 0 && count > 0 {
      var r := (count - 1) % n;
      assert count - 1 == now * n + r;
      if r == n - 1 {
        assert count == (now + 1) * n;
        L.ModUnique(0, now + 1, n, count);
      } else {
        L.ModUnique(r + 1, now, n, count);
      }
    }
  }
}
