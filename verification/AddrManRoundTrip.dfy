/**
  Unserialize gives back what Serialize wrote: for every consistent address manager the
  loaded one has the same addresses in the same cells of both tables with the same reference
  counts, with ids renumbered, and is consistent again.
 */
module AddrManRoundTrip {
  import opened AddrManModel
  import opened AddrManInvariant
  import opened AddrManStream

  // --------------------------------------------- the entries, as they are read

  /** Entry i as the two reading loops build it. */
  function ReadInfo(src: seq<Info>, i: int): Info
    requires 0 <= i < |src|
  {
    Restore(Strip(src[i]), i).(fInTried := src[i].fInTried)
  }

  /** Entries in writing order: the first nn are "new", the rest tried, no two of them clash. */
  ghost predicate Source(net: Net, src: seq<Info>, nn: nat) {
    && nn <= |src|
    && (forall i :: 0 <= i < |src| ==> (src[i].fInTried <==> i >= nn))
    && (forall i, j :: 0 <= i < j < |src| ==> src[i].service.ip != src[j].service.ip)
    && (forall i, j :: nn <= i < j < |src| ==> TriedCell(net, src[i].service) != TriedCell(net, src[j].service))
  }

  function Upto(n: nat): (r: seq<int>)
    ensures |r| == n && forall i :: 0 <= i < n ==> r[i] == i
  {
    seq(n, i => i)
  }

  ghost predicate InfoIs(src: seq<Info>, t: State, n: nat)
    requires n <= |src|
  {
    && (forall i :: i in t.mapInfo <==> 0 <= i < n)
    && (forall i :: 0 <= i < n ==> t.mapInfo[i] == ReadInfo(src, i))
    && t.vRandom == Upto(n)
  }

  ghost predicate AddrIs(src: seq<Info>, t: State, n: nat)
    requires n <= |src|
  {
    && (forall i :: 0 <= i < n ==> src[i].service.ip in t.mapAddr && t.mapAddr[src[i].service.ip] == i)
    && (forall ip :: ip in t.mapAddr ==> 0 <= t.mapAddr[ip] < n && src[t.mapAddr[ip]].service.ip == ip)
  }

  ghost predicate TriedIs(net: Net, src: seq<Info>, nn: nat, t: State, n: nat)
    requires n <= |src|
  {
    && (forall i :: nn <= i < n ==> var c := TriedCell(net, src[i].service); c in t.vvTried && t.vvTried[c] == i)
    && (forall c :: c in t.vvTried ==> nn <= t.vvTried[c] < n && c == TriedCell(net, src[t.vvTried[c]].service))
  }

  /** The state once the first n entries have been read. */
  ghost predicate Loading(net: Net, src: seq<Info>, nn: nat, t: State, n: nat) {
    && n <= |src|
    && InfoIs(src, t, n) && AddrIs(src, t, n) && TriedIs(net, src, nn, t, n)
    && t.vvNew == map[] && t.nNew == nn && t.nTried == |src| - nn
  }

  lemma AddrStep(src: seq<Info>, t: State, u: State, n: nat)
    requires n < |src| && AddrIs(src, t, n)
    requires forall i :: 0 <= i < n ==> src[i].service.ip != src[n].service.ip
    requires u.mapAddr == t.mapAddr[src[n].service.ip := n]
    ensures AddrIs(src, u, n + 1)
  {
    forall ip | ip in u.mapAddr ensures 0 <= u.mapAddr[ip] < n + 1 && src[u.mapAddr[ip]].service.ip == ip {
      if ip != src[n].service.ip { assert u.mapAddr[ip] == t.mapAddr[ip]; }
    }
  }

  lemma InfoStep(src: seq<Info>, t: State, u: State, n: nat)
    requires n < |src| && InfoIs(src, t, n)
    requires u.mapInfo == t.mapInfo[n := ReadInfo(src, n)] && u.vRandom == t.vRandom + [n]
    ensures InfoIs(src, u, n + 1)
  {
    assert u.vRandom == Upto(n + 1);
  }

  lemma TriedStep(net: Net, src: seq<Info>, nn: nat, t: State, u: State, n: nat)
    requires nn <= n < |src| && TriedIs(net, src, nn, t, n)
    requires forall i :: nn <= i < n ==> TriedCell(net, src[i].service) != TriedCell(net, src[n].service)
    requires u.vvTried == t.vvTried[TriedCell(net, src[n].service) := n]
    ensures TriedIs(net, src, nn, u, n + 1)
  {
    var c0 := TriedCell(net, src[n].service);
    forall c | c in u.vvTried ensures nn <= u.vvTried[c] < n + 1 && c == TriedCell(net, src[u.vvTried[c]].service) {
      if c != c0 { assert u.vvTried[c] == t.vvTried[c]; }
    }
  }

  lemma PutNewStep(net: Net, src: seq<Info>, nn: nat, t: State, n: nat)
    requires Source(net, src, nn) && Loading(net, src, nn, t, n) && n < nn
    ensures Loading(net, src, nn, PutNew(net, t, n, Strip(src[n]), false), n + 1)
  {
    hide InfoIs, AddrIs, TriedCell, NewCell, NewBucket;
    var u := PutNew(net, t, n, Strip(src[n]), false);
    RandomLength(src, t, n);
    InfoStep(src, t, u, n);
    AddrStep(src, t, u, n);
  }

  lemma RandomLength(src: seq<Info>, t: State, n: nat)
    requires n <= |src| && InfoIs(src, t, n)
    ensures |t.vRandom| == n
  {
  }

  lemma PutTriedStep(net: Net, src: seq<Info>, nn: nat, t: State, n: nat)
    requires Source(net, src, nn) && Loading(net, src, nn, t, n) && nn <= n < |src| && t.nIdCount == n
    ensures Loading(net, src, nn, PutTried(net, t, Strip(src[n])), n + 1)
    ensures PutTried(net, t, Strip(src[n])).nIdCount == n + 1
  {
    hide InfoIs, AddrIs, TriedCell, NewCell, NewBucket;
    var u := PutTried(net, t, Strip(src[n]));
    RandomLength(src, t, n);
    FreeCell(net, src, nn, t, n);
    InfoStep(src, t, u, n);
    AddrStep(src, t, u, n);
    TriedStep(net, src, nn, t, u, n);
  }

  lemma FreeCell(net: Net, src: seq<Info>, nn: nat, t: State, n: nat)
    requires Source(net, src, nn) && nn <= n < |src| && TriedIs(net, src, nn, t, n)
    ensures TriedCell(net, src[n].service) !in t.vvTried
  {
  }

  /** items starts with the entries from n to end. */
  ghost predicate Ahead(src: seq<Info>, n: int, end: int, items: Stream)
    requires 0 <= n <= end <= |src|
  {
    |items| >= end - n && forall i :: n <= i < end ==> items[i - n] == Entry(Strip(src[i]))
  }

  lemma AheadNext(src: seq<Info>, n: int, end: int, items: Stream)
    requires 0 <= n < end <= |src| && Ahead(src, n, end, items)
    ensures items != [] && items[0] == Entry(Strip(src[n])) && Ahead(src, n + 1, end, items[1..])
  {
    assert items[n - n] == Entry(Strip(src[n]));
    forall i | n + 1 <= i < end ensures items[1..][i - (n + 1)] == Entry(Strip(src[i])) {
      assert items[i - n] == Entry(Strip(src[i]));
    }
  }

  lemma {:induction false} LoadNewAll(net: Net, src: seq<Info>, nn: nat, t: State, n: nat, items: Stream)
    returns (u: State)
    requires Source(net, src, nn) && Loading(net, src, nn, t, n) && n <= nn && Ahead(src, n, nn, items)
    ensures LoadNew(net, t, n, nn, false, items) == Got(u, items[nn - n..])
    ensures Loading(net, src, nn, u, nn) && u.nIdCount == nn
    decreases nn - n
  {
    hide Loading, Source, PutNew;
    if n == nn {
      u := t.(nIdCount := nn);
      assert Loading(net, src, nn, u, nn) by { IdCountFree(net, src, nn, t, n); }
    } else {
      SourceSize(net, src, nn);
      AheadNext(src, n, nn, items);
      PutNewStep(net, src, nn, t, n);
      u := LoadNewAll(net, src, nn, PutNew(net, t, n, Strip(src[n]), false), n + 1, items[1..]);
    }
  }

  lemma SourceSize(net: Net, src: seq<Info>, nn: nat)
    requires Source(net, src, nn)
    ensures nn <= |src|
  {
  }

  lemma IdCountFree(net: Net, src: seq<Info>, nn: nat, t: State, n: nat)
    requires Loading(net, src, nn, t, n)
    ensures Loading(net, src, nn, t.(nIdCount := nn), n)
  {
  }

  lemma {:induction false} LoadTriedAll(net: Net, src: seq<Info>, nn: nat, t: State, n: nat, items: Stream)
    returns (u: State)
    requires Source(net, src, nn) && Loading(net, src, nn, t, n) && nn <= n && t.nIdCount == n
    requires n <= |src| && Ahead(src, n, |src|, items)
    ensures LoadTried(net, t, |src| - n, items) == Got(u, items[|src| - n..])
    ensures Loading(net, src, nn, u, |src|) && u.nIdCount == |src|
    decreases |src| - n
  {
    hide Loading, Source, PutTried;
    if n == |src| {
      u := t;
    } else {
      AheadNext(src, n, |src|, items);
      PutTriedStep(net, src, nn, t, n);
      u := LoadTriedAll(net, src, nn, PutTried(net, t, Strip(src[n])), n + 1, items[1..]);
    }
  }

  // ------------------------------------------------ the cells of the new table

  predicate Before(c: Cell, b: int, p: int) {
    c.bucket < b || (c.bucket == b && c.pos < p)
  }

  /** A "new" table over entry numbers that could have been written. */
  ghost predicate Target(net: Net, src: seq<Info>, nn: nat, w: Table) {
    && nn <= |src|
    && (forall c :: c in w ==> && 0 <= w[c] < nn && 0 <= c.bucket < NEW_BUCKET_COUNT
                               && c == NewCell(net, src[w[c]].service, c.bucket))
    && (forall i :: 0 <= i < nn ==> 1 <= |CellsOf(w, i)| <= NEW_BUCKETS_PER_ADDRESS)
  }

  /** The state once the cells before (b, p) have been read; u is the state before any was. */
  ghost predicate Placing(src: seq<Info>, w: Table, u: State, t: State, b: int, p: int) {
    && t == u.(mapInfo := t.mapInfo, vvNew := t.vvNew)
    && (forall c :: c in t.vvNew <==> c in w && Before(c, b, p))
    && (forall c :: c in t.vvNew ==> t.vvNew[c] == w[c])
    && Counted(src, t)
  }

  ghost predicate Counted(src: seq<Info>, t: State) {
    && (forall i :: i in t.mapInfo <==> 0 <= i < |src|)
    && (forall i :: 0 <= i < |src| ==> t.mapInfo[i] == ReadInfo(src, i).(nRefCount := |CellsOf(t.vvNew, i)|))
  }

  lemma PlacingStart(net: Net, src: seq<Info>, nn: nat, w: Table, u: State)
    requires Loading(net, src, nn, u, |src|) && Target(net, src, nn, w)
    ensures Placing(src, w, u, u, 0, 0)
  {
    forall i | 0 <= i < |src| ensures u.mapInfo[i] == ReadInfo(src, i).(nRefCount := |CellsOf(u.vvNew, i)|) {
      assert CellsOf(u.vvNew, i) == {};
    }
  }

  /** A cell whose turn has come is free, and its entry has references to spare. */
  lemma CellsLeft(w: Table, v: Table, c: Cell)
    requires c in w && c !in v && forall d :: d in v ==> d in w && w[d] == v[d]
    ensures |CellsOf(v, w[c])| < |CellsOf(w, w[c])|
  {
    assert CellsOf(v, w[c]) <= CellsOf(w, w[c]) - {c};
    SubsetSize(CellsOf(v, w[c]), CellsOf(w, w[c]) - {c});
  }

  lemma {:induction false} SubsetSize<T>(a: set<T>, b: set<T>)
    requires a <= b
    ensures |a| <= |b|
  {
    if a != {} {
      var x :| x in a;
      SubsetSize(a - {x}, b - {x});
    }
  }

  lemma PutPositionStep(net: Net, src: seq<Info>, nn: nat, w: Table, u: State, t: State, b: int, p: int)
    requires Target(net, src, nn, w) && Placing(src, w, u, t, b, p) && u.nNew == nn && Cell(b, p) in w
    ensures Placing(src, w, u, PutPosition(net, t, b, w[Cell(b, p)], true), b, p + 1)
  {
    hide NewCell, Counted;
    var c := Cell(b, p);
    var i := w[c];
    var t' := PutPosition(net, t, b, i, true);
    CellsLeft(w, t.vvNew, c);
    CountedAt(src, t, i);
    assert t' == Refer(t, i, c);
    CountedRefer(src, t, i, c);
    BeforeNext(w, b, p);
  }

  lemma BeforeNext(w: Table, b: int, p: int)
    ensures forall c :: Before(c, b, p + 1) <==> Before(c, b, p) || c == Cell(b, p)
  {
  }

  lemma CountedAt(src: seq<Info>, t: State, i: int)
    requires Counted(src, t) && 0 <= i < |src|
    ensures i in t.mapInfo && t.mapInfo[i].nRefCount == |CellsOf(t.vvNew, i)| && t.mapInfo[i].service == src[i].service
  {
  }

  lemma CountedRefer(src: seq<Info>, t: State, i: int, c: Cell)
    requires Counted(src, t) && 0 <= i < |src| && i in t.mapInfo && c !in t.vvNew
    ensures Counted(src, Refer(t, i, c))
  {
    hide CellsOf;
    forall k | 0 <= k < |src|
      ensures Refer(t, i, c).mapInfo[k] == ReadInfo(src, k).(nRefCount := |CellsOf(Refer(t, i, c).vvNew, k)|)
    {
      CellsWith(t.vvNew, c, i, k);
      NotYet(t.vvNew, c, k);
    }
  }

  lemma NotYet(t: Table, c: Cell, k: int)
    requires c !in t
    ensures c !in CellsOf(t, k)
  {
  }

  /** A bucket is written with the entry numbers of w. */
  ghost predicate Names(s: State, w: Table) {
    && s.vvNew.Keys == w.Keys
    && (forall c :: c in w ==> Rank(s.mapInfo, s.vvNew[c]) == w[c])
  }

  lemma {:induction false} LoadBucketAll(net: Net, src: seq<Info>, nn: nat, w: Table, s: State, u: State, t: State,
    b: int, p: int, tail: Stream)
    returns (t': State)
    requires Target(net, src, nn, w) && Placing(src, w, u, t, b, p) && u.nNew == nn && Names(s, w)
      && 0 <= p <= BUCKET_SIZE
    ensures LoadBucket(net, t, b, |BucketItems(s, b, p)|, true, BucketItems(s, b, p) + tail) == Got(t', tail)
    ensures Placing(src, w, u, t', b, BUCKET_SIZE)
    decreases BUCKET_SIZE - p
  {
    hide Target, Placing, PutPosition;
    var items := BucketItems(s, b, p);
    if p == BUCKET_SIZE {
      t' := t;
      assert items + tail == tail;
    } else if Cell(b, p) in s.vvNew {
      PutPositionStep(net, src, nn, w, u, t, b, p);
      t' := LoadBucketAll(net, src, nn, w, s, u, PutPosition(net, t, b, w[Cell(b, p)], true), b, p + 1, tail);
      assert (items + tail)[1..] == BucketItems(s, b, p + 1) + tail;
    } else {
      SkipCell(src, w, u, t, b, p);
      t' := LoadBucketAll(net, src, nn, w, s, u, t, b, p + 1, tail);
    }
  }

  lemma SkipCell(src: seq<Info>, w: Table, u: State, t: State, b: int, p: int)
    requires Placing(src, w, u, t, b, p) && Cell(b, p) !in w
    ensures Placing(src, w, u, t, b, p + 1)
  {
    BeforeNext(w, b, p);
  }

  lemma NextBucket(net: Net, src: seq<Info>, nn: nat, w: Table, u: State, t: State, b: int)
    requires Target(net, src, nn, w) && Placing(src, w, u, t, b, BUCKET_SIZE)
    ensures Placing(src, w, u, t, b + 1, 0)
  {
    forall c | c in w ensures Before(c, b, BUCKET_SIZE) <==> Before(c, b + 1, 0) {
      assert c == NewCell(net, src[w[c]].service, c.bucket);
    }
  }

  lemma {:induction false} LoadBucketsAll(net: Net, src: seq<Info>, nn: nat, w: Table, s: State, u: State,
    t: State, b: int)
    returns (t': State)
    requires Target(net, src, nn, w) && Placing(src, w, u, t, b, 0) && u.nNew == nn && Names(s, w)
      && 0 <= b <= NEW_BUCKET_COUNT
    ensures LoadBuckets(net, t, b, NEW_BUCKET_COUNT, true, BucketsFrom(s, b)) == Got(t', [])
    ensures Placing(src, w, u, t', NEW_BUCKET_COUNT, 0)
    decreases NEW_BUCKET_COUNT - b
  {
    hide Target, Placing, BucketItems, LoadBucket;
    if b == NEW_BUCKET_COUNT {
      t' := t;
    } else {
      var items := BucketsFrom(s, b);
      assert items[1..] == BucketItems(s, b, 0) + BucketsFrom(s, b + 1);
      var t1 := LoadBucketAll(net, src, nn, w, s, u, t, b, 0, BucketsFrom(s, b + 1));
      NextBucket(net, src, nn, w, u, t1, b);
      t' := LoadBucketsAll(net, src, nn, w, s, u, t1, b + 1);
    }
  }

  lemma AllPlaced(net: Net, src: seq<Info>, nn: nat, w: Table, u: State, t: State)
    requires Target(net, src, nn, w) && Placing(src, w, u, t, NEW_BUCKET_COUNT, 0)
    ensures t.vvNew == w && Counted(src, t)
  {
    assert forall c :: c in w ==> Before(c, NEW_BUCKET_COUNT, 0);
  }

  /** Every entry has a place, so nothing is pruned. */
  lemma {:induction false} NothingToPrune(t: State, k: int)
    requires forall i :: k <= i < t.nIdCount ==> !Unplaced(t, i)
    ensures Prune(t, k) == Done(t)
    decreases t.nIdCount - k
  {
    if k < t.nIdCount { NothingToPrune(t, k + 1); }
  }
}
