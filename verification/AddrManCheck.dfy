/**
  CAddrMan::Check_, the run-time test of the source, as it is written: it returns 0 exactly
  when the manager is consistent in the sense it tests, which the invariant of every run
  implies.  The value that its lookups insert for a missing address is not modelled.
 */
module AddrManCheck {
  import opened AddrManModel
  import opened AddrManInvariant
  import opened AddrManRoundTrip
  import opened AddrManPersist
  import A = AddrMan

  function Lookup(m: map<NetAddr, int>, ip: NetAddr): int {
    if ip in m then m[ip] else 0
  }

  /** The tests on one entry. */
  predicate EntryOk(s: State, id: int)
    requires id in s.mapInfo
  {
    var a := s.mapInfo[id];
    && (if a.fInTried then a.nLastSuccess != 0 && a.nRefCount == 0 else 1 <= a.nRefCount <= NEW_BUCKETS_PER_ADDRESS)
    && Lookup(s.mapAddr, a.service.ip) == id
    && 0 <= a.nRandomPos < |s.vRandom| && s.vRandom[a.nRandomPos] == id
    && a.nLastTry >= 0 && a.nLastSuccess >= 0
  }

  ghost predicate EntriesOk(s: State) {
    forall id :: id in s.mapInfo ==> EntryOk(s, id)
  }

  /** What a zero from Check_ means. */
  ghost predicate Checked(net: Net, s: State) {
    && |s.vRandom| == s.nTried + s.nNew
    && EntriesOk(s) && Counts(s, {}) && TriedOk(net, s) && NewOk(net, s, {})
  }

  /** Every reachable manager passes. */
  lemma InvIsChecked(net: Net, s: State)
    requires Inv(net, s)
    ensures Checked(net, s)
  {
    hide NewOk, TriedOk, Counts, Index, Times;
    forall id | id in s.mapInfo ensures EntryOk(s, id) { InvEntry(net, s, id); }
    RandomSize(net, s);
  }

  lemma InvEntry(net: Net, s: State, id: int)
    requires Inv(net, s) && id in s.mapInfo
    ensures EntryOk(s, id)
  {
    assert RefsOk(s, id, {}) && Linked(s, id) && TimesOk(s.mapInfo[id]);
  }

  lemma RandomSize(net: Net, s: State)
    requires Inv(net, s)
    ensures |s.vRandom| == s.nTried + s.nNew
  {
    hide NewOk, TriedOk, Times;
    CountsAre(net, s);
    assert s.mapInfo.Keys == TriedIds(s.mapInfo) + NewIds(s.mapInfo);
    forall x | x in s.mapInfo ensures x in s.vRandom { LinkedAt(s, x); }
    assert s.mapInfo.Keys == Members(s.vRandom);
    DistinctSize(s.vRandom);
  }

  function Members(v: seq<int>): set<int> {
    set x | x in v
  }

  lemma {:induction false} DistinctSize(v: seq<int>)
    requires forall i, j :: 0 <= i < j < |v| ==> v[i] != v[j]
    ensures |Members(v)| == |v|
  {
    if |v| > 0 {
      var last := |v| - 1;
      DistinctSize(v[..last]);
      assert v == v[..last] + [v[last]];
      assert Members(v) == Members(v[..last]) + {v[last]};
    }
  }

  // -------------------------------------------------------------- the entries

  ghost function TriedBut(m: map<int, Info>, left: set<int>): set<int> {
    set id | id in m && id !in left && m[id].fInTried
  }

  ghost function NewBut(m: map<int, Info>, left: set<int>): map<int, int> {
    map id | id in m && id !in left && !m[id].fInTried :: m[id].nRefCount
  }

  method CheckEntries(m: A.AddrMan) returns (r: int, setTried: set<int>, mapNew: map<int, int>)
    ensures r == 0 <==> EntriesOk(m.S())
    ensures r == 0 ==> setTried == TriedIds(m.mapInfo) && mapNew == NewBut(m.mapInfo, {})
  {
    hide A.Occupied;
    setTried, mapNew := {}, map[];
    var left := m.mapInfo.Keys;
    while left != {}
      invariant left <= m.mapInfo.Keys
      invariant forall id :: id in m.mapInfo && id !in left ==> EntryOk(m.S(), id)
      invariant setTried == TriedBut(m.mapInfo, left) && mapNew == NewBut(m.mapInfo, left)
      decreases left
    {
      ghost var _ := Pick(left);
      var n :| n in left;
      left := left - {n};
      r := CheckEntry(m, n);
      if r != 0 {
        return;
      }
      if m.mapInfo[n].fInTried {
        setTried := setTried + {n};
      } else {
        mapNew := mapNew[n := m.mapInfo[n].nRefCount];
      }
    }
    r := 0;
    assert TriedBut(m.mapInfo, {}) == TriedIds(m.mapInfo);
  }

  method CheckEntry(m: A.AddrMan, n: int) returns (r: int)
    requires n in m.mapInfo
    ensures r == 0 <==> EntryOk(m.S(), n)
  {
    hide A.Occupied;
    var info := m.mapInfo[n];
    if info.fInTried {
      if info.nLastSuccess == 0 { return -1; }
      if info.nRefCount != 0 { return -2; }
    } else {
      if info.nRefCount < 0 || info.nRefCount > NEW_BUCKETS_PER_ADDRESS { return -3; }
      if info.nRefCount == 0 { return -4; }
    }
    if Lookup(m.mapAddr, info.service.ip) != n { return -5; }
    if info.nRandomPos < 0 || info.nRandomPos >= |m.vRandom| || m.vRandom[info.nRandomPos] != n { return -14; }
    if info.nLastTry < 0 { return -6; }
    if info.nLastSuccess < 0 { return -8; }
    return 0;
  }

  // --------------------------------------------------------- the tried table

  /** The ids in the cells before (b, p). */
  ghost function Seen(t: Table, b: int, p: int): set<int> {
    set c | c in t && Before(c, b, p) :: t[c]
  }

  lemma SeenNext(t: Table, b: int, p: int)
    ensures Seen(t, b, p + 1) == if Cell(b, p) in t then Seen(t, b, p) + {t[Cell(b, p)]} else Seen(t, b, p)
  {
    BeforeNext(t, b, p);
    var c := Cell(b, p);
    if c in t { assert t[c] in Seen(t, b, p + 1); }
    forall x | x in Seen(t, b, p) ensures x in Seen(t, b, p + 1) {
      var d :| d in t && Before(d, b, p) && t[d] == x;
      assert d in t && Before(d, b, p + 1);
    }
  }

  /** Every cell before (b, p) holds a tried entry whose cell it is. */
  ghost predicate TriedUpTo(net: Net, s: State, b: int, p: int) {
    forall c :: c in s.vvTried && Before(c, b, p) ==> TriedHere(net, s, c)
  }

  predicate TriedHere(net: Net, s: State, c: Cell)
    requires c in s.vvTried
  {
    s.vvTried[c] in s.mapInfo && s.mapInfo[s.vvTried[c]].fInTried
      && c == TriedCell(net, s.mapInfo[s.vvTried[c]].service)
  }

  /** A cell that passes the test is the first to hold its id; one that fails breaks the table. */
  lemma TriedTest(net: Net, s: State, b: int, p: int)
    requires TriedUpTo(net, s, b, p) && Cell(b, p) in s.vvTried
    ensures var id := s.vvTried[Cell(b, p)];
      id in TriedIds(s.mapInfo) - Seen(s.vvTried, b, p) && Cell(b, p) == TriedCell(net, s.mapInfo[id].service)
      <==> TriedHere(net, s, Cell(b, p))
    ensures TriedHere(net, s, Cell(b, p)) ==> TriedUpTo(net, s, b, p + 1)
  {
    hide TriedCell;
    BeforeNext(s.vvTried, b, p);
  }

  lemma TriedEmpty(net: Net, s: State, b: int, p: int)
    requires TriedUpTo(net, s, b, p) && Cell(b, p) !in s.vvTried
    ensures TriedUpTo(net, s, b, p + 1)
  {
    BeforeNext(s.vvTried, b, p);
  }

  method CheckTriedCell(m: A.AddrMan, n: int, i: int, setTried: set<int>) returns (r: int, rest: set<int>)
    requires m.Valid() && 0 <= n < TRIED_BUCKET_COUNT && 0 <= i < BUCKET_SIZE
    requires TriedUpTo(m.net, m.S(), n, i) && setTried == TriedIds(m.mapInfo) - Seen(m.S().vvTried, n, i)
    ensures r == 0 ==> TriedUpTo(m.net, m.S(), n, i + 1) && rest == TriedIds(m.mapInfo) - Seen(m.S().vvTried, n, i + 1)
    ensures r != 0 ==> !TriedOk(m.net, m.S())
  {
    hide A.Occupied, TriedUpTo, Seen;
    ghost var s := m.S();
    rest := setTried;
    SeenNext(s.vvTried, n, i);
    var id := m.vvTried[n, i];
    if id != -1 {
      assert Cell(n, i) in s.vvTried && s.vvTried[Cell(n, i)] == id;
      TriedTest(m.net, s, n, i);
      if id !in setTried { return -11, rest; }
      var c := TriedCell(m.net, m.mapInfo[id].service);
      if c.bucket != n { return -17, rest; }
      if c.pos != i { return -18, rest; }
      rest := rest - {id};
    } else {
      TriedEmpty(m.net, s, n, i);
    }
    r := 0;
  }

  lemma TriedNextBucket(net: Net, s: State, n: int)
    requires forall c :: c in s.vvTried ==> c.pos < BUCKET_SIZE
    requires forall c :: c in s.vvTried ==> c.pos >= 0
    ensures TriedUpTo(net, s, n, BUCKET_SIZE) ==> TriedUpTo(net, s, n + 1, 0)
    ensures Seen(s.vvTried, n, BUCKET_SIZE) == Seen(s.vvTried, n + 1, 0)
  {
    forall c | c in s.vvTried ensures Before(c, n, BUCKET_SIZE) <==> Before(c, n + 1, 0) {}
    assert Seen(s.vvTried, n, BUCKET_SIZE) == Seen(s.vvTried, n + 1, 0);
  }

  method CheckTried(m: A.AddrMan, setTried: set<int>) returns (r: int, rest: set<int>)
    requires m.Valid() && setTried == TriedIds(m.mapInfo)
    ensures r == 0 && rest == {} <==> TriedOk(m.net, m.S())
  {
    hide A.Occupied, TriedUpTo, Seen, TriedOk;
    ghost var s := m.S();
    rest := setTried;
    NothingSeen(m.net, s, m.vvTried);
    for n := 0 to TRIED_BUCKET_COUNT
      invariant TriedUpTo(m.net, s, n, 0) && rest == TriedIds(m.mapInfo) - Seen(s.vvTried, n, 0)
    {
      for i := 0 to BUCKET_SIZE
        invariant TriedUpTo(m.net, s, n, i) && rest == TriedIds(m.mapInfo) - Seen(s.vvTried, n, i)
      {
        r, rest := CheckTriedCell(m, n, i, rest);
        if r != 0 {
          return;
        }
      }
      TriedNextBucket(m.net, s, n);
    }
    TriedComplete(m.net, s);
    r := 0;
  }

  lemma NoneLeft<T>(a: set<T>, b: set<T>, x: T)
    requires a - b == {} && x in a
    ensures x in b
  {
    assert x in a - b || x in b;
  }

  lemma NothingSeen(net: Net, s: State, a: array2<int>)
    requires s.vvTried == A.Occupied(a) && a.Length1 == BUCKET_SIZE && a.Length0 == TRIED_BUCKET_COUNT
    ensures TriedUpTo(net, s, 0, 0) && Seen(s.vvTried, 0, 0) == {}
    ensures forall c :: c in s.vvTried ==> c.bucket < TRIED_BUCKET_COUNT && 0 <= c.pos < BUCKET_SIZE
  {
  }

  lemma TriedComplete(net: Net, s: State)
    requires TriedUpTo(net, s, TRIED_BUCKET_COUNT, 0) && forall c :: c in s.vvTried ==> c.bucket < TRIED_BUCKET_COUNT
    ensures TriedIds(s.mapInfo) - Seen(s.vvTried, TRIED_BUCKET_COUNT, 0) == {} <==> TriedOk(net, s)
  {
    hide TriedCell;
    var seen := Seen(s.vvTried, TRIED_BUCKET_COUNT, 0);
    forall c | c in s.vvTried ensures TriedHere(net, s, c) && s.vvTried[c] in seen {
      assert Before(c, TRIED_BUCKET_COUNT, 0);
    }
    if TriedIds(s.mapInfo) - seen == {} {
      forall id | id in s.mapInfo && s.mapInfo[id].fInTried
        ensures var c := TriedCell(net, s.mapInfo[id].service); c in s.vvTried && s.vvTried[c] == id
      {
        NoneLeft(TriedIds(s.mapInfo), seen, id);
        var c :| c in s.vvTried && s.vvTried[c] == id;
        assert TriedHere(net, s, c);
      }
    }
    if TriedOk(net, s) {
      forall id | id in TriedIds(s.mapInfo) ensures id in seen {
        assert TriedCell(net, s.mapInfo[id].service) in s.vvTried;
      }
    }
  }

  // ----------------------------------------------------------- the new table

  /** The table cut to the cells before (b, p). */
  ghost function Cut(t: Table, b: int, p: int): Table {
    map c | c in t && Before(c, b, p) :: t[c]
  }

  ghost function Count(t: Table, id: int): nat {
    |CellsOf(t, id)|
  }

  /** The references still to be found. */
  ghost function Missing(m: map<int, Info>, done: Table): map<int, int> {
    map id | id in m && !m[id].fInTried && Count(done, id) < m[id].nRefCount :: m[id].nRefCount - Count(done, id)
  }

  /** The cells met so far are right, and none was met too often. */
  ghost predicate NewUpTo(net: Net, s: State, done: Table) {
    && (forall c :: c in done ==> c in s.vvNew && done[c] == s.vvNew[c] && NewHere(net, s, c))
    && (forall id :: id in s.mapInfo && !s.mapInfo[id].fInTried ==> Count(done, id) <= s.mapInfo[id].nRefCount)
  }

  predicate NewHere(net: Net, s: State, c: Cell)
    requires c in s.vvNew
  {
    s.vvNew[c] in s.mapInfo && !s.mapInfo[s.vvNew[c]].fInTried
      && c == NewCell(net, s.mapInfo[s.vvNew[c]].service, c.bucket)
  }

  lemma CutNext(t: Table, b: int, p: int)
    ensures Cut(t, b, p + 1) == if Cell(b, p) in t then Cut(t, b, p)[Cell(b, p) := t[Cell(b, p)]] else Cut(t, b, p)
    ensures Cell(b, p) !in Cut(t, b, p)
  {
    BeforeNext(t, b, p);
  }

  lemma CountNext(t: Table, c: Cell, id: int, id': int)
    requires c !in t
    ensures Count(t[c := id], id') == Count(t, id') + (if id == id' then 1 else 0)
  {
    CellsWith(t, c, id, id');
    NotYet(t, c, id');
  }

  /** Counting down one more reference. */
  function CountedDown(left: map<int, int>, id: int): map<int, int>
    requires id in left
  {
    if left[id] - 1 == 0 then left - {id} else left[id := left[id] - 1]
  }

  lemma NewStep(net: Net, s: State, done: Table, c: Cell)
    requires NewUpTo(net, s, done) && c in s.vvNew && c !in done
    requires s.vvNew[c] in Missing(s.mapInfo, done) && NewHere(net, s, c)
    ensures NewUpTo(net, s, done[c := s.vvNew[c]])
    ensures Missing(s.mapInfo, done[c := s.vvNew[c]]) == CountedDown(Missing(s.mapInfo, done), s.vvNew[c])
  {
    hide Count, NewCell;
    var id := s.vvNew[c];
    var done' := done[c := id];
    forall k ensures Count(done', k) == Count(done, k) + (if id == k then 1 else 0) { CountNext(done, c, id, k); }
    var a, b := Missing(s.mapInfo, done'), CountedDown(Missing(s.mapInfo, done), id);
    assert forall k :: k in a <==> k in b;
    assert forall k :: k in a ==> a[k] == b[k];
  }

  lemma NewFails(net: Net, s: State, done: Table, c: Cell)
    requires NewUpTo(net, s, done) && c in s.vvNew && c !in done && NewOk(net, s, {})
    ensures s.vvNew[c] in Missing(s.mapInfo, done) && NewHere(net, s, c)
  {
    hide NewCell;
    assert NewCellOk(net, s, c) && RefsOk(s, s.vvNew[c], {});
    CellsLeft(s.vvNew, done, c);
  }

  method CheckNewCell(m: A.AddrMan, n: int, i: int, mapNew: map<int, int>) returns (r: int, rest: map<int, int>)
    requires m.Valid() && 0 <= n < NEW_BUCKET_COUNT && 0 <= i < BUCKET_SIZE
    requires NewUpTo(m.net, m.S(), Cut(m.S().vvNew, n, i)) && mapNew == Missing(m.mapInfo, Cut(m.S().vvNew, n, i))
    ensures r == 0 ==>
      NewUpTo(m.net, m.S(), Cut(m.S().vvNew, n, i + 1)) && rest == Missing(m.mapInfo, Cut(m.S().vvNew, n, i + 1))
    ensures r != 0 ==> !NewOk(m.net, m.S(), {})
  {
    hide A.Occupied, NewUpTo, Cut, NewOk, Count;
    ghost var s, c := m.S(), Cell(n, i);
    rest := mapNew;
    CutNext(s.vvNew, n, i);
    var id := m.vvNew[n, i];
    if id != -1 {
      assert c in s.vvNew && s.vvNew[c] == id;
      if NewOk(m.net, s, {}) { NewFails(m.net, s, Cut(s.vvNew, n, i), c); }
      if id !in mapNew { return -12, rest; }
      if NewCell(m.net, m.mapInfo[id].service, n).pos != i { return -19, rest; }
      NewStep(m.net, s, Cut(s.vvNew, n, i), c);
      rest := rest[id := rest[id] - 1];
      if rest[id] == 0 {
        rest := rest - {id};
        assert rest == mapNew - {id};
      }
    }
    r := 0;
  }

  method CheckNew(m: A.AddrMan, mapNew: map<int, int>) returns (r: int, rest: map<int, int>)
    requires m.Valid() && EntriesOk(m.S()) && mapNew == NewBut(m.mapInfo, {})
    ensures r == 0 && rest == map[] <==> NewOk(m.net, m.S(), {})
  {
    hide A.Occupied, NewUpTo, Cut, NewOk, Missing;
    ghost var s := m.S();
    rest := mapNew;
    NewStart(m.net, s, m.vvNew);
    for n := 0 to NEW_BUCKET_COUNT
      invariant NewUpTo(m.net, s, Cut(s.vvNew, n, 0)) && rest == Missing(m.mapInfo, Cut(s.vvNew, n, 0))
    {
      for i := 0 to BUCKET_SIZE
        invariant NewUpTo(m.net, s, Cut(s.vvNew, n, i)) && rest == Missing(m.mapInfo, Cut(s.vvNew, n, i))
      {
        r, rest := CheckNewCell(m, n, i, rest);
        if r != 0 {
          return;
        }
      }
      CutNextBucket(s.vvNew, n);
    }
    CutAll(s.vvNew);
    NewComplete(m.net, s);
    r := 0;
  }

  lemma NewStart(net: Net, s: State, a: array2<int>)
    requires s.vvNew == A.Occupied(a) && a.Length1 == BUCKET_SIZE && a.Length0 == NEW_BUCKET_COUNT && EntriesOk(s)
    ensures NewUpTo(net, s, Cut(s.vvNew, 0, 0)) && Missing(s.mapInfo, Cut(s.vvNew, 0, 0)) == NewBut(s.mapInfo, {})
    ensures forall c :: c in s.vvNew ==> 0 <= c.bucket < NEW_BUCKET_COUNT && 0 <= c.pos < BUCKET_SIZE
  {
    hide Count;
    var none := Cut(s.vvNew, 0, 0);
    assert none == map[];
    forall id | id in s.mapInfo ensures Count(none, id) == 0 && EntryOk(s, id) { NoCells(id); }
  }

  lemma NoCells(id: int)
    ensures Count(map[], id) == 0
  {
    assert CellsOf(map[], id) == {};
  }

  lemma CutNextBucket(t: Table, n: int)
    requires forall c :: c in t ==> 0 <= c.pos < BUCKET_SIZE
    ensures Cut(t, n, BUCKET_SIZE) == Cut(t, n + 1, 0)
  {
    forall c | c in t ensures Before(c, n, BUCKET_SIZE) <==> Before(c, n + 1, 0) {}
  }

  lemma CutAll(t: Table)
    requires forall c :: c in t ==> c.bucket < NEW_BUCKET_COUNT
    ensures Cut(t, NEW_BUCKET_COUNT, 0) == t
  {
    forall c | c in t ensures Before(c, NEW_BUCKET_COUNT, 0) {}
  }

  lemma NewComplete(net: Net, s: State)
    requires EntriesOk(s) && NewUpTo(net, s, s.vvNew)
    requires forall c :: c in s.vvNew ==> 0 <= c.bucket < NEW_BUCKET_COUNT
    ensures Missing(s.mapInfo, s.vvNew) == map[] <==> NewOk(net, s, {})
  {
    hide NewCell;
    var left := Missing(s.mapInfo, s.vvNew);
    if left == map[] {
      forall c | c in s.vvNew ensures NewCellOk(net, s, c) { assert NewHere(net, s, c); }
      forall id | id in s.mapInfo ensures RefsOk(s, id, {}) {
        assert EntryOk(s, id);
        assert id !in left;
        if s.mapInfo[id].fInTried { assert CellsOf(s.vvNew, id) == {}; }
      }
    }
    if NewOk(net, s, {}) {
      forall id | id in s.mapInfo ensures id !in left { assert RefsOk(s, id, {}); }
      assert left == map[];
    }
  }

  // ------------------------------------------------------------------ Check_

  method Check_(m: A.AddrMan, nKeyIsNull: bool) returns (r: int)
    requires m.Valid()
    ensures r == 0 <==> Checked(m.net, m.S()) && !nKeyIsNull
    ensures Inv(m.net, m.S()) && !nKeyIsNull ==> r == 0
  {
    hide A.Occupied, EntriesOk, TriedOk, NewOk, Inv;
    if Inv(m.net, m.S()) { InvIsChecked(m.net, m.S()); }
    if |m.vRandom| != m.nTried + m.nNew { return -7; }
    var setTried, mapNew;
    r, setTried, mapNew := CheckEntries(m);
    if r != 0 { return; }
    SizeOfNew(m.mapInfo);
    if |setTried| != m.nTried { return -9; }
    if |mapNew| != m.nNew { return -10; }
    r, setTried := CheckTried(m, setTried);
    if r != 0 { return; }
    r, mapNew := CheckNew(m, mapNew);
    if r != 0 { return; }
    if |setTried| != 0 { return -13; }
    if |mapNew| != 0 { return -15; }
    if nKeyIsNull { return -16; }
    return 0;
  }

  lemma SizeOfNew(m: map<int, Info>)
    ensures |NewBut(m, {})| == |NewIds(m) - {}|
  {
    assert NewBut(m, {}).Keys == NewIds(m) - {};
  }
}
