/**
  The consistency that CAddrMan::Check_ tests at run time, as an invariant, and the proof
  that each internal step of the address manager keeps it.

  Two sets describe the moments in between: ids in `limbo` have no references yet (or no
  longer), and those in `uncounted` are left out of nNew while they change tables.
 */
module AddrManInvariant {
  import opened AddrManModel

  /** mapAddr and vRandom are bijections with mapInfo, and ids are never reused. */
  ghost predicate Index(s: State) {
    && 0 <= s.nIdCount
    && (forall id :: id in s.mapInfo ==> Linked(s, id))
    && (forall ip :: ip in s.mapAddr ==> s.mapAddr[ip] in s.mapInfo && s.mapInfo[s.mapAddr[ip]].service.ip == ip)
    && (forall i :: 0 <= i < |s.vRandom| ==> s.vRandom[i] in s.mapInfo && s.mapInfo[s.vRandom[i]].nRandomPos == i)
  }

  predicate Linked(s: State, id: int)
    requires id in s.mapInfo
  {
    var a := s.mapInfo[id];
    && 0 <= id < s.nIdCount
    && a.service.ip in s.mapAddr && s.mapAddr[a.service.ip] == id
    && 0 <= a.nRandomPos < |s.vRandom| && s.vRandom[a.nRandomPos] == id
  }

  function CellsOf(t: Table, id: int): set<Cell> {
    set c | c in t && t[c] == id
  }

  /** Every id in the "new" table sits at its hashed position, and reference counts are exact. */
  ghost predicate NewOk(net: Net, s: State, limbo: set<int>) {
    && (forall c :: c in s.vvNew ==> NewCellOk(net, s, c))
    && (forall id :: id in s.mapInfo ==> RefsOk(s, id, limbo))
    && (forall id :: id in limbo ==> id in s.mapInfo && !s.mapInfo[id].fInTried && s.mapInfo[id].nRefCount == 0)
  }

  predicate NewCellOk(net: Net, s: State, c: Cell)
    requires c in s.vvNew
  {
    && s.vvNew[c] in s.mapInfo && !s.mapInfo[s.vvNew[c]].fInTried
    && 0 <= c.bucket < NEW_BUCKET_COUNT
    && c == NewCell(net, s.mapInfo[s.vvNew[c]].service, c.bucket)
  }

  predicate RefsOk(s: State, id: int, limbo: set<int>)
    requires id in s.mapInfo
  {
    var a := s.mapInfo[id];
    && a.nRefCount == |CellsOf(s.vvNew, id)|
    && (a.fInTried ==> a.nRefCount == 0)
    && (!a.fInTried && id !in limbo ==> 1 <= a.nRefCount <= NEW_BUCKETS_PER_ADDRESS)
  }

  /** Exactly the tried entries are in the "tried" table, each in its one cell. */
  ghost predicate TriedOk(net: Net, s: State) {
    && (forall c :: c in s.vvTried ==>
          && s.vvTried[c] in s.mapInfo && s.mapInfo[s.vvTried[c]].fInTried
          && c == TriedCell(net, s.mapInfo[s.vvTried[c]].service))
    && (forall id :: id in s.mapInfo && s.mapInfo[id].fInTried ==>
          var c := TriedCell(net, s.mapInfo[id].service); c in s.vvTried && s.vvTried[c] == id)
  }

  function TriedIds(m: map<int, Info>): set<int> {
    set id | id in m && m[id].fInTried
  }

  function NewIds(m: map<int, Info>): set<int> {
    set id | id in m && !m[id].fInTried
  }

  ghost predicate Counts(s: State, uncounted: set<int>) {
    && s.nTried == |TriedIds(s.mapInfo)|
    && s.nNew == |NewIds(s.mapInfo) - uncounted|
  }

  ghost predicate Times(s: State) {
    forall id :: id in s.mapInfo ==> TimesOk(s.mapInfo[id])
  }

  predicate TimesOk(a: Info) {
    a.nLastTry >= 0 && a.nLastSuccess >= 0 && (a.fInTried ==> a.nLastSuccess != 0)
  }

  ghost predicate InvBut(net: Net, s: State, limbo: set<int>, uncounted: set<int>) {
    Index(s) && NewOk(net, s, limbo) && TriedOk(net, s) && Counts(s, uncounted) && Times(s)
  }

  ghost predicate Inv(net: Net, s: State) {
    InvBut(net, s, {}, {})
  }

  lemma LinkedAt(s: State, id: int)
    requires Index(s) && id in s.mapInfo
    ensures Linked(s, id)
  {
  }

  lemma LimboFacts(net: Net, s: State, id: int, limbo: set<int>)
    requires NewOk(net, s, limbo) && id in limbo
    ensures id in s.mapInfo && !s.mapInfo[id].fInTried && s.mapInfo[id].nRefCount == 0
  {
  }

  // ------------------------------------------------------- counting cells

  lemma CellsWithout(t: Table, c: Cell, id: int)
    ensures CellsOf(t - {c}, id) == CellsOf(t, id) - {c}
  {
  }

  lemma CellsWith(t: Table, c: Cell, id: int, id': int)
    requires c !in t
    ensures CellsOf(t[c := id], id') == if id == id' then CellsOf(t, id') + {c} else CellsOf(t, id')
  {
  }

  // ------------------------------------------- changes that move nothing

  predicate SameTables(a: Info, b: Info) {
    a.service == b.service && a.nRefCount == b.nRefCount && a.fInTried == b.fInTried
  }

  /** The same entries in the same tables; positions in vRandom and statistics may differ. */
  ghost predicate Alike(s: State, t: State) {
    && t.mapInfo.Keys == s.mapInfo.Keys
    && (forall id {:trigger s.mapInfo[id]} {:trigger t.mapInfo[id]} :: id in s.mapInfo ==>
      SameTables(s.mapInfo[id], t.mapInfo[id]))
    && t.vvNew == s.vvNew && t.vvTried == s.vvTried && t.nNew == s.nNew && t.nTried == s.nTried
  }

  lemma AlikeNew(net: Net, s: State, t: State, limbo: set<int>)
    requires NewOk(net, s, limbo) && Alike(s, t)
    ensures NewOk(net, t, limbo)
  {
    forall k | k in t.mapInfo ensures RefsOk(t, k, limbo) { assert RefsOk(s, k, limbo); }
    forall c | c in t.vvNew ensures NewCellOk(net, t, c) {
      assert NewCellOk(net, s, c) && t.vvNew[c] == s.vvNew[c];
    }
  }

  lemma AlikeTried(net: Net, s: State, t: State, uncounted: set<int>)
    requires TriedOk(net, s) && Counts(s, uncounted) && Alike(s, t)
    ensures TriedOk(net, t) && Counts(t, uncounted)
  {
    forall id | id in s.mapInfo ensures s.mapInfo[id].fInTried == t.mapInfo[id].fInTried {
      assert SameTables(s.mapInfo[id], t.mapInfo[id]);
    }
    assert TriedIds(t.mapInfo) == TriedIds(s.mapInfo);
    assert NewIds(t.mapInfo) == NewIds(s.mapInfo);
    forall c | c in t.vvTried ensures t.vvTried[c] == s.vvTried[c] {}
  }

  /** The tried table depends on the tried entries' services only. */
  lemma SameTried(net: Net, s: State, t: State)
    requires TriedOk(net, s) && t.vvTried == s.vvTried
    requires forall k {:trigger t.mapInfo[k]} {:trigger s.mapInfo[k]} :: k in s.mapInfo && k in t.mapInfo ==>
               t.mapInfo[k].service == s.mapInfo[k].service && t.mapInfo[k].fInTried == s.mapInfo[k].fInTried
    requires forall k :: k in s.mapInfo && s.mapInfo[k].fInTried ==> k in t.mapInfo
    requires forall k :: k in t.mapInfo && t.mapInfo[k].fInTried ==> k in s.mapInfo
    ensures TriedOk(net, t)
  {
    forall c | c in t.vvTried ensures t.vvTried[c] == s.vvTried[c] {}
  }

  predicate SameIndexing(a: Info, b: Info) {
    SameTables(a, b) && a.nRandomPos == b.nRandomPos
  }

  /** Statistics may change freely. */
  lemma SetStats(net: Net, s: State, id: int, a: Info, limbo: set<int>, uncounted: set<int>)
    requires InvBut(net, s, limbo, uncounted) && id in s.mapInfo
    requires SameIndexing(a, s.mapInfo[id]) && TimesOk(a)
    ensures InvBut(net, SetInfo(s, id, a), limbo, uncounted)
  {
    hide Index, NewOk, TriedOk, Counts;
    var t := SetInfo(s, id, a);
    AlikeNew(net, s, t, limbo);
    AlikeTried(net, s, t, uncounted);
    SetStatsIndex(s, id, a);
  }

  /** The index depends on services and positions only. */
  lemma SameIndex(s: State, t: State)
    requires Index(s)
    requires t.mapAddr == s.mapAddr && t.vRandom == s.vRandom && t.nIdCount == s.nIdCount
    requires t.mapInfo.Keys == s.mapInfo.Keys
    requires forall k {:trigger t.mapInfo[k]} {:trigger s.mapInfo[k]} :: k in s.mapInfo ==>
               t.mapInfo[k].service == s.mapInfo[k].service && t.mapInfo[k].nRandomPos == s.mapInfo[k].nRandomPos
    ensures Index(t)
  {
    forall k | k in t.mapInfo ensures Linked(t, k) { assert Linked(s, k); }
    forall ip | ip in t.mapAddr ensures t.mapAddr[ip] == s.mapAddr[ip] {}
    forall i | 0 <= i < |t.vRandom| ensures t.vRandom[i] in t.mapInfo && t.mapInfo[t.vRandom[i]].nRandomPos == i {
      assert t.vRandom[i] == s.vRandom[i];
    }
  }

  lemma SetStatsIndex(s: State, id: int, a: Info)
    requires Index(s) && id in s.mapInfo
    requires a.service == s.mapInfo[id].service && a.nRandomPos == s.mapInfo[id].nRandomPos
    ensures Index(SetInfo(s, id, a))
  {
    SameIndex(s, SetInfo(s, id, a));
  }

  // -------------------------------------------------------- random order

  lemma SwapIndex(s: State, i: int, j: int)
    requires Index(s) && 0 <= i < |s.vRandom| && 0 <= j < |s.vRandom|
    ensures CanSwap(s, i, j)
    ensures Index(SwapRandom(s, i, j))
    ensures s.vRandom[i] in SwapRandom(s, i, j).mapInfo && SwapRandom(s, i, j).mapInfo[s.vRandom[i]].nRandomPos == j
  {
    var t := SwapRandom(s, i, j);
    forall k | k in t.mapInfo ensures Linked(t, k) { assert Linked(s, k); }
  }

  /** Only positions change. */
  lemma SwapOthers(s: State, i: int, j: int)
    requires Index(s) && CanSwap(s, i, j)
    ensures var t := SwapRandom(s, i, j);
            && t == s.(mapInfo := t.mapInfo, vRandom := t.vRandom) && |t.vRandom| == |s.vRandom|
            && t.mapInfo.Keys == s.mapInfo.Keys
            && (forall k {:trigger s.mapInfo[k]} {:trigger t.mapInfo[k]} :: k in t.mapInfo ==>
              t.mapInfo[k] == s.mapInfo[k].(nRandomPos := t.mapInfo[k].nRandomPos))
  {
  }

  lemma SwapKeeps(net: Net, s: State, i: int, j: int)
    requires Inv(net, s) && 0 <= i < |s.vRandom| && 0 <= j < |s.vRandom|
    ensures CanSwap(s, i, j)
    ensures Inv(net, SwapRandom(s, i, j))
  {
    SwapIndex(s, i, j);
    SwapOthers(s, i, j);
    var t := SwapRandom(s, i, j);
    AlikeNew(net, s, t, {});
    AlikeTried(net, s, t, {});
    forall k | k in t.mapInfo ensures TimesOk(t.mapInfo[k]) { assert TimesOk(s.mapInfo[k]); }
  }

  // --------------------------------------------------------------- Delete

  /** Dropping the last position, with its entry, from a linked index. */
  lemma DropLastIndex(t: State, u: State, id: int)
    requires Index(t) && id in t.mapInfo && |t.vRandom| > 0 && t.mapInfo[id].nRandomPos == |t.vRandom| - 1
    requires u.vRandom == t.vRandom[..|t.vRandom| - 1] && u.nIdCount == t.nIdCount
    requires u.mapAddr == t.mapAddr - {t.mapInfo[id].service.ip} && u.mapInfo == t.mapInfo - {id}
    ensures Index(u)
  {
    assert Linked(t, id);
    forall k | k in u.mapInfo ensures Linked(u, k) {
      assert Linked(t, k);
    }
  }

  /** The last element of vRandom fills the hole; the rest of the index is unmoved. */
  lemma DeleteIndex(s: State, id: int)
    requires Index(s) && id in s.mapInfo && !s.mapInfo[id].fInTried && s.mapInfo[id].nRefCount == 0
    ensures CanDelete(s, id)
    ensures Index(Delete(s, id))
  {
    hide SwapRandom, Index, CanSwap;
    LinkedAt(s, id);
    var last := |s.vRandom| - 1;
    SwapIndex(s, s.mapInfo[id].nRandomPos, last);
    SwapOthers(s, s.mapInfo[id].nRandomPos, last);
    DropLastIndex(SwapRandom(s, s.mapInfo[id].nRandomPos, last), Delete(s, id), id);
  }

  /** Delete touches only the deleted entry and the position of one other. */
  lemma DeleteOthers(s: State, id: int)
    requires Index(s) && CanDelete(s, id)
    ensures var t := Delete(s, id);
            && t == s.(mapInfo := t.mapInfo, mapAddr := t.mapAddr, vRandom := t.vRandom, nNew := s.nNew - 1)
            && t.mapInfo.Keys == s.mapInfo.Keys - {id}
            && (forall k {:trigger s.mapInfo[k]} {:trigger t.mapInfo[k]} :: k in t.mapInfo ==>
              t.mapInfo[k] == s.mapInfo[k].(nRandomPos := t.mapInfo[k].nRandomPos))
  {
    hide SwapRandom, Index, CanSwap;
    SwapOthers(s, s.mapInfo[id].nRandomPos, |s.vRandom| - 1);
  }

  /** t is s without the entry id, up to random positions. */
  ghost predicate Without(s: State, t: State, id: int) {
    && t.mapInfo.Keys == s.mapInfo.Keys - {id}
    && (forall k {:trigger s.mapInfo[k]} {:trigger t.mapInfo[k]} :: k in t.mapInfo ==>
      t.mapInfo[k] == s.mapInfo[k].(nRandomPos := t.mapInfo[k].nRandomPos))
    && t.vvNew == s.vvNew && t.vvTried == s.vvTried && t.nTried == s.nTried && t.nNew == s.nNew - 1
  }

  lemma WithoutNew(net: Net, s: State, t: State, id: int, limbo: set<int>)
    requires NewOk(net, s, limbo) && Without(s, t, id) && id in limbo
    ensures NewOk(net, t, limbo - {id})
  {
    assert RefsOk(s, id, limbo);
    assert CellsOf(s.vvNew, id) == {};
    forall k | k in t.mapInfo ensures RefsOk(t, k, limbo - {id}) { assert RefsOk(s, k, limbo); }
    forall c | c in t.vvNew ensures NewCellOk(net, t, c) {
      assert NewCellOk(net, s, c);
      assert s.vvNew[c] == id ==> c in CellsOf(s.vvNew, id);
    }
  }

  lemma WithoutTried(net: Net, s: State, t: State, id: int, uncounted: set<int>)
    requires TriedOk(net, s) && Counts(s, uncounted) && Without(s, t, id)
    requires id in s.mapInfo && !s.mapInfo[id].fInTried && id !in uncounted
    ensures TriedOk(net, t) && Counts(t, uncounted)
  {
    forall k | k in t.mapInfo ensures s.mapInfo[k].fInTried == t.mapInfo[k].fInTried {}
    assert TriedIds(t.mapInfo) == TriedIds(s.mapInfo);
    assert NewIds(t.mapInfo) - uncounted == NewIds(s.mapInfo) - uncounted - {id};
    forall c | c in t.vvTried ensures t.vvTried[c] == s.vvTried[c] {}
  }

  lemma DeleteKeeps(net: Net, s: State, id: int, limbo: set<int>, uncounted: set<int>)
    requires InvBut(net, s, limbo, uncounted) && id in limbo && id !in uncounted
    ensures CanDelete(s, id)
    ensures InvBut(net, Delete(s, id), limbo - {id}, uncounted)
  {
    DeleteIndex(s, id);
    DeleteOthers(s, id);
    var t := Delete(s, id);
    WithoutNew(net, s, t, id, limbo);
    WithoutTried(net, s, t, id, uncounted);
    forall k | k in t.mapInfo ensures TimesOk(t.mapInfo[k]) { assert TimesOk(s.mapInfo[k]); }
  }

  // -------------------------------------------------------------- ClearNew

  function LimboAfter(s: State, c: Cell, limbo: set<int>): set<int>
    requires c in s.vvNew && s.vvNew[c] in s.mapInfo
  {
    if s.mapInfo[s.vvNew[c]].nRefCount == 1 then limbo + {s.vvNew[c]} else limbo
  }

  lemma UnrefNew(net: Net, s: State, c: Cell, limbo: set<int>)
    requires NewOk(net, s, limbo) && c in s.vvNew
    ensures s.vvNew[c] in s.mapInfo && s.mapInfo[s.vvNew[c]].nRefCount > 0
    ensures s.vvNew[c] !in limbo && !s.mapInfo[s.vvNew[c]].fInTried
    ensures NewOk(net, Unref(s, c), LimboAfter(s, c, limbo))
  {
    assert NewCellOk(net, s, c);
    var id := s.vvNew[c];
    assert RefsOk(s, id, limbo);
    assert c in CellsOf(s.vvNew, id);
    var t := Unref(s, c);
    forall k | k in t.mapInfo ensures RefsOk(t, k, LimboAfter(s, c, limbo)) {
      assert RefsOk(s, k, limbo);
      CellsWithout(s.vvNew, c, k);
    }
    forall d | d in t.vvNew ensures NewCellOk(net, t, d) { assert NewCellOk(net, s, d); }
  }

  lemma UnrefTried(net: Net, s: State, c: Cell, uncounted: set<int>)
    requires TriedOk(net, s) && Counts(s, uncounted) && Times(s)
    requires c in s.vvNew && s.vvNew[c] in s.mapInfo && !s.mapInfo[s.vvNew[c]].fInTried
    ensures TriedOk(net, Unref(s, c)) && Counts(Unref(s, c), uncounted) && Times(Unref(s, c))
  {
    hide TriedOk;
    var t := Unref(s, c);
    SameTried(net, s, t);
    assert TriedIds(t.mapInfo) == TriedIds(s.mapInfo);
    assert NewIds(t.mapInfo) == NewIds(s.mapInfo);
  }

  lemma UnrefKeeps(net: Net, s: State, c: Cell, limbo: set<int>, uncounted: set<int>)
    requires InvBut(net, s, limbo, uncounted) && c in s.vvNew
    ensures s.vvNew[c] in s.mapInfo && s.mapInfo[s.vvNew[c]].nRefCount > 0 && s.vvNew[c] !in limbo
    ensures InvBut(net, Unref(s, c), LimboAfter(s, c, limbo), uncounted)
  {
    hide Index, NewOk, TriedOk, Counts, Times;
    UnrefNew(net, s, c, limbo);
    UnrefTried(net, s, c, uncounted);
    var id := s.vvNew[c];
    SameIndex(s, Unref(s, c));
  }

  /** The entry is in both, and the same up to its position in the random order. */
  ghost predicate Kept(s: State, t: State, id: int) {
    && id in s.mapInfo && id in t.mapInfo
    && t.mapInfo[id] == s.mapInfo[id].(nRandomPos := t.mapInfo[id].nRandomPos)
  }

  /** The entry has one reference less, and is gone if it had but one. */
  ghost predicate LostOne(s: State, t: State, id: int) {
    && id in s.mapInfo
    && if s.mapInfo[id].nRefCount == 1 then id !in t.mapInfo
       else && id in t.mapInfo
            && t.mapInfo[id] == s.mapInfo[id].(nRefCount := s.mapInfo[id].nRefCount - 1,
                                               nRandomPos := t.mapInfo[id].nRandomPos)
  }

  /** Freeing a cell leaves every entry but the one in it as it was, up to random positions. */
  ghost predicate Cleared(s: State, t: State, c: Cell) {
    && t.vvNew == s.vvNew - {c} && t.vvTried == s.vvTried && t.nTried == s.nTried && t.nLastGood == s.nLastGood
    && t.nIdCount == s.nIdCount && t.mapInfo.Keys <= s.mapInfo.Keys && (c in s.vvNew ==> LostOne(s, t, s.vvNew[c]))
    && forall k :: k in s.mapInfo && (c in s.vvNew ==> k != s.vvNew[c]) ==> Kept(s, t, k)
  }

  lemma ClearOthers(s: State, c: Cell)
    requires CanClear(s, c) && (c in s.vvNew ==> Index(Unref(s, c)))
    ensures Cleared(s, ClearNew(s, c), c)
  {
    if c in s.vvNew {
      var id := s.vvNew[c];
      if s.mapInfo[id].nRefCount == 1 {
        DeleteOthers(Unref(s, c), id);
      }
    }
  }

  /** ClearNew never trips an assert, frees the cell and cannot touch an entry in limbo. */
  lemma ClearKeeps(net: Net, s: State, c: Cell, limbo: set<int>, uncounted: set<int>)
    requires InvBut(net, s, limbo, uncounted) && uncounted <= limbo
    ensures CanClear(s, c)
    ensures InvBut(net, ClearNew(s, c), limbo, uncounted)
    ensures Cleared(s, ClearNew(s, c), c)
    ensures c in s.vvNew ==> s.vvNew[c] !in limbo
  {
    hide Index, NewOk, TriedOk, Counts, Times, Delete, CanDelete;
    if c in s.vvNew {
      UnrefKeeps(net, s, c, limbo, uncounted);
      var id := s.vvNew[c];
      if s.mapInfo[id].nRefCount == 1 {
        DeleteKeeps(net, Unref(s, c), id, limbo + {id}, uncounted);
        assert limbo + {id} - {id} == limbo;
      }
    }
    ClearOthers(s, c);
  }

  // ------------------------------------------------- entering the new table

  /** A limbo entry takes a free cell at its own position. */
  lemma ReferNew(net: Net, s: State, t: State, id: int, c: Cell, limbo: set<int>)
    requires NewOk(net, s, limbo) && id in s.mapInfo && !s.mapInfo[id].fInTried
    requires s.mapInfo[id].nRefCount < NEW_BUCKETS_PER_ADDRESS
    requires c !in s.vvNew && 0 <= c.bucket < NEW_BUCKET_COUNT && c == NewCell(net, s.mapInfo[id].service, c.bucket)
    requires t.mapInfo == s.mapInfo[id := s.mapInfo[id].(nRefCount := s.mapInfo[id].nRefCount + 1)]
    requires t.vvNew == s.vvNew[c := id]
    ensures NewOk(net, t, limbo - {id})
  {
    forall k | k in t.mapInfo ensures RefsOk(t, k, limbo - {id}) {
      assert RefsOk(s, k, limbo);
      CellsWith(s.vvNew, c, id, k);
    }
    forall d | d in t.vvNew ensures NewCellOk(net, t, d) {
      if d != c { assert NewCellOk(net, s, d) && t.vvNew[d] == s.vvNew[d]; }
    }
  }

  lemma ReferRest(net: Net, s: State, t: State, id: int, uncounted: set<int>)
    requires TriedOk(net, s) && Counts(s, uncounted) && Times(s)
    requires id in s.mapInfo && !s.mapInfo[id].fInTried
    requires t.mapInfo == s.mapInfo[id := s.mapInfo[id].(nRefCount := s.mapInfo[id].nRefCount + 1)]
    requires t.vvTried == s.vvTried && t.nTried == s.nTried
    requires t.nNew == if id in uncounted then s.nNew + 1 else s.nNew
    ensures TriedOk(net, t) && Counts(t, uncounted - {id}) && Times(t)
  {
    hide TriedOk;
    SameTried(net, s, t);
    assert TriedIds(t.mapInfo) == TriedIds(s.mapInfo);
    assert NewIds(t.mapInfo) == NewIds(s.mapInfo);
    assert id in NewIds(s.mapInfo);
    if id in uncounted {
      assert NewIds(t.mapInfo) - (uncounted - {id}) == (NewIds(s.mapInfo) - uncounted) + {id};
    } else {
      assert uncounted - {id} == uncounted;
    }
  }

  /** An evicted entry starts again with one reference and is counted as new. */
  lemma EnterNewKeeps(net: Net, s: State, id: int, c: Cell, limbo: set<int>, uncounted: set<int>)
    requires InvBut(net, s, limbo, uncounted) && id in limbo && id in uncounted
    requires c !in s.vvNew && 0 <= c.bucket < NEW_BUCKET_COUNT && c == NewCell(net, s.mapInfo[id].service, c.bucket)
    ensures InvBut(net, EnterNew(s, id, c), limbo - {id}, uncounted - {id})
  {
    hide NewOk, TriedOk, Counts, Times, Index;
    LimboFacts(net, s, id, limbo);
    var t := EnterNew(s, id, c);
    ReferNew(net, s, t, id, c, limbo);
    ReferRest(net, s, t, id, uncounted);
    SameIndex(s, t);
  }

  // ---------------------------------------------------------- the tried table

  lemma OwnCellsAreAll(net: Net, s: State, id: int, limbo: set<int>)
    requires NewOk(net, s, limbo) && id in s.mapInfo
    ensures OwnCells(net, s, id) == CellsOf(s.vvNew, id)
  {
    forall c | c in CellsOf(s.vvNew, id) ensures c in OwnCells(net, s, id) {
      assert NewCellOk(net, s, c);
    }
  }

  /** The loop over all buckets finds every reference, so the count reaches zero (the assert in MakeTried). */
  lemma LeaveNewNew(net: Net, s: State, id: int)
    requires NewOk(net, s, {}) && id in s.mapInfo && !s.mapInfo[id].fInTried
    ensures LeaveNew(net, s, id).mapInfo[id].nRefCount == 0
    ensures NewOk(net, LeaveNew(net, s, id), {id})
  {
    OwnCellsAreAll(net, s, id, {});
    assert RefsOk(s, id, {});
    var t := LeaveNew(net, s, id);
    forall k | k in t.mapInfo ensures RefsOk(t, k, {id}) {
      assert RefsOk(s, k, {});
      assert CellsOf(t.vvNew, k) == if k == id then {} else CellsOf(s.vvNew, k);
    }
    forall c | c in t.vvNew ensures NewCellOk(net, t, c) {
      assert NewCellOk(net, s, c);
    }
  }

  lemma LeaveNewRest(net: Net, s: State, id: int)
    requires TriedOk(net, s) && Counts(s, {}) && id in s.mapInfo && !s.mapInfo[id].fInTried
    ensures TriedOk(net, LeaveNew(net, s, id)) && Counts(LeaveNew(net, s, id), {id})
  {
    hide TriedOk;
    var t := LeaveNew(net, s, id);
    SameTried(net, s, t);
    assert TriedIds(t.mapInfo) == TriedIds(s.mapInfo);
    assert NewIds(t.mapInfo) == NewIds(s.mapInfo);
    assert id in NewIds(s.mapInfo) && NewIds(s.mapInfo) - {} == NewIds(s.mapInfo);
  }

  lemma LeaveNewKeeps(net: Net, s: State, id: int)
    requires Inv(net, s) && id in s.mapInfo && !s.mapInfo[id].fInTried
    ensures LeaveNew(net, s, id).mapInfo[id].nRefCount == 0
    ensures InvBut(net, LeaveNew(net, s, id), {id}, {id})
  {
    hide Index, NewOk, TriedOk, Counts;
    LeaveNewNew(net, s, id);
    LeaveNewRest(net, s, id);
    var t := LeaveNew(net, s, id);
    SameIndex(s, t);
    assert Times(t) by {
      forall k | k in t.mapInfo ensures TimesOk(t.mapInfo[k]) { assert TimesOk(s.mapInfo[k]); }
    }
  }

  lemma LeaveTriedNew(net: Net, s: State, c: Cell, limbo: set<int>)
    requires NewOk(net, s, limbo) && c in s.vvTried && s.vvTried[c] in s.mapInfo && s.mapInfo[s.vvTried[c]].fInTried
    ensures NewOk(net, LeaveTried(s, c), limbo + {s.vvTried[c]})
  {
    var id := s.vvTried[c];
    var t := LeaveTried(s, c);
    forall k | k in t.mapInfo ensures RefsOk(t, k, limbo + {id}) { assert RefsOk(s, k, limbo); }
    forall d | d in t.vvNew ensures NewCellOk(net, t, d) { assert NewCellOk(net, s, d); }
  }

  lemma LeaveTriedRest(net: Net, s: State, c: Cell, limbo: set<int>)
    requires TriedOk(net, s) && Counts(s, limbo) && c in s.vvTried && s.vvTried[c] in s.mapInfo
    ensures TriedOk(net, LeaveTried(s, c))
    ensures Counts(LeaveTried(s, c), limbo + {s.vvTried[c]})
  {
    var id := s.vvTried[c];
    var t := LeaveTried(s, c);
    assert TriedIds(t.mapInfo) == TriedIds(s.mapInfo) - {id};
    assert NewIds(t.mapInfo) - (limbo + {id}) == NewIds(s.mapInfo) - limbo;
  }

  lemma LeaveTriedKeeps(net: Net, s: State, c: Cell, limbo: set<int>)
    requires InvBut(net, s, limbo, limbo) && c in s.vvTried
    ensures s.vvTried[c] in s.mapInfo && s.vvTried[c] !in limbo
    ensures InvBut(net, LeaveTried(s, c), limbo + {s.vvTried[c]}, limbo + {s.vvTried[c]})
  {
    LeaveTriedNew(net, s, c, limbo);
    LeaveTriedRest(net, s, c, limbo);
    var t := LeaveTried(s, c);
    SameIndex(s, t);
    assert Times(t) by {
      forall k | k in t.mapInfo ensures TimesOk(t.mapInfo[k]) { assert TimesOk(s.mapInfo[k]); }
    }
  }

  lemma PrimaryCellFits(net: Net, a: Info)
    ensures 0 <= PrimaryCell(net, a).bucket < NEW_BUCKET_COUNT
    ensures PrimaryCell(net, a) == NewCell(net, a.service, PrimaryCell(net, a).bucket)
  {
  }

  lemma EvictHome(net: Net, s: State, c: Cell, id: int)
    requires InvBut(net, s, {id}, {id}) && c in s.vvTried
    ensures s.vvTried[c] in s.mapInfo && s.vvTried[c] != id
    ensures var t := LeaveTried(s, c); var out := s.vvTried[c]; var home := PrimaryCell(net, s.mapInfo[out]);
            && CanClear(t, home) && InvBut(net, ClearNew(t, home), {id, out}, {id, out})
            && Cleared(t, ClearNew(t, home), home) && (home in t.vvNew ==> t.vvNew[home] !in {id, out})
  {
    LeaveTriedKeeps(net, s, c, {id});
    var out := s.vvTried[c];
    var home := PrimaryCell(net, s.mapInfo[out]);
    assert {id} + {out} == {id, out};
    ClearKeeps(net, LeaveTried(s, c), home, {id, out}, {id, out});
  }

  /** Evicting makes room in the tried table; the entry being moved in, still in limbo, survives. */
  lemma EvictKeeps(net: Net, s: State, c: Cell, id: int)
    requires InvBut(net, s, {id}, {id})
    ensures CanEvict(net, s, c)
    ensures InvBut(net, Evict(net, s, c), {id}, {id})
    ensures Evict(net, s, c).vvTried == s.vvTried - {c}
    ensures id in Evict(net, s, c).mapInfo
    ensures Evict(net, s, c).mapInfo[id] == s.mapInfo[id].(nRandomPos := Evict(net, s, c).mapInfo[id].nRandomPos)
  {
    hide Index, NewOk, TriedOk, Counts, Times, ClearNew, CanClear;
    LimboFacts(net, s, id, {id});
    if c in s.vvTried {
      EvictHome(net, s, c, id);
      var out := s.vvTried[c];
      var home := PrimaryCell(net, s.mapInfo[out]);
      var t := LeaveTried(s, c);
      assert Kept(t, ClearNew(t, home), id) && Kept(t, ClearNew(t, home), out);
      PrimaryCellFits(net, s.mapInfo[out]);
      EnterNewKeeps(net, ClearNew(LeaveTried(s, c), home), out, home, {id, out}, {id, out});
      assert {id, out} - {out} == {id};
    }
  }

  lemma EnterTriedKeeps(net: Net, s: State, id: int)
    requires InvBut(net, s, {id}, {id}) && s.mapInfo[id].nLastSuccess != 0
    requires TriedCell(net, s.mapInfo[id].service) !in s.vvTried
    ensures Inv(net, EnterTried(s, id, TriedCell(net, s.mapInfo[id].service)))
  {
    hide Index, NewOk, TriedOk, Counts;
    LimboFacts(net, s, id, {id});
    var t := EnterTried(s, id, TriedCell(net, s.mapInfo[id].service));
    EnterTriedNew(net, s, id);
    EnterTriedRest(net, s, id);
    SameIndex(s, t);
    assert Times(t) by {
      forall k | k in t.mapInfo ensures TimesOk(t.mapInfo[k]) { assert TimesOk(s.mapInfo[k]); }
    }
  }

  lemma EnterTriedNew(net: Net, s: State, id: int)
    requires NewOk(net, s, {id})
    ensures NewOk(net, EnterTried(s, id, TriedCell(net, s.mapInfo[id].service)), {})
  {
    var t := EnterTried(s, id, TriedCell(net, s.mapInfo[id].service));
    forall k | k in t.mapInfo ensures RefsOk(t, k, {}) { assert RefsOk(s, k, {id}); }
    forall d | d in t.vvNew ensures NewCellOk(net, t, d) {
      assert NewCellOk(net, s, d);
      assert RefsOk(s, id, {id});
      assert s.vvNew[d] == id ==> d in CellsOf(s.vvNew, id);
    }
  }

  lemma EnterTriedRest(net: Net, s: State, id: int)
    requires TriedOk(net, s) && Counts(s, {id})
    requires id in s.mapInfo && !s.mapInfo[id].fInTried
    requires TriedCell(net, s.mapInfo[id].service) !in s.vvTried
    ensures var t := EnterTried(s, id, TriedCell(net, s.mapInfo[id].service));
            TriedOk(net, t) && Counts(t, {})
  {
    hide TriedCell, Counts;
    EnterTriedCounts(s, id, TriedCell(net, s.mapInfo[id].service));
  }

  lemma EnterTriedCounts(s: State, id: int, c: Cell)
    requires Counts(s, {id}) && id in s.mapInfo && !s.mapInfo[id].fInTried
    ensures Counts(EnterTried(s, id, c), {})
  {
    var t := EnterTried(s, id, c);
    assert TriedIds(t.mapInfo) == TriedIds(s.mapInfo) + {id};
    assert NewIds(t.mapInfo) - {} == NewIds(s.mapInfo) - {id};
  }

  /** MakeTried as a whole: none of its asserts can fail and the invariant holds again at the end. */
  lemma MakeTriedKeeps(net: Net, s: State, id: int)
    requires Inv(net, s) && id in s.mapInfo && !s.mapInfo[id].fInTried && s.mapInfo[id].nLastSuccess != 0
    ensures CanMakeTried(net, s, id)
    ensures Inv(net, MakeTried(net, s, id))
    ensures id in MakeTried(net, s, id).mapInfo && MakeTried(net, s, id).mapInfo[id].fInTried
  {
    LeaveNewKeeps(net, s, id);
    var c := TriedCell(net, s.mapInfo[id].service);
    EvictKeeps(net, LeaveNew(net, s, id), c, id);
    EnterTriedKeeps(net, Evict(net, LeaveNew(net, s, id), c), id);
  }
}
