/**
  Every run of the address manager from its constructor on keeps the consistency that
  Check_ tests, never trips an assert and never reaches the bail-out of Good_.
 */
module AddrManRuns {
  import opened AddrManModel
  import opened AddrManInvariant

  lemma InitialInv(net: Net)
    ensures Inv(net, INITIAL)
  {
    assert TriedIds(INITIAL.mapInfo) == {};
    assert NewIds(INITIAL.mapInfo) - {} == {};
  }

  /** nLastGood is outside the invariant. */
  lemma LastGoodKeeps(net: Net, s: State, time: int)
    requires Inv(net, s)
    ensures Inv(net, s.(nLastGood := time))
  {
    var t := s.(nLastGood := time);
    AlikeNew(net, s, t, {});
    AlikeTried(net, s, t, {});
    SameIndex(s, t);
  }

  // ------------------------------------------------------------------ Good_

  /** An entry that is not tried is in some bucket: the "no bucket is found" branch is dead. */
  lemma AlwaysInSomeBucket(net: Net, s: State, id: int)
    requires Inv(net, s) && id in s.mapInfo && !s.mapInfo[id].fInTried
    ensures InSomeBucket(net, s, id)
  {
    assert RefsOk(s, id, {});
    var c :| c in CellsOf(s.vvNew, id);
    assert NewCellOk(net, s, c);
    assert NewCell(net, s.mapInfo[id].service, c.bucket) == c;
  }

  lemma GoodStatsKeep(net: Net, s: State, id: int, time: int)
    requires Inv(net, s) && time > 0 && id in s.mapInfo
    ensures Inv(net, SetInfo(s.(nLastGood := time), id,
      s.mapInfo[id].(nLastSuccess := time, nLastTry := time, nAttempts := 0)))
  {
    LastGoodKeeps(net, s, time);
    SetStats(net, s.(nLastGood := time), id, s.mapInfo[id].(nLastSuccess := time, nLastTry := time, nAttempts := 0),
      {}, {});
  }

  lemma GoodKeeps(net: Net, s: State, addr: Service, time: int)
    requires Inv(net, s) && time > 0
    ensures Good(net, s, addr, time).Done?
    ensures Inv(net, Good(net, s, addr, time).s)
  {
    LastGoodKeeps(net, s, time);
    var s0 := s.(nLastGood := time);
    if Known(s, addr.ip) {
      var id := s.mapAddr[addr.ip];
      var a := s.mapInfo[id].(nLastSuccess := time, nLastTry := time, nAttempts := 0);
      SetStats(net, s0, id, a, {}, {});
      var s1 := SetInfo(s0, id, a);
      if a.service == addr && !a.fInTried {
        AlwaysInSomeBucket(net, s1, id);
        MakeTriedKeeps(net, s1, id);
      }
    }
  }

  /** A successful connection to exactly this service always ends with the entry in the tried table. */
  lemma GoodMakesTried(net: Net, s: State, addr: Service, time: int)
    requires Inv(net, s) && time > 0
    requires Known(s, addr.ip) && s.mapInfo[s.mapAddr[addr.ip]].service == addr
    ensures Good(net, s, addr, time).Done?
    ensures var t := Good(net, s, addr, time).s; var id := s.mapAddr[addr.ip];
            id in t.mapInfo && t.mapInfo[id].fInTried && t.mapInfo[id].nLastSuccess == time
  {
    GoodKeeps(net, s, addr, time);
    LastGoodKeeps(net, s, time);
    var s0 := s.(nLastGood := time);
    var id := s.mapAddr[addr.ip];
    var a := s.mapInfo[id].(nLastSuccess := time, nLastTry := time, nAttempts := 0);
    if !a.fInTried {
      SetStats(net, s0, id, a, {}, {});
      var s1 := SetInfo(s0, id, a);
      AlwaysInSomeBucket(net, s1, id);
      MakeTriedKeeps(net, s1, id);
      LeaveNewKeeps(net, s1, id);
      EvictKeeps(net, LeaveNew(net, s1, id), TriedCell(net, a.service), id);
    }
  }

  // ------------------------------------------------------------------- Add_

  lemma CreateIndex(s: State, addr: Address, source: NetAddr)
    requires Index(s) && addr.service.ip !in s.mapAddr
    ensures Index(Create(s, addr, source))
  {
    var t := Create(s, addr, source);
    forall k | k in t.mapInfo ensures Linked(t, k) {
      if k in s.mapInfo { assert Linked(s, k); }
    }
    forall i | 0 <= i < |t.vRandom| ensures t.vRandom[i] in t.mapInfo && t.mapInfo[t.vRandom[i]].nRandomPos == i {
      if i < |s.vRandom| { assert t.vRandom[i] == s.vRandom[i]; assert Linked(s, s.vRandom[i]); }
    }
  }

  lemma FreshId(s: State)
    requires Index(s)
    ensures s.nIdCount !in s.mapInfo
  {
    assert forall id :: id in s.mapInfo ==> Linked(s, id);
  }

  lemma CreatedEntry(s: State, addr: Address, source: NetAddr, penalty: int)
    ensures var t := Created(s, addr, source, penalty);
            && s.nIdCount in t.mapInfo && !t.mapInfo[s.nIdCount].fInTried && t.mapInfo[s.nIdCount].nRefCount == 0
            && t.mapInfo == s.mapInfo[s.nIdCount := t.mapInfo[s.nIdCount]]
            && t.vvTried == s.vvTried && t.nTried == s.nTried && t.nNew == s.nNew + 1
  {
  }

  lemma CreatedNew(net: Net, s: State, addr: Address, source: NetAddr, penalty: int)
    requires NewOk(net, s, {}) && s.nIdCount !in s.mapInfo
    ensures NewOk(net, Created(s, addr, source, penalty), {s.nIdCount})
  {
    var id := s.nIdCount;
    var t := Created(s, addr, source, penalty);
    assert CellsOf(s.vvNew, id) == {} by {
      forall c | c in s.vvNew ensures s.vvNew[c] != id { assert NewCellOk(net, s, c); }
    }
    forall k | k in t.mapInfo ensures RefsOk(t, k, {id}) {
      if k != id { assert RefsOk(s, k, {}); }
    }
    forall c | c in t.vvNew ensures NewCellOk(net, t, c) { assert NewCellOk(net, s, c); }
  }

  lemma AddedIds(m: map<int, Info>, id: int, a: Info)
    requires id !in m && !a.fInTried
    ensures TriedIds(m[id := a]) == TriedIds(m)
    ensures NewIds(m[id := a]) == NewIds(m) + {id} && id !in NewIds(m)
  {
  }

  lemma AddedCounts(s: State, t: State, id: int, a: Info)
    requires Counts(s, {}) && id !in s.mapInfo && !a.fInTried && t.mapInfo == s.mapInfo[id := a]
    requires t.nTried == s.nTried && t.nNew == s.nNew + 1
    ensures Counts(t, {})
  {
    hide TriedIds, NewIds;
    AddedIds(s.mapInfo, id, a);
    assert NewIds(t.mapInfo) - {} == NewIds(t.mapInfo) && NewIds(s.mapInfo) - {} == NewIds(s.mapInfo);
  }

  lemma CreatedRest(net: Net, s: State, addr: Address, source: NetAddr, penalty: int)
    requires TriedOk(net, s) && Counts(s, {}) && s.nIdCount !in s.mapInfo
    ensures TriedOk(net, Created(s, addr, source, penalty))
    ensures Counts(Created(s, addr, source, penalty), {})
  {
    hide Created, TriedOk, Counts;
    var t := Created(s, addr, source, penalty);
    CreatedEntry(s, addr, source, penalty);
    SameTried(net, s, t);
    AddedCounts(s, t, s.nIdCount, t.mapInfo[s.nIdCount]);
  }

  lemma CreatedKeeps(net: Net, s: State, addr: Address, source: NetAddr, penalty: int)
    requires Inv(net, s) && addr.service.ip !in s.mapAddr
    ensures InvBut(net, Created(s, addr, source, penalty), {s.nIdCount}, {})
  {
    FreshId(s);
    CreateIndex(s, addr, source);
    SameIndex(Create(s, addr, source), Created(s, addr, source, penalty));
    CreatedNew(net, s, addr, source, penalty);
    CreatedRest(net, s, addr, source, penalty);
    var t := Created(s, addr, source, penalty);
    assert Times(t) by {
      forall k | k in t.mapInfo ensures TimesOk(t.mapInfo[k]) { if k != s.nIdCount { assert TimesOk(s.mapInfo[k]); } }
    }
  }

  lemma EntryFacts(net: Net, s: State, id: int, limbo: set<int>)
    requires NewOk(net, s, limbo) && id in s.mapInfo
    ensures RefsOk(s, id, limbo) && (id in limbo ==> s.mapInfo[id].nRefCount == 0)
    ensures forall c :: c in s.vvNew ==> s.vvNew[c] in s.mapInfo && (s.vvNew[c] == id ==> c in CellsOf(s.vvNew, id))
  {
    forall c | c in s.vvNew ensures s.vvNew[c] in s.mapInfo { assert NewCellOk(net, s, c); }
  }

  lemma ReferKeeps(net: Net, s: State, id: int, c: Cell, limbo: set<int>)
    requires InvBut(net, s, limbo, {}) && id in s.mapInfo && !s.mapInfo[id].fInTried
    requires s.mapInfo[id].nRefCount < NEW_BUCKETS_PER_ADDRESS
    requires c !in s.vvNew && 0 <= c.bucket < NEW_BUCKET_COUNT && c == NewCell(net, s.mapInfo[id].service, c.bucket)
    ensures InvBut(net, Refer(s, id, c), limbo - {id}, {})
  {
    hide NewOk, TriedOk, Counts, Times, Index;
    var t := Refer(s, id, c);
    ReferNew(net, s, t, id, c, limbo);
    ReferRest(net, s, t, id, {});
    assert {} - {id} == {};
    SameIndex(s, t);
  }

  lemma InsertKeeps(net: Net, s: State, id: int, c: Cell, limbo: set<int>)
    requires InvBut(net, s, limbo, {}) && limbo <= {id}
    requires id in s.mapInfo && !s.mapInfo[id].fInTried && s.mapInfo[id].nRefCount < NEW_BUCKETS_PER_ADDRESS
    requires 0 <= c.bucket < NEW_BUCKET_COUNT && c == NewCell(net, s.mapInfo[id].service, c.bucket)
    requires c in s.vvNew ==> s.vvNew[c] != id
    ensures CanClear(s, c) && id in ClearNew(s, c).mapInfo
    ensures Inv(net, Refer(ClearNew(s, c), id, c))
  {
    hide Index, NewOk, TriedOk, Counts, Times, ClearNew, CanClear, Refer, NewCell;
    ClearKeeps(net, s, c, limbo, {});
    ReferKeeps(net, ClearNew(s, c), id, c, limbo);
    assert limbo - {id} == {};
  }

  /** Whatever the bucket holds, placing an entry trips no assert and leaves a consistent manager. */
  lemma PlaceKeeps(net: Net, s: State, id: int, source: NetAddr, now: int, limbo: set<int>)
    requires InvBut(net, s, limbo, {}) && limbo <= {id}
    requires id in s.mapInfo && !s.mapInfo[id].fInTried && s.mapInfo[id].nRefCount < NEW_BUCKETS_PER_ADDRESS
    ensures Place(net, s, id, source, now).Done?
    ensures Inv(net, Place(net, s, id, source, now).s)
  {
    hide Index, NewOk, TriedOk, Counts, Times, ClearNew, CanClear, Refer, Delete, CanDelete, IsTerrible;
    var a := s.mapInfo[id];
    var c := NewCell(net, a.service, NewBucket(net, a.service, source));
    EntryFacts(net, s, id, limbo);
    if c in s.vvNew && s.vvNew[c] == id {
      assert id !in limbo && limbo == {};
    } else {
      InsertKeeps(net, s, id, c, limbo);
      if a.nRefCount == 0 {
        assert limbo == {id};
        DeleteKeeps(net, s, id, limbo, {});
        assert limbo - {id} == {};
      } else {
        assert id !in limbo && limbo == {};
      }
    }
  }

  lemma KnownIffListed(s: State, ip: NetAddr)
    requires Index(s)
    ensures Known(s, ip) <==> ip in s.mapAddr
    ensures ip in s.mapAddr ==> s.mapAddr[ip] in s.mapInfo
    ensures s.nIdCount !in s.mapInfo
  {
    FreshId(s);
  }

  lemma TimesAt(s: State, id: int)
    requires Times(s) && id in s.mapInfo
    ensures TimesOk(s.mapInfo[id])
  {
  }

  lemma AddKnownKeeps(net: Net, s: State, id: int, addr: Address, source: NetAddr, penalty: int, now: int)
    requires Inv(net, s) && id in s.mapInfo
    ensures var a := Refreshed(s.mapInfo[id], addr, penalty, now);
            && Inv(net, SetInfo(s, id, a))
            && (!a.fInTried && a.nRefCount != NEW_BUCKETS_PER_ADDRESS ==>
                  Place(net, SetInfo(s, id, a), id, source, now).Done? &&
                  Inv(net, Place(net, SetInfo(s, id, a), id, source, now).s))
  {
    hide Index, NewOk, TriedOk, Counts, Times;
    TimesAt(s, id);
    var a := Refreshed(s.mapInfo[id], addr, penalty, now);
    SetStats(net, s, id, a, {}, {});
    var s1 := SetInfo(s, id, a);
    EntryFacts(net, s1, id, {});
    if !a.fInTried && a.nRefCount != NEW_BUCKETS_PER_ADDRESS { PlaceKeeps(net, s1, id, source, now, {}); }
  }

  lemma AddKeeps(net: Net, s: State, addr: Address, source: NetAddr, timePenalty: int, now: int, rnd: nat)
    requires Inv(net, s)
    ensures Add(net, s, addr, source, timePenalty, now, rnd).Done?
    ensures Inv(net, Add(net, s, addr, source, timePenalty, now, rnd).s)
  {
    hide Index, NewOk, TriedOk, Counts, Times, Place, Refreshed, Created, SetInfo, Known;
    KnownIffListed(s, addr.service.ip);
    CreatedEntry(s, addr, source, if addr.service.ip == source then 0 else timePenalty);
    var penalty := if addr.service.ip == source then 0 else timePenalty;
    if Known(s, addr.service.ip) {
      AddKnownKeeps(net, s, s.mapAddr[addr.service.ip], addr, source, penalty, now);
    } else {
      CreatedKeeps(net, s, addr, source, penalty);
      PlaceKeeps(net, Created(s, addr, source, penalty), s.nIdCount, source, now, {s.nIdCount});
    }
  }

  // ---------------------------------------------------------------- GetAddr_

  ghost predicate Distinct(ids: seq<int>) {
    forall i, j :: 0 <= i < j < |ids| ==> ids[i] != ids[j]
  }

  /** Swapping positions at or after n leaves the earlier ones alone. */
  lemma SwapKeepsPrefix(s: State, n: nat, j: int)
    requires Index(s) && n <= j < |s.vRandom| && CanSwap(s, n, j)
    ensures SwapRandom(s, n, j).vRandom[..n] == s.vRandom[..n]
  {
  }

  lemma VRandomDistinct(s: State)
    requires Index(s)
    ensures Distinct(s.vRandom)
    ensures forall i :: 0 <= i < |s.vRandom| ==> s.vRandom[i] in s.mapInfo
  {
  }

  /** What the loop of GetAddr_ has gathered: the entries of the first n positions that are not terrible. */
  ghost predicate GatheredOk(s: State, n: nat, ids: seq<int>, now: int) {
    && n <= |s.vRandom| && Distinct(ids)
    && (forall i :: 0 <= i < |ids| ==>
          ids[i] in s.vRandom[..n] && ids[i] in s.mapInfo && !IsTerrible(s.mapInfo[ids[i]], now))
    && (forall i :: 0 <= i < n && s.vRandom[i] in s.mapInfo && !IsTerrible(s.mapInfo[s.vRandom[i]], now) ==>
      s.vRandom[i] in ids)
  }

  /** The same entries, up to their random positions. */
  ghost predicate SameEntries(s: State, t: State) {
    && t.mapInfo.Keys == s.mapInfo.Keys
    && forall k {:trigger t.mapInfo[k]} {:trigger s.mapInfo[k]} ::
         k in t.mapInfo ==> t.mapInfo[k] == s.mapInfo[k].(nRandomPos := t.mapInfo[k].nRandomPos)
  }

  /** Distinct known entries, none terrible; and either as many as the limit allows or all there are. */
  ghost predicate GatheredAll(s: State, ids: seq<int>, limit: int, now: int) {
    && Distinct(ids) && |ids| <= limit
    && (forall id :: id in ids ==> id in s.mapInfo && !IsTerrible(s.mapInfo[id], now))
    && (|ids| == limit || forall id :: id in s.mapInfo && !IsTerrible(s.mapInfo[id], now) ==> id in ids)
  }

  /** GetAddr_ only reorders; it gathers entries that are not terrible, and stops at the limit or with all of them. */
  lemma {:induction false} GetAddrKeeps(net: Net, s: State, n: nat, ids: seq<int>, limit: int, now: int,
    rnd: nat -> nat)
    requires Inv(net, s) && GatheredOk(s, n, ids, now) && |ids| <= limit
    ensures var g := GetAddr(s, n, ids, limit, now, rnd);
            && g.outcome.Done? && Inv(net, g.outcome.s)
            && SameEntries(s, g.outcome.s) && GatheredAll(s, g.ids, limit, now)
    decreases |s.vRandom| - n
  {
    hide Inv, GatheredOk, GatheredAll, SameEntries, IsTerrible, SwapRandom, GetAddr, CanSwap;
    GatheredBound(s, n, ids, now);
    if n < |s.vRandom| && |ids| < limit {
      var j := rnd(n) % (|s.vRandom| - n) + n;
      GetAddrUnfold(net, s, n, ids, limit, now, rnd);
      var ids' := GetAddrRound(net, s, n, j, ids, now);
      var t, g := SwapRandom(s, n, j), GetAddr(s, n, ids, limit, now, rnd);
      GetAddrKeeps(net, t, n + 1, ids', limit, now, rnd);
      SameTwice(s, t, g.outcome.s, g.ids, limit, now);
    } else {
      GetAddrStops(s, n, ids, limit, now, rnd);
      GatheredEnds(net, s, n, ids, limit, now);
    }
  }

  lemma GetAddrUnfold(net: Net, s: State, n: nat, ids: seq<int>, limit: int, now: int, rnd: nat -> nat)
    requires Inv(net, s) && n < |s.vRandom| && |ids| < limit
    ensures var j := rnd(n) % (|s.vRandom| - n) + n;
            && CanSwap(s, n, j) && Inv(net, SwapRandom(s, n, j))
            && var t := SwapRandom(s, n, j);
               && |t.vRandom| == |s.vRandom| && t.vRandom[n] in t.mapInfo
               && var ids' := if IsTerrible(t.mapInfo[t.vRandom[n]], now) then ids else ids + [t.vRandom[n]];
                  GetAddr(s, n, ids, limit, now, rnd) == GetAddr(t, n + 1, ids', limit, now, rnd)
  {
    hide Index, NewOk, TriedOk, Counts, Times, SwapRandom, CanSwap, IsTerrible;
    var j := rnd(n) % (|s.vRandom| - n) + n;
    SwapKeeps(net, s, n, j);
    SwapOthers(s, n, j);
    VRandomDistinct(SwapRandom(s, n, j));
  }

  lemma GetAddrStops(s: State, n: nat, ids: seq<int>, limit: int, now: int, rnd: nat -> nat)
    requires n >= |s.vRandom| || |ids| >= limit
    ensures GetAddr(s, n, ids, limit, now, rnd) == Gathered(Done(s), ids)
  {
  }

  lemma SameTwice(s: State, t: State, u: State, ids: seq<int>, limit: int, now: int)
    requires SameEntries(s, t) && SameEntries(t, u) && GatheredAll(t, ids, limit, now)
    ensures SameEntries(s, u) && GatheredAll(s, ids, limit, now)
  {
    hide Distinct, IsTerrible;
    forall id | id in s.mapInfo ensures IsTerrible(s.mapInfo[id], now) == IsTerrible(t.mapInfo[id], now) {
      SameQuality(s, t, id, now);
    }
  }

  lemma GatheredEnds(net: Net, s: State, n: nat, ids: seq<int>, limit: int, now: int)
    requires Inv(net, s) && GatheredOk(s, n, ids, now) && |ids| <= limit && (n >= |s.vRandom| || |ids| >= limit)
    ensures SameEntries(s, s) && GatheredAll(s, ids, limit, now)
  {
    hide NewOk, TriedOk, Counts, Times, IsTerrible, Distinct;
    if |ids| < limit {
      forall id | id in s.mapInfo && !IsTerrible(s.mapInfo[id], now) ensures id in ids {
        assert Linked(s, id);
        assert s.vRandom[s.mapInfo[id].nRandomPos] in ids;
      }
    }
  }

  lemma GatheredBound(s: State, n: nat, ids: seq<int>, now: int)
    requires GatheredOk(s, n, ids, now)
    ensures n <= |s.vRandom|
  {
  }

  lemma GetAddrRound(net: Net, s: State, n: nat, j: int, ids: seq<int>, now: int) returns (ids': seq<int>)
    requires Inv(net, s) && n <= j < |s.vRandom| && GatheredOk(s, n, ids, now)
    ensures CanSwap(s, n, j)
    ensures var t := SwapRandom(s, n, j);
            && Inv(net, t) && |t.vRandom| == |s.vRandom| && t.vRandom[n] in t.mapInfo
            && ids' == (if IsTerrible(t.mapInfo[t.vRandom[n]], now) then ids else ids + [t.vRandom[n]])
            && SameEntries(s, t) && GatheredOk(t, n + 1, ids', now)
  {
    hide SwapRandom, NewOk, TriedOk, Counts, Times, GatheredOk;
    SwapKeeps(net, s, n, j);
    SwapOthers(s, n, j);
    SwapKeepsPrefix(s, n, j);
    var t := SwapRandom(s, n, j);
    ids' := if IsTerrible(t.mapInfo[t.vRandom[n]], now) then ids else ids + [t.vRandom[n]];
    GatheredMoves(s, t, n, ids, now);
    GatheredNext(t, n, ids, now);
  }

  /** Only positions from n on were swapped. */
  lemma GatheredMoves(s: State, t: State, n: nat, ids: seq<int>, now: int)
    requires |t.vRandom| == |s.vRandom| && n <= |s.vRandom| && t.vRandom[..n] == s.vRandom[..n]
    requires SameEntries(s, t) && GatheredOk(s, n, ids, now)
    ensures GatheredOk(t, n, ids, now)
  {
    hide Distinct, IsTerrible;
    forall id | id in s.mapInfo ensures IsTerrible(s.mapInfo[id], now) == IsTerrible(t.mapInfo[id], now) {
      SameQuality(s, t, id, now);
    }
    forall i | 0 <= i < n ensures t.vRandom[i] == s.vRandom[i] { assert t.vRandom[..n][i] == s.vRandom[..n][i]; }
  }

  lemma SameQuality(s: State, t: State, id: int, now: int)
    requires SameEntries(s, t) && id in s.mapInfo
    ensures IsTerrible(s.mapInfo[id], now) == IsTerrible(t.mapInfo[id], now)
  {
    assert t.mapInfo[id] == s.mapInfo[id].(nRandomPos := t.mapInfo[id].nRandomPos);
  }

  /** One more position. */
  lemma GatheredNext(t: State, n: nat, ids: seq<int>, now: int)
    requires Index(t) && n < |t.vRandom| && GatheredOk(t, n, ids, now)
    ensures var id := t.vRandom[n];
            var ids' := if IsTerrible(t.mapInfo[id], now) then ids else ids + [id];
            GatheredOk(t, n + 1, ids', now)
  {
    hide Index, IsTerrible;
    VRandomDistinct(t);
    assert t.vRandom[..n + 1] == t.vRandom[..n] + [t.vRandom[n]];
    forall i | 0 <= i < |ids| ensures ids[i] != t.vRandom[n] { assert ids[i] in t.vRandom[..n]; }
  }

  // -------------------------------------------------------------------- runs

  datatype Op =
    | OpAdd(addr: Address, source: NetAddr, timePenalty: int, now: int, rnd: nat)
    | OpGood(service: Service, time: int)
    | OpAttempt(service: Service, countFailure: bool, time: int)
    | OpConnected(service: Service, time: int)
    | OpSetServices(service: Service, services: bv64)
    | OpGetAddr(now: int, draws: nat -> nat)

  predicate PositiveTime(op: Op) {
    match op
    case OpGood(_, time) => time > 0
    case OpAttempt(_, _, time) => time > 0
    case _ => true
  }

  function Step(net: Net, s: State, op: Op): Outcome {
    match op
    case OpAdd(addr, source, timePenalty, now, rnd) => Add(net, s, addr, source, timePenalty, now, rnd)
    case OpGood(service, time) => Good(net, s, service, time)
    case OpAttempt(service, countFailure, time) => Done(Attempt(s, service, countFailure, time))
    case OpConnected(service, time) => Done(Connected(s, service, time))
    case OpSetServices(service, services) => Done(SetServices(s, service, services))
    case OpGetAddr(now, draws) => GetAddr(s, 0, [], GetAddrLimit(s), now, draws).outcome
  }

  lemma StepKeeps(net: Net, s: State, op: Op)
    requires Inv(net, s) && PositiveTime(op)
    ensures Step(net, s, op).Done?
    ensures Inv(net, Step(net, s, op).s)
  {
    match op
    case OpAdd(addr, source, timePenalty, now, rnd) => AddKeeps(net, s, addr, source, timePenalty, now, rnd);
    case OpGood(service, time) => GoodKeeps(net, s, service, time);
    case OpAttempt(service, _, _) => StatsStep(net, s, op, service);
    case OpConnected(service, _) => StatsStep(net, s, op, service);
    case OpSetServices(service, _) => StatsStep(net, s, op, service);
    case OpGetAddr(now, draws) => GetAddrKeeps(net, s, 0, [], GetAddrLimit(s), now, draws);
  }

  lemma StatsStep(net: Net, s: State, op: Op, service: Service)
    requires Inv(net, s) && PositiveTime(op)
    requires (op.OpAttempt? || op.OpConnected? || op.OpSetServices?) && service == op.service
    ensures Step(net, s, op).Done? && Inv(net, Step(net, s, op).s)
  {
    var t := Step(net, s, op).s;
    if Known(s, service.ip) && t != s {
      var id := s.mapAddr[service.ip];
      assert TimesOk(s.mapInfo[id]);
      assert t == SetInfo(s, id, t.mapInfo[id]);
      SetStats(net, s, id, t.mapInfo[id], {}, {});
    }
  }

  function Run(net: Net, s: State, ops: seq<Op>): Outcome
    decreases |ops|
  {
    if ops == [] then Done(s)
    else match Step(net, s, ops[0])
      case AssertFailed => AssertFailed
      case Done(t) => Run(net, t, ops[1..])
  }

  /** The theorem: from the constructor, over every run, no assert fails and the tables stay consistent. */
  lemma {:induction false} RunKeeps(net: Net, s: State, ops: seq<Op>)
    requires Inv(net, s) && forall i :: 0 <= i < |ops| ==> PositiveTime(ops[i])
    ensures Run(net, s, ops).Done? && Inv(net, Run(net, s, ops).s)
    decreases |ops|
  {
    if ops != [] {
      StepKeeps(net, s, ops[0]);
      RunKeeps(net, Step(net, s, ops[0]).s, ops[1..]);
    }
  }
}
