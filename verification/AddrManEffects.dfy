/**
  What each operation of the address manager does to the entries, in terms of the addresses a caller
  knows: who is known afterwards, with what data, in which cells, and who is left as it was.
 */
module AddrManEffects {
  import opened Common
  import opened AddrManModel
  import opened AddrManInvariant
  import opened AddrManRuns

  /** All other entries are as they were, except that `out` lost a reference. */
  ghost predicate OthersKept(s: State, t: State, id: int, out: Option<int>) {
    && t.mapInfo.Keys <= s.mapInfo.Keys + {id}
    && (out.Some? ==> out.value != id && LostOne(s, t, out.value))
    && forall k :: k in s.mapInfo && k != id && out != Some(k) ==> Kept(s, t, k)
  }

  function Occupant(s: State, c: Cell): Option<int> {
    if c in s.vvNew then Some(s.vvNew[c]) else None
  }

  // ------------------------------------------------------------------- Add_

  /** The cell that a source selects for an address. */
  function CellFor(net: Net, service: Service, source: NetAddr): Cell {
    NewCell(net, service, NewBucket(net, service, source))
  }

  /** The cell is free, or what is in it is terrible or can spare the reference to an entry that has none. */
  ghost predicate MayTake(s: State, c: Cell, now: int, hasNone: bool) {
    c in s.vvNew ==>
      && s.vvNew[c] in s.mapInfo
      && (IsTerrible(s.mapInfo[s.vvNew[c]], now) || (s.mapInfo[s.vvNew[c]].nRefCount > 1 && hasNone))
  }

  lemma PlaceTakes(net: Net, s: State, id: int, source: NetAddr, now: int, limbo: set<int>)
    requires InvBut(net, s, limbo, {}) && limbo <= {id}
    requires id in s.mapInfo && !s.mapInfo[id].fInTried && s.mapInfo[id].nRefCount < NEW_BUCKETS_PER_ADDRESS
    requires var c := CellFor(net, s.mapInfo[id].service, source);
      Occupant(s, c) != Some(id) && MayTake(s, c, now, s.mapInfo[id].nRefCount == 0)
    ensures Place(net, s, id, source, now).Done?
    ensures var c, t := CellFor(net, s.mapInfo[id].service, source), Place(net, s, id, source, now).s;
      && t.vvNew == s.vvNew[c := id] && t.vvTried == s.vvTried && t.nLastGood == s.nLastGood
      && id in t.mapInfo
      && t.mapInfo[id] == s.mapInfo[id].(nRefCount := s.mapInfo[id].nRefCount + 1,
                                         nRandomPos := t.mapInfo[id].nRandomPos)
      && OthersKept(s, t, id, Occupant(s, c))
  {
    hide Index, NewOk, TriedOk, Counts, Times, IsTerrible, ClearNew, CanClear, NewCell;
    PlaceKeeps(net, s, id, source, now, limbo);
    var c := CellFor(net, s.mapInfo[id].service, source);
    EntryFacts(net, s, id, limbo);
    ClearKeeps(net, s, c, limbo, {});
    var u := ClearNew(s, c);
    var t := Place(net, s, id, source, now).s;
    assert Kept(s, u, id);
    assert t == Refer(u, id, c);
    assert t.vvNew == s.vvNew[c := id];
    forall k | k in s.mapInfo && k != id && Occupant(s, c) != Some(k) ensures Kept(s, t, k) { assert Kept(s, u, k); }
  }

  lemma PlaceLeaves(net: Net, s: State, id: int, source: NetAddr, now: int, limbo: set<int>)
    requires InvBut(net, s, limbo, {}) && limbo <= {id}
    requires id in s.mapInfo && !s.mapInfo[id].fInTried && s.mapInfo[id].nRefCount < NEW_BUCKETS_PER_ADDRESS
    requires var c := CellFor(net, s.mapInfo[id].service, source);
      Occupant(s, c) == Some(id) || !MayTake(s, c, now, s.mapInfo[id].nRefCount == 0)
    ensures Place(net, s, id, source, now).Done?
    ensures var t := Place(net, s, id, source, now).s;
      if s.mapInfo[id].nRefCount > 0 then t == s
      else && id !in t.mapInfo && OthersKept(s, t, id, None)
           && t.vvNew == s.vvNew && t.vvTried == s.vvTried && t.nLastGood == s.nLastGood
  {
    hide Index, NewOk, TriedOk, Counts, Times, IsTerrible, ClearNew, CanClear, NewCell, Delete, CanDelete;
    PlaceKeeps(net, s, id, source, now, limbo);
    EntryFacts(net, s, id, limbo);
    if s.mapInfo[id].nRefCount == 0 {
      DeleteKeeps(net, s, id, limbo, {});
      DeleteOthers(s, id);
      var t := Delete(s, id);
      forall k | k in s.mapInfo && k != id ensures Kept(s, t, k) {}
    }
  }

  /** An address is known exactly if some entry has it. */
  lemma KnownByEntry(s: State, ip: NetAddr)
    requires Index(s)
    ensures Known(s, ip) ==> s.mapInfo[s.mapAddr[ip]].service.ip == ip
    ensures forall id :: id in s.mapInfo && s.mapInfo[id].service.ip == ip ==> Known(s, ip) && s.mapAddr[ip] == id
  {
    forall id | id in s.mapInfo && s.mapInfo[id].service.ip == ip ensures Known(s, ip) && s.mapAddr[ip] == id {
      LinkedAt(s, id);
    }
  }

  function Penalty(addr: Address, source: NetAddr, timePenalty: int): int {
    if addr.service.ip == source then 0 else timePenalty
  }

  /** The time an address is credited with: what was announced less the penalty. */
  function Credited(addr: Address, source: NetAddr, timePenalty: int): int {
    Max(0, addr.nTime - Penalty(addr, source, timePenalty))
  }

  /** Entry id is now a, with one more reference, from cell c, or without. */
  ghost predicate Rewritten(s: State, t: State, id: int, a: Info, c: Cell, another: bool) {
    && id in t.mapInfo && t.vvTried == s.vvTried && t.nLastGood == s.nLastGood
    && t.mapInfo[id] == a.(nRefCount := if another then a.nRefCount + 1 else a.nRefCount,
                           nRandomPos := t.mapInfo[id].nRandomPos)
    && t.vvNew == (if another then s.vvNew[c := id] else s.vvNew)
    && OthersKept(s, t, id, if another then Occupant(s, c) else None)
  }

  /** A new entry as announced, without any reference yet. */
  function Announced(addr: Address, source: NetAddr, timePenalty: int, pos: int): Info {
    Info(addr.service, addr.nServices, Credited(addr, source, timePenalty), source, 0, 0, 0, 0, 0, false, pos)
  }

  /**
    A routable address that is not known yet: it becomes known, with the announced data and one
    reference in the cell its source selects, exactly if that cell may be taken; otherwise it stays
    unknown.  Everybody else is as before, but for whoever was in that cell.
   */
  lemma AddUnknown(net: Net, s: State, addr: Address, source: NetAddr, timePenalty: int, now: int, rnd: nat)
    requires Inv(net, s) && net.routable(addr.service.ip) && !Known(s, addr.service.ip)
    ensures Add(net, s, addr, source, timePenalty, now, rnd).Done?
    ensures var t, ip := Add(net, s, addr, source, timePenalty, now, rnd).s, addr.service.ip;
      var c, id := CellFor(net, addr.service, source), s.nIdCount;
      && id !in s.mapInfo && (Known(t, ip) <==> MayTake(s, c, now, true))
      && (Known(t, ip) ==> && t.mapAddr[ip] == id && t.mapInfo[id].nRefCount == 1
                           && Rewritten(s, t, id, Announced(addr, source, timePenalty, |s.vRandom|), c, true))
      && (!Known(t, ip) ==> && t.vvNew == s.vvNew && t.vvTried == s.vvTried && t.nLastGood == s.nLastGood
                            && t.mapInfo.Keys == s.mapInfo.Keys && forall k :: k in s.mapInfo ==> Kept(s, t, k))
  {
    hide Index, NewOk, TriedOk, Counts, Times, IsTerrible, Place, Created, Known, CellFor, Add, Credited, Penalty;
    var ip, c, id := addr.service.ip, CellFor(net, addr.service, source), s.nIdCount;
    var penalty := Penalty(addr, source, timePenalty);
    KnownIffListed(s, ip);
    CreatedKeeps(net, s, addr, source, penalty);
    var u := Created(s, addr, source, penalty);
    CreatedData(s, addr, source, timePenalty);
    NewTableFacts(net, s, c);
    AddKeeps(net, s, addr, source, timePenalty, now, rnd);
    AddUnknownIs(net, s, addr, source, timePenalty, now, rnd);
    var t := Place(net, u, id, source, now).s;
    if MayTake(s, c, now, true) {
      PlaceTakes(net, u, id, source, now, {id});
      forall k | k in s.mapInfo && Kept(u, t, k) ensures Kept(s, t, k) {}
      KnownByEntry(t, ip);
    } else {
      PlaceLeaves(net, u, id, source, now, {id});
      LeftAlone(s, u, t, id);
      StillUnknown(s, t, ip);
    }
  }

  lemma LeftAlone(s: State, u: State, t: State, id: int)
    requires u.mapInfo.Keys == s.mapInfo.Keys + {id} && id !in s.mapInfo && id !in t.mapInfo
    requires forall k :: k in s.mapInfo ==> u.mapInfo[k] == s.mapInfo[k]
    requires OthersKept(u, t, id, None)
    ensures t.mapInfo.Keys == s.mapInfo.Keys && forall k :: k in s.mapInfo ==> Kept(s, t, k)
  {
    forall k | k in s.mapInfo ensures Kept(s, t, k) { assert Kept(u, t, k); }
    forall k | k in t.mapInfo ensures k in s.mapInfo { assert k in u.mapInfo.Keys + {id}; }
    forall k | k in s.mapInfo ensures k in t.mapInfo { assert Kept(s, t, k); }
    assert t.mapInfo.Keys == s.mapInfo.Keys;
  }

  lemma StillUnknown(s: State, t: State, ip: NetAddr)
    requires Index(s) && Index(t) && !Known(s, ip)
    requires t.mapInfo.Keys == s.mapInfo.Keys && forall k :: k in s.mapInfo ==> Kept(s, t, k)
    ensures !Known(t, ip)
  {
    KnownByEntry(s, ip);
    KnownByEntry(t, ip);
    forall k | k in t.mapInfo ensures t.mapInfo[k].service.ip != ip { assert Kept(s, t, k); }
  }

  lemma AddUnknownIs(net: Net, s: State, addr: Address, source: NetAddr, timePenalty: int, now: int, rnd: nat)
    requires net.routable(addr.service.ip) && !Known(s, addr.service.ip)
    ensures var u := Created(s, addr, source, Penalty(addr, source, timePenalty));
      Add(net, s, addr, source, timePenalty, now, rnd) == Place(net, u, s.nIdCount, source, now)
  {
    hide Place, Created;
  }

  lemma CreatedData(s: State, addr: Address, source: NetAddr, timePenalty: int)
    ensures var u, id := Created(s, addr, source, Penalty(addr, source, timePenalty)), s.nIdCount;
      && u.vvNew == s.vvNew && u.vvTried == s.vvTried && u.nLastGood == s.nLastGood
      && u.mapInfo == s.mapInfo[id := Announced(addr, source, timePenalty, |s.vRandom|)]
  {
  }

  lemma NewTableFacts(net: Net, s: State, c: Cell)
    requires Inv(net, s)
    ensures s.nIdCount !in s.mapInfo
    ensures c in s.vvNew ==> s.vvNew[c] in s.mapInfo && s.vvNew[c] != s.nIdCount
  {
    FreshId(s);
    if c in s.vvNew { assert NewCellOk(net, s, c); }
  }

  /** The time a known entry has after an announcement: renewed if it is older by more than an update interval. */
  function RenewedTime(a: Info, addr: Address, penalty: int, now: int): int {
    var interval := if now - addr.nTime < 86400 then 3600 else 86400;
    if addr.nTime != 0 && (a.nTime == 0 || addr.nTime - penalty > a.nTime + interval)
    then Max(0, addr.nTime - penalty) else a.nTime
  }

  /** The entry after an announcement: nothing changes but the time and the services, which only grow. */
  function Renewed(a: Info, addr: Address, penalty: int, now: int): Info {
    a.(nServices := a.nServices | addr.nServices, nTime := RenewedTime(a, addr, penalty, now))
  }

  /**
    The announcement is news for a new entry with fewer than eight references, the draw (one in two to
    the number of references) hits, and the selected cell is not its own and free or held by a terrible entry.
   */
  ghost predicate GainsOne(s: State, id: int, c: Cell, time: int, announced: int, now: int, rnd: nat)
    requires id in s.mapInfo && s.mapInfo[id].nRefCount >= 0
  {
    var a := s.mapInfo[id];
    && announced != 0 && (time == 0 || announced > time)
    && !a.fInTried && a.nRefCount < NEW_BUCKETS_PER_ADDRESS && rnd % Pow2(a.nRefCount) == 0
    && Occupant(s, c) != Some(id) && MayTake(s, c, now, false)
  }

  /**
    An address that is known already keeps its entry.  Its services grow by the announced ones, its time
    is renewed when due, and it may gain a reference in the cell its source selects.
   */
  lemma AddKnown(net: Net, s: State, addr: Address, source: NetAddr, timePenalty: int, now: int, rnd: nat)
    requires Inv(net, s) && net.routable(addr.service.ip) && Known(s, addr.service.ip)
    ensures s.mapInfo[s.mapAddr[addr.service.ip]].nRefCount >= 0
    ensures Add(net, s, addr, source, timePenalty, now, rnd).Done?
    ensures var t, id := Add(net, s, addr, source, timePenalty, now, rnd).s, s.mapAddr[addr.service.ip];
      var a := Renewed(s.mapInfo[id], addr, Penalty(addr, source, timePenalty), now);
      var c := CellFor(net, a.service, source);
      Rewritten(s, t, id, a, c, GainsOne(s, id, c, a.nTime, addr.nTime, now, rnd))
  {
    hide Index, NewOk, TriedOk, Counts, Times, Place, Rewritten, RefsOk, MayTake, Refreshed, MayRefer, GainsOne, Max;
    hide CellFor, Renewed, Add, Penalty, SetInfo, Known;
    KnownIffListed(s, addr.service.ip);
    var id := s.mapAddr[addr.service.ip];
    EntryFacts(net, s, id, {});
    RefsInRange(s, id);
    var penalty := Penalty(addr, source, timePenalty);
    AddKnownKeeps(net, s, id, addr, source, penalty, now);
    RefreshedData(s.mapInfo[id], addr, penalty, now);
    var r := Renewed(s.mapInfo[id], addr, penalty, now);
    var c := CellFor(net, r.service, source);
    GainsIff(s, id, c, r, addr, now, rnd);
    RewriteInfo(net, s, id, r, source, now, r.service);
    AddKnownIs(net, s, addr, source, timePenalty, now, rnd);
    MayReferFacts(r, addr, rnd);
  }

  lemma AddKnownIs(net: Net, s: State, addr: Address, source: NetAddr, timePenalty: int, now: int, rnd: nat)
    requires net.routable(addr.service.ip) && Known(s, addr.service.ip)
    ensures var id := s.mapAddr[addr.service.ip];
      var r := Refreshed(s.mapInfo[id], addr, Penalty(addr, source, timePenalty), now);
      Add(net, s, addr, source, timePenalty, now, rnd) ==
        if MayRefer(r, addr, rnd) then Place(net, SetInfo(s, id, r), id, source, now) else Done(SetInfo(s, id, r))
  {
    hide Place, Refreshed, MayRefer;
  }

  lemma RefreshedData(a: Info, addr: Address, penalty: int, now: int)
    ensures var r := Renewed(a, addr, penalty, now);
      && Refreshed(a, addr, penalty, now) == r
      && r.nRefCount == a.nRefCount && r.fInTried == a.fInTried && r.service == a.service
  {
    hide Max;
  }

  lemma MayReferFacts(a: Info, addr: Address, rnd: nat)
    ensures MayRefer(a, addr, rnd) ==> !a.fInTried && a.nRefCount != NEW_BUCKETS_PER_ADDRESS
  {
  }

  lemma GainsIff(s: State, id: int, c: Cell, r: Info, addr: Address, now: int, rnd: nat)
    requires id in s.mapInfo && 0 <= s.mapInfo[id].nRefCount <= NEW_BUCKETS_PER_ADDRESS
    requires r.fInTried == s.mapInfo[id].fInTried && r.nRefCount == s.mapInfo[id].nRefCount
    ensures GainsOne(s, id, c, r.nTime, addr.nTime, now, rnd) <==>
      MayRefer(r, addr, rnd) && Occupant(s, c) != Some(id) && MayTake(s, c, now, false)
  {
    hide MayTake, Occupant, Pow2;
    DrawIsModulo(rnd, r.nRefCount);
  }

  lemma RefsInRange(s: State, id: int)
    requires id in s.mapInfo && RefsOk(s, id, {})
    ensures 0 <= s.mapInfo[id].nRefCount <= NEW_BUCKETS_PER_ADDRESS
    ensures !s.mapInfo[id].fInTried ==> s.mapInfo[id].nRefCount > 0
  {
  }

  /** New statistics for an entry, and then possibly one more reference. */
  lemma RewriteInfo(net: Net, s: State, id: int, a: Info, source: NetAddr, now: int, service: Service)
    requires Inv(net, s) && id in s.mapInfo && Inv(net, SetInfo(s, id, a)) && a.service == service
    ensures var c := CellFor(net, service, source); var s1 := SetInfo(s, id, a);
      && Rewritten(s, s1, id, a, c, false)
      && (!a.fInTried && 0 < a.nRefCount < NEW_BUCKETS_PER_ADDRESS ==>
            && Place(net, s1, id, source, now).Done?
            && Rewritten(s, Place(net, s1, id, source, now).s, id, a, c,
                 Occupant(s, c) != Some(id) && MayTake(s, c, now, false)))
  {
    hide Index, NewOk, TriedOk, Counts, Times, IsTerrible, Place, NewCell, NewBucket;
    var c := CellFor(net, service, source);
    var s1 := SetInfo(s, id, a);
    forall k | k in s.mapInfo && k != id ensures Kept(s, s1, k) {}
    if !a.fInTried && 0 < a.nRefCount < NEW_BUCKETS_PER_ADDRESS {
      if Occupant(s1, c) != Some(id) && MayTake(s1, c, now, false) {
        PlaceTakes(net, s1, id, source, now, {});
      } else {
        PlaceLeaves(net, s1, id, source, now, {});
      }
      var t := Place(net, s1, id, source, now).s;
      forall k | k in s.mapInfo && k != id && Kept(s1, t, k) ensures Kept(s, t, k) {}
    }
  }

  lemma DrawIsModulo(rnd: nat, refs: nat)
    ensures Pow2(refs) >= 1 && rnd % 1 == 0
    ensures (Pow2(refs) > 1 ==> rnd % Pow2(refs) == 0) <==> rnd % Pow2(refs) == 0
  {
  }

  /** Addresses that cannot be routed to are not taken note of. */
  lemma AddUnroutable(net: Net, s: State, addr: Address, source: NetAddr, timePenalty: int, now: int, rnd: nat)
    requires !net.routable(addr.service.ip)
    ensures Add(net, s, addr, source, timePenalty, now, rnd) == Done(s)
  {
  }

  // ------------------------------------------------------------------ Good_

  /** The address is known, with this port. */
  predicate KnownAs(s: State, addr: Service) {
    Known(s, addr.ip) && s.mapInfo[s.mapAddr[addr.ip]].service == addr
  }

  /** What a successful connection leaves of an entry. */
  function Succeeded(a: Info, time: int, pos: int): Info {
    a.(nLastSuccess := time, nLastTry := time, nAttempts := 0, fInTried := true, nRefCount := 0, nRandomPos := pos)
  }

  /** A tried entry back among the new ones. */
  function Demoted(a: Info, pos: int): Info {
    a.(fInTried := false, nRefCount := 1, nRandomPos := pos)
  }

  /** What freeing tried cell c does: its entry goes to its primary new cell, whose occupant loses a reference. */
  ghost predicate Evicted(net: Net, s: State, t: State, c: Cell, id: int) {
    && t.nLastGood == s.nLastGood && t.vvTried == s.vvTried - {c} && Kept(s, t, id)
    && if c !in s.vvTried then t == s
       else
         var out := s.vvTried[c];
         && out in s.mapInfo && out in t.mapInfo && out != id
         && var home := PrimaryCell(net, s.mapInfo[out]);
         && t.mapInfo[out] == Demoted(s.mapInfo[out], t.mapInfo[out].nRandomPos)
         && t.vvNew == s.vvNew[home := out] && OthersKept(s, t, out, Occupant(s, home))
  }

  lemma EvictEffect(net: Net, s: State, c: Cell, id: int)
    requires InvBut(net, s, {id}, {id})
    ensures CanEvict(net, s, c)
    ensures Evicted(net, s, Evict(net, s, c), c, id)
  {
    hide Index, NewOk, TriedOk, Counts, Times, ClearNew, CanClear, PrimaryCell;
    EvictKeeps(net, s, c, id);
    if c in s.vvTried {
      EvictHome(net, s, c, id);
      var out := s.vvTried[c];
      var home := PrimaryCell(net, s.mapInfo[out]);
      var u := LeaveTried(s, c);
      var v := ClearNew(u, home);
      var t := Evict(net, s, c);
      assert t == EnterNew(v, out, home);
      assert Kept(u, v, out);
      assert t.vvNew == s.vvNew[home := out];
      forall k | k in s.mapInfo && k != out && Occupant(s, home) != Some(k) ensures Kept(s, t, k) {
        assert Kept(u, v, k);
      }
    }
  }

  /** Everything Good_ does when it moves entry id to the tried table. */
  ghost predicate Promoted(net: Net, s: State, t: State, id: int, time: int)
    requires id in s.mapInfo
  {
    var c := TriedCell(net, s.mapInfo[id].service);
    && t.nLastGood == time && id in t.mapInfo && t.vvTried == s.vvTried[c := id]
    && t.mapInfo[id] == Succeeded(s.mapInfo[id], time, t.mapInfo[id].nRandomPos)
    && var left := s.vvNew - CellsOf(s.vvNew, id);
    if c !in s.vvTried then
      && t.vvNew == left && t.mapInfo.Keys == s.mapInfo.Keys
      && forall k :: k in s.mapInfo && k != id ==> Kept(s, t, k)
    else
      var out := s.vvTried[c];
      && out in s.mapInfo && out in t.mapInfo && out != id
      && var home := PrimaryCell(net, s.mapInfo[out]);
      var loser := if home in left then Some(left[home]) else None;
      && t.mapInfo[out] == Demoted(s.mapInfo[out], t.mapInfo[out].nRandomPos)
      && t.vvNew == left[home := out] && t.mapInfo.Keys <= s.mapInfo.Keys
      && (loser.Some? ==> loser.value !in {id, out} && LostOne(s, t, loser.value))
      && forall k :: k in s.mapInfo && k !in {id, out} && loser != Some(k) ==> Kept(s, t, k)
  }

  /**
    A successful connection to exactly this service moves the entry to the tried table, in place of whoever
    was there; that entry is not lost but goes back to the cell its own source selects, where at most the
    occupant loses a reference.
   */
  lemma GoodPromotes(net: Net, s: State, addr: Service, time: int)
    requires Inv(net, s) && time > 0
    requires KnownAs(s, addr)
    requires !s.mapInfo[s.mapAddr[addr.ip]].fInTried
    ensures Good(net, s, addr, time).Done?
    ensures Promoted(net, s, Good(net, s, addr, time).s, s.mapAddr[addr.ip], time)
  {
    hide Index, NewOk, TriedOk, Counts, Times, Evict, CanEvict, TriedCell, LeaveNew, Promoted, InSomeBucket;
    var id := s.mapAddr[addr.ip];
    GoodKeeps(net, s, addr, time);
    GoodStatsKeep(net, s, id, time);
    var a := s.mapInfo[id].(nLastSuccess := time, nLastTry := time, nAttempts := 0);
    var s1 := SetInfo(s.(nLastGood := time), id, a);
    AlwaysInSomeBucket(net, s1, id);
    MakeTriedKeeps(net, s1, id);
    LeaveNewKeeps(net, s1, id);
    var c := TriedCell(net, addr);
    var u := LeaveNew(net, s1, id);
    LeaveNewEffect(net, s1, id);
    EvictEffect(net, u, c, id);
    PromotedInSteps(net, s, u, Evict(net, u, c), id, time);
  }

  lemma LeaveNewEffect(net: Net, s: State, id: int)
    requires Inv(net, s) && id in s.mapInfo && !s.mapInfo[id].fInTried
    ensures var u := LeaveNew(net, s, id);
      && u.mapInfo == s.mapInfo[id := s.mapInfo[id].(nRefCount := 0)] && u.vvNew == s.vvNew - CellsOf(s.vvNew, id)
      && u.vvTried == s.vvTried && u.nLastGood == s.nLastGood
  {
    OwnCellsAreAll(net, s, id, {});
    LeaveNewNew(net, s, id);
  }

  lemma PromotedInSteps(net: Net, s: State, u: State, v: State, id: int, time: int)
    requires id in s.mapInfo && id in v.mapInfo
    requires u.mapInfo == s.mapInfo[id := s.mapInfo[id].(nLastSuccess := time, nLastTry := time, nAttempts := 0,
                                                         nRefCount := 0)]
    requires u.vvNew == s.vvNew - CellsOf(s.vvNew, id) && u.vvTried == s.vvTried && u.nLastGood == time
    requires Evicted(net, u, v, TriedCell(net, s.mapInfo[id].service), id)
    ensures Promoted(net, s, EnterTried(v, id, TriedCell(net, s.mapInfo[id].service)), id, time)
  {
    hide TriedCell, PrimaryCell, CellsOf;
    var c := TriedCell(net, s.mapInfo[id].service);
    var t := EnterTried(v, id, c);
    assert t.vvTried == s.vvTried[c := id];
    forall k | k in s.mapInfo && k != id && Kept(u, v, k) ensures Kept(s, t, k) {}
    assert u.mapInfo.Keys == s.mapInfo.Keys && t.mapInfo.Keys == v.mapInfo.Keys;
    if c !in s.vvTried {
      assert t.mapInfo.Keys == s.mapInfo.Keys;
    } else {
      assert t.mapInfo.Keys <= s.mapInfo.Keys;
    }
  }

  /** A connection to a known tried entry only renews its statistics; any other only the time of the last success. */
  lemma GoodOtherwise(net: Net, s: State, addr: Service, time: int)
    requires Inv(net, s) && time > 0
    ensures KnownAs(s, addr) && s.mapInfo[s.mapAddr[addr.ip]].fInTried ==>
      var id := s.mapAddr[addr.ip];
      && Good(net, s, addr, time) == Done(s.(nLastGood := time,
           mapInfo := s.mapInfo[id := Succeeded(s.mapInfo[id], time, s.mapInfo[id].nRandomPos)]))
    ensures !KnownAs(s, addr) ==> Good(net, s, addr, time) == Done(s.(nLastGood := time))
  {
    hide Index, NewOk, TriedOk, Counts, Times;
    if Known(s, addr.ip) { EntryFacts(net, s, s.mapAddr[addr.ip], {}); }
  }

  // ------------------------------------------------------------- statistics

  /** The two states differ in nothing but the entry for exactly this service; without one they are the same. */
  ghost predicate OnlyEntry(s: State, t: State, addr: Service, a: Info) {
    if KnownAs(s, addr) then t == s.(mapInfo := s.mapInfo[s.mapAddr[addr.ip] := a]) else t == s
  }

  /**
    A failure counts at most once between two successful connections to anybody: a second attempt that
    comes no earlier than the last success changes nothing but the time of the last try.
   */
  lemma FailureCountsOnce(s: State, addr: Service, time: int, again: int)
    requires KnownAs(s, addr) && time >= s.nLastGood
    ensures var a, t := s.mapInfo[s.mapAddr[addr.ip]], Attempt(s, addr, true, time);
      var counted := a.nLastCountAttempt < s.nLastGood;
      && OnlyEntry(s, t, addr, a.(nLastTry := time, nAttempts := if counted then a.nAttempts + 1 else a.nAttempts,
                                  nLastCountAttempt := if counted then time else a.nLastCountAttempt))
      && OnlyEntry(t, Attempt(t, addr, true, again), addr, t.mapInfo[t.mapAddr[addr.ip]].(nLastTry := again))
  {
  }

  /** An attempt whose failure is not to be counted changes the time of the last try alone. */
  lemma UncountedAttempt(s: State, addr: Service, time: int)
    ensures Known(s, addr.ip) ==>
      OnlyEntry(s, Attempt(s, addr, false, time), addr, s.mapInfo[s.mapAddr[addr.ip]].(nLastTry := time))
    ensures !Known(s, addr.ip) ==> Attempt(s, addr, false, time) == s
  {
  }

  /** A live connection keeps the entry's time within twenty minutes; nothing else changes, twice no more than once. */
  lemma ConnectedRenews(s: State, addr: Service, time: int)
    ensures var t := Connected(s, addr, time);
      && Connected(t, addr, time) == t
      && (!Known(s, addr.ip) ==> t == s)
      && (Known(s, addr.ip) ==>
            var a := s.mapInfo[s.mapAddr[addr.ip]];
            OnlyEntry(s, t, addr, a.(nTime := if time > a.nTime + 1200 then time else a.nTime)))
  {
    assert Known(s, addr.ip) ==> s.mapInfo[s.mapAddr[addr.ip] := s.mapInfo[s.mapAddr[addr.ip]]] == s.mapInfo;
  }

  lemma ServicesAreSet(s: State, addr: Service, services: bv64)
    ensures var t := SetServices(s, addr, services);
      && (!Known(s, addr.ip) ==> t == s)
      && (Known(s, addr.ip) ==> OnlyEntry(s, t, addr, s.mapInfo[s.mapAddr[addr.ip]].(nServices := services)))
  {
  }

  // ----------------------------------------------------------------- GetAddr_

  /** As many as 23 percent of the entries allow, and at most 2500. */
  lemma SampleSize(s: State, n: int)
    ensures n <= GetAddrLimit(s) <==> n <= 2500 && 100 * n <= 23 * |s.vRandom|
  {
  }

  lemma {:induction false} GatheredExtends(s: State, n: nat, ids: seq<int>, limit: int, now: int, rnd: nat -> nat)
    ensures ids <= GetAddr(s, n, ids, limit, now, rnd).ids
    decreases |s.vRandom| - n
  {
    hide IsTerrible, SwapRandom, CanSwap;
    if n < |s.vRandom| && |ids| < limit {
      var j := rnd(n) % (|s.vRandom| - n) + n;
      if CanSwap(s, n, j) {
        var t := SwapRandom(s, n, j);
        SwapLength(s, n, j);
        if t.vRandom[n] in t.mapInfo {
          var id := t.vRandom[n];
          GatheredExtends(t, n + 1, if IsTerrible(t.mapInfo[id], now) then ids else ids + [id], limit, now, rnd);
        }
      }
    }
  }

  lemma SwapLength(s: State, i: int, j: int)
    requires CanSwap(s, i, j)
    ensures |SwapRandom(s, i, j).vRandom| == |s.vRandom|
  {
  }

  /** The sample is a draw: whoever is not terrible comes first if the first draw points there. */
  lemma AnyoneMayComeFirst(net: Net, s: State, id: int, limit: int, now: int, rnd: nat -> nat)
    requires Inv(net, s) && id in s.mapInfo && !IsTerrible(s.mapInfo[id], now) && limit > 0
    requires rnd(0) == s.mapInfo[id].nRandomPos
    ensures var ids := GetAddr(s, 0, [], limit, now, rnd).ids; ids != [] && ids[0] == id
  {
    hide IsTerrible, SwapRandom, CanSwap, NewOk, TriedOk, Counts, Times, Index;
    LinkedAt(s, id);
    var j := s.mapInfo[id].nRandomPos;
    assert rnd(0) % (|s.vRandom| - 0) + 0 == j;
    SwapIndex(s, 0, j);
    SwapOthers(s, 0, j);
    SwapBrings(s, j);
    var t := SwapRandom(s, 0, j);
    SameQuality(s, t, id, now);
    GatheredExtends(t, 1, [id], limit, now, rnd);
    assert [] + [id] == [id];
  }

  lemma SwapBrings(s: State, j: int)
    requires CanSwap(s, 0, j) && 0 <= j < |s.vRandom|
    ensures |SwapRandom(s, 0, j).vRandom| == |s.vRandom| && SwapRandom(s, 0, j).vRandom[0] == s.vRandom[j]
  {
  }

  /** A terrible entry was not tried in the last minute and is from the future, stale, or keeps failing. */
  lemma TerribleIff(a: Info, now: int)
    ensures IsTerrible(a, now) <==>
      && (a.nLastTry == 0 || now - a.nLastTry > 60)
      && (|| a.nTime - now > 600
          || a.nTime == 0 || now - a.nTime > 2592000
          || (a.nLastSuccess == 0 && a.nAttempts >= 3)
          || (now - a.nLastSuccess > 604800 && a.nAttempts >= 10))
  {
  }
}
