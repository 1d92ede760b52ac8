/**
  CAddrMan as it is written: one object with the id map, the address map, the random
  order, the two bucket arrays and their counters.  Each method is proved to compute the
  function of the same name in AddrManModel, and so to keep the Check_ invariant.
 */
module AddrMan {
  import opened Common
  import opened AddrManModel
  import opened AddrManInvariant
  import Runs = AddrManRuns

  /** The occupied cells of a bucket array; -1 marks an empty one. */
  ghost function Occupied(a: array2<int>): (t: Table)
    reads a
    ensures forall c :: c in t <==> InArray(a, c) && a[c.bucket, c.pos] != -1
    ensures forall c :: c in t ==> InArray(a, c) && t[c] == a[c.bucket, c.pos]
  {
    map b, i | 0 <= b < a.Length0 && 0 <= i < a.Length1 && a[b, i] != -1 :: Cell(b, i) := a[b, i]
  }

  predicate InArray(a: array2<int>, c: Cell) {
    0 <= c.bucket < a.Length0 && 0 <= c.pos < a.Length1
  }

  method Put(a: array2<int>, c: Cell, id: int)
    requires InArray(a, c) && id != -1
    modifies a
    ensures Occupied(a) == old(Occupied(a))[c := id]
  {
    a[c.bucket, c.pos] := id;
  }

  method Clear(a: array2<int>, c: Cell)
    requires InArray(a, c)
    modifies a
    ensures Occupied(a) == old(Occupied(a)) - {c}
  {
    a[c.bucket, c.pos] := -1;
  }

  /** The entry's cells in the buckets before b. */
  ghost function OwnBelow(net: Net, s: State, id: int, b: int): set<Cell>
    requires id in s.mapInfo
  {
    set c | c in OwnCells(net, s, id) && c.bucket < b
  }

  /** The state once the loop of MakeTried has gone through the buckets before b. */
  ghost function LeftBelow(net: Net, s: State, id: int, b: int): State
    requires id in s.mapInfo
  {
    var cells := OwnBelow(net, s, id, b);
    SetInfo(s, id, s.mapInfo[id].(nRefCount := s.mapInfo[id].nRefCount - |cells|)).(vvNew := s.vvNew - cells)
  }

  ghost function DropCell(s: State, id: int, c: Cell): State
    requires id in s.mapInfo
  {
    if c in s.vvNew && s.vvNew[c] == id
    then SetInfo(s, id, s.mapInfo[id].(nRefCount := s.mapInfo[id].nRefCount - 1)).(vvNew := s.vvNew - {c})
    else s
  }

  function Rotated(n: int, nRnd: nat): int {
    (n + nRnd) % NEW_BUCKET_COUNT
  }

  predicate HoldsAt(net: Net, s: State, id: int, bucket: int)
    requires id in s.mapInfo
  {
    var c := NewCell(net, s.mapInfo[id].service, bucket);
    c in s.vvNew && s.vvNew[c] == id
  }

  lemma Found(net: Net, s: State, id: int, bucket: int)
    requires id in s.mapInfo && 0 <= bucket < NEW_BUCKET_COUNT && HoldsAt(net, s, id, bucket)
    ensures InSomeBucket(net, s, id)
  {
    assert NewCell(net, s.mapInfo[id].service, bucket) in s.vvNew;
  }

  /** Starting anywhere and wrapping around visits every bucket. */
  lemma RotatedCovers(net: Net, s: State, id: int, nRnd: nat)
    requires id in s.mapInfo
    requires forall k :: 0 <= k < NEW_BUCKET_COUNT ==> !HoldsAt(net, s, id, Rotated(k, nRnd))
    ensures !InSomeBucket(net, s, id)
  {
    hide Rotated;
    forall b | 0 <= b < NEW_BUCKET_COUNT
      ensures var c := NewCell(net, s.mapInfo[id].service, b); !(c in s.vvNew && s.vvNew[c] == id)
    {
      RotatedBack(b, nRnd);
    }
  }

  lemma RotatedBack(b: int, nRnd: nat)
    requires 0 <= b < NEW_BUCKET_COUNT
    ensures 0 <= (b - nRnd) % NEW_BUCKET_COUNT < NEW_BUCKET_COUNT
    ensures Rotated((b - nRnd) % NEW_BUCKET_COUNT, nRnd) == b
  {
    var q := (b - nRnd) / NEW_BUCKET_COUNT;
    assert (b - nRnd) % NEW_BUCKET_COUNT + nRnd == b - q * NEW_BUCKET_COUNT;
  }

  lemma OwnBelowStep(net: Net, s: State, id: int, b: int)
    requires id in s.mapInfo && 0 <= b < NEW_BUCKET_COUNT
    ensures var c := NewCell(net, s.mapInfo[id].service, b); var own := OwnBelow(net, s, id, b);
            && c !in own
            && OwnBelow(net, s, id, b + 1) == if c in s.vvNew && s.vvNew[c] == id then own + {c} else own
  {
  }

  lemma LeftBelowStep(net: Net, s: State, id: int, b: int)
    requires id in s.mapInfo && 0 <= b < NEW_BUCKET_COUNT
    ensures LeftBelow(net, s, id, b + 1)
      == DropCell(LeftBelow(net, s, id, b), id, NewCell(net, s.mapInfo[id].service, b))
  {
    hide OwnBelow, NewCell;
    OwnBelowStep(net, s, id, b);
    DropOne(s.vvNew, OwnBelow(net, s, id, b), NewCell(net, s.mapInfo[id].service, b));
  }

  lemma DropOne(t: Table, own: set<Cell>, c: Cell)
    ensures t - (own + {c}) == t - own - {c}
  {
  }

  lemma LeftBelowEnds(net: Net, s: State, id: int)
    requires id in s.mapInfo
    ensures LeftBelow(net, s, id, 0) == s
    ensures var t := LeftBelow(net, s, id, NEW_BUCKET_COUNT);
      t.(nNew := t.nNew - 1) == AddrManModel.LeaveNew(net, s, id)
  {
    assert OwnBelow(net, s, id, 0) == {};
    assert OwnBelow(net, s, id, NEW_BUCKET_COUNT) == OwnCells(net, s, id);
  }

  class AddrMan {
    const net: Net
    const vvTried: array2<int>
    const vvNew: array2<int>
    var nIdCount: int
    var mapInfo: map<int, Info>
    var mapAddr: map<NetAddr, int>
    var vRandom: seq<int>
    var nTried: int
    var nNew: int
    var nLastGood: int

    ghost predicate Valid() {
      && vvTried.Length0 == TRIED_BUCKET_COUNT && vvTried.Length1 == BUCKET_SIZE
      && vvNew.Length0 == NEW_BUCKET_COUNT && vvNew.Length1 == BUCKET_SIZE
      && vvTried != vvNew
    }

    ghost function S(): State
      reads this, vvTried, vvNew
    {
      State(nIdCount, mapInfo, mapAddr, vRandom, nTried, Occupied(vvTried), nNew, Occupied(vvNew), nLastGood)
    }

    constructor (net: Net)
      ensures Valid() && this.net == net && fresh(vvTried) && fresh(vvNew)
      ensures S() == INITIAL && Inv(net, S())
    {
      this.net := net;
      vvTried := new int[TRIED_BUCKET_COUNT, BUCKET_SIZE]((_, _) => -1);
      vvNew := new int[NEW_BUCKET_COUNT, BUCKET_SIZE]((_, _) => -1);
      nIdCount, nTried, nNew, nLastGood := 0, 0, 0, 1;
      mapInfo, mapAddr, vRandom := map[], map[], [];
      new;
      Runs.InitialInv(net);
    }

    method SwapRandom(i: int, j: int)
      requires CanSwap(S(), i, j)
      modifies this`mapInfo, this`vRandom
      ensures S() == AddrManModel.SwapRandom(old(S()), i, j)
    {
      hide Occupied;
      if i == j {
        return;
      }
      var id1 := vRandom[i];
      var id2 := vRandom[j];
      mapInfo := mapInfo[id1 := mapInfo[id1].(nRandomPos := j)];
      mapInfo := mapInfo[id2 := mapInfo[id2].(nRandomPos := i)];
      vRandom := vRandom[i := id2][j := id1];
    }

    method Delete(id: int)
      requires CanDelete(S(), id)
      modifies this`mapInfo, this`vRandom, this`mapAddr, this`nNew
      ensures S() == AddrManModel.Delete(old(S()), id)
    {
      hide Occupied;
      var info := mapInfo[id];
      SwapRandom(info.nRandomPos, |vRandom| - 1);
      vRandom := vRandom[..|vRandom| - 1];
      mapAddr := mapAddr - {info.service.ip};
      mapInfo := mapInfo - {id};
      nNew := nNew - 1;
    }

    method ClearNew(c: Cell)
      requires Valid() && InArray(vvNew, c) && CanClear(S(), c)
      modifies this`mapInfo, this`vRandom, this`mapAddr, this`nNew, vvNew
      ensures S() == AddrManModel.ClearNew(old(S()), c)
    {
      hide Occupied;
      if vvNew[c.bucket, c.pos] != -1 {
        var id := vvNew[c.bucket, c.pos];
        mapInfo := mapInfo[id := mapInfo[id].(nRefCount := mapInfo[id].nRefCount - 1)];
        Clear(vvNew, c);
        assert S() == Unref(old(S()), c);
        if mapInfo[id].nRefCount == 0 {
          Delete(id);
        }
      }
    }

    /** The first loop of MakeTried: out of every new bucket the entry may be in. */
    method LeaveNew(id: int)
      requires Valid() && id in mapInfo && id != -1
      modifies this`mapInfo, this`nNew, vvNew
      ensures S() == AddrManModel.LeaveNew(net, old(S()), id)
    {
      hide LeftBelow, DropCell, Occupied, AddrManModel.LeaveNew;
      ghost var s := S();
      var service := mapInfo[id].service;
      LeftBelowEnds(net, s, id);
      for bucket := 0 to NEW_BUCKET_COUNT
        invariant id in mapInfo && S() == LeftBelow(net, s, id, bucket)
      {
        LeftBelowStep(net, s, id, bucket);
        LeaveOneBucket(id, service, bucket);
      }
      nNew := nNew - 1;
    }

    /** One round of that loop. */
    method LeaveOneBucket(id: int, service: Service, bucket: int)
      requires Valid() && id in mapInfo && id != -1 && 0 <= bucket < NEW_BUCKET_COUNT
      modifies this`mapInfo, vvNew
      ensures S() == DropCell(old(S()), id, NewCell(net, service, bucket)) && id in mapInfo
    {
      hide Occupied;
      var c := NewCell(net, service, bucket);
      if vvNew[c.bucket, c.pos] == id {
        Clear(vvNew, c);
        mapInfo := mapInfo[id := mapInfo[id].(nRefCount := mapInfo[id].nRefCount - 1)];
      }
    }

    method MakeTried(id: int)
      requires Valid() && Inv(net, S())
      requires id in mapInfo && !mapInfo[id].fInTried && mapInfo[id].nLastSuccess != 0
      modifies this, vvNew, vvTried
      ensures CanMakeTried(net, old(S()), id)
      ensures S() == AddrManModel.MakeTried(net, old(S()), id)
    {
      hide Inv, Occupied, OwnCells, AddrManModel.Evict, CanEvict, AddrManModel.EnterTried;
      ghost var s0 := S();
      MakeTriedKeeps(net, s0, id);
      Linked0(net, s0, id);
      LeaveNew(id);
      var c := TriedCell(net, mapInfo[id].service);
      Evict(c);
      EnterTried(id, c);
    }

    method EnterTried(id: int, c: Cell)
      requires Valid() && id in mapInfo && id != -1 && InArray(vvTried, c)
      modifies this`mapInfo, this`nTried, vvTried
      ensures S() == AddrManModel.EnterTried(old(S()), id, c)
    {
      hide Occupied;
      Put(vvTried, c, id);
      nTried := nTried + 1;
      mapInfo := mapInfo[id := mapInfo[id].(fInTried := true)];
    }

    method LeaveTried(c: Cell) returns (id: int)
      requires Valid() && InArray(vvTried, c) && c in S().vvTried && S().vvTried[c] in mapInfo
      modifies this`mapInfo, this`nTried, vvTried
      ensures id == old(S()).vvTried[c] && S() == AddrManModel.LeaveTried(old(S()), c)
    {
      hide Occupied;
      id := vvTried[c.bucket, c.pos];
      mapInfo := mapInfo[id := mapInfo[id].(fInTried := false)];
      Clear(vvTried, c);
      nTried := nTried - 1;
    }

    method EnterNew(id: int, c: Cell)
      requires Valid() && id in mapInfo && id != -1 && InArray(vvNew, c)
      modifies this`mapInfo, this`nNew, vvNew
      ensures S() == AddrManModel.EnterNew(old(S()), id, c)
    {
      hide Occupied;
      mapInfo := mapInfo[id := mapInfo[id].(nRefCount := 1)];
      Put(vvNew, c, id);
      nNew := nNew + 1;
    }

    /** Making space in the tried table: the entry there goes back to its primary new bucket. */
    method Evict(c: Cell)
      requires Valid() && InArray(vvTried, c) && CanEvict(net, S(), c)
      modifies this`mapInfo, this`vRandom, this`mapAddr, this`nNew, this`nTried, vvNew, vvTried
      ensures S() == AddrManModel.Evict(net, old(S()), c)
    {
      hide AddrManModel.ClearNew, CanClear, AddrManModel.EnterNew, Occupied, PrimaryCell;
      ghost var s := S();
      if vvTried[c.bucket, c.pos] != -1 {
        var id := LeaveTried(c);
        var home := PrimaryCell(net, mapInfo[id]);
        assert home == PrimaryCell(net, s.mapInfo[id]) && InArray(vvNew, home) by {
          PrimaryFits(net, s.mapInfo[id], mapInfo[id]);
        }
        ClearNew(home);
        EnterNew(id, home);
      }
    }

    /** The search of Good_, from a random bucket on. */
    method FindBucket(id: int, nRnd: nat) returns (bucket: int)
      requires Valid() && id in mapInfo && id != -1
      ensures bucket == -1 <==> !InSomeBucket(net, S(), id)
    {
      hide Occupied, InSomeBucket, NewCell;
      ghost var s := S();
      bucket := -1;
      for n := 0 to NEW_BUCKET_COUNT
        invariant forall k :: 0 <= k < n ==> !HoldsAt(net, s, id, Rotated(k, nRnd))
      {
        var nB := Rotated(n, nRnd);
        var here := AtBucket(id, nB);
        if here {
          Found(net, s, id, nB);
          return nB;
        }
      }
      RotatedCovers(net, s, id, nRnd);
    }

    method AtBucket(id: int, bucket: int) returns (here: bool)
      requires Valid() && id in mapInfo && id != -1 && 0 <= bucket < NEW_BUCKET_COUNT
      ensures here == HoldsAt(net, S(), id, bucket)
    {
      hide Occupied;
      var c := NewCell(net, mapInfo[id].service, bucket);
      here := vvNew[c.bucket, c.pos] == id;
    }

    method Good_(addr: Service, time: int, nRnd: nat)
      requires Valid() && Inv(net, S()) && time > 0
      modifies this, vvNew, vvTried
      ensures Good(net, old(S()), addr, time) == Done(S())
      ensures Inv(net, S())
    {
      hide Inv, Occupied, InSomeBucket, CanMakeTried, AddrManModel.MakeTried;
      ghost var s := S();
      Runs.GoodKeeps(net, s, addr, time);
      nLastGood := time;
      if addr.ip !in mapAddr || mapAddr[addr.ip] !in mapInfo {
        return;
      }
      var id := mapAddr[addr.ip];
      if mapInfo[id].service != addr {
        return;
      }
      Linked0(net, s, id);
      mapInfo := mapInfo[id := mapInfo[id].(nLastSuccess := time, nLastTry := time, nAttempts := 0)];
      Runs.GoodStatsKeep(net, s, id, time);
      if mapInfo[id].fInTried {
        return;
      }
      var bucket := FindBucket(id, nRnd);
      if bucket == -1 {
        return;
      }
      MakeTried(id);
    }

    method Refer(id: int, c: Cell)
      requires Valid() && id in mapInfo && id != -1 && InArray(vvNew, c)
      modifies this`mapInfo, vvNew
      ensures S() == AddrManModel.Refer(old(S()), id, c)
    {
      hide Occupied;
      mapInfo := mapInfo[id := mapInfo[id].(nRefCount := mapInfo[id].nRefCount + 1)];
      Put(vvNew, c, id);
    }

    /** Create, then the time penalty and the count. */
    method CreateEntry(addr: Address, source: NetAddr, penalty: int) returns (id: int)
      modifies this`nIdCount, this`mapInfo, this`vRandom, this`mapAddr, this`nNew
      ensures id == old(nIdCount) && S() == Created(old(S()), addr, source, penalty)
    {
      hide Occupied;
      id := nIdCount;
      nIdCount := nIdCount + 1;
      mapInfo := mapInfo[id := NewInfo(addr, source, |vRandom|)];
      mapAddr := mapAddr[addr.service.ip := id];
      vRandom := vRandom + [id];
      mapInfo := mapInfo[id := mapInfo[id].(nTime := Max(0, addr.nTime - penalty))];
      nNew := nNew + 1;
    }

    /** The second half of Add_. */
    method Place(id: int, source: NetAddr, now: int)
      requires Valid() && id in mapInfo && id != -1 && AddrManModel.Place(net, S(), id, source, now).Done?
      modifies this`mapInfo, this`vRandom, this`mapAddr, this`nNew, vvNew
      ensures S() == AddrManModel.Place(net, old(S()), id, source, now).s
    {
      hide AddrManModel.ClearNew, CanClear, AddrManModel.Delete, CanDelete, IsTerrible, AddrManModel.Refer, Occupied;
      var bucket := NewBucket(net, mapInfo[id].service, source);
      var c := NewCell(net, mapInfo[id].service, bucket);
      if vvNew[c.bucket, c.pos] != id {
        var insert := vvNew[c.bucket, c.pos] == -1;
        if !insert {
          var existing := mapInfo[vvNew[c.bucket, c.pos]];
          if IsTerrible(existing, now) || (existing.nRefCount > 1 && mapInfo[id].nRefCount == 0) {
            insert := true;
          }
        }
        if insert {
          ClearNew(c);
          Refer(id, c);
        } else if mapInfo[id].nRefCount == 0 {
          Delete(id);
        }
      }
    }

    method Add_(addr: Address, source: NetAddr, timePenalty: int, now: int, rnd: nat) returns (fNew: bool)
      requires Valid() && Inv(net, S())
      modifies this`nIdCount, this`mapInfo, this`vRandom, this`mapAddr, this`nNew, vvNew
      ensures Add(net, old(S()), addr, source, timePenalty, now, rnd) == Done(S())
      ensures fNew <==> net.routable(addr.service.ip) && !Known(old(S()), addr.service.ip)
      ensures Inv(net, S())
    {
      hide Inv, Occupied, AddrManModel.Place, Refreshed, Created, MayRefer;
      ghost var s := S();
      Runs.AddKeeps(net, s, addr, source, timePenalty, now, rnd);
      if !net.routable(addr.service.ip) {
        return false;
      }
      var penalty := if addr.service.ip == source then 0 else timePenalty;
      if addr.service.ip in mapAddr && mapAddr[addr.service.ip] in mapInfo {
        var id := mapAddr[addr.service.ip];
        Linked0(net, s, id);
        mapInfo := mapInfo[id := Refreshed(mapInfo[id], addr, penalty, now)];
        assert S() == SetInfo(s, id, Refreshed(s.mapInfo[id], addr, penalty, now));
        var may := Stochastic(mapInfo[id], addr, rnd);
        if !may {
          return false;
        }
        Place(id, source, now);
        return false;
      }
      FirstId(net, s);
      Runs.CreatedEntry(s, addr, source, penalty);
      var id := CreateEntry(addr, source, penalty);
      Place(id, source, now);
      return true;
    }

    /** The tests before another reference is given; the loop doubles a factor per existing reference. */
    method Stochastic(a: Info, addr: Address, rnd: nat) returns (may: bool)
      ensures may == MayRefer(a, addr, rnd)
    {
      if addr.nTime == 0 || (a.nTime != 0 && addr.nTime <= a.nTime) {
        return false;
      }
      if a.fInTried || a.nRefCount == NEW_BUCKETS_PER_ADDRESS {
        return false;
      }
      var nFactor := 1;
      var n := 0;
      while n < a.nRefCount
        invariant 0 <= n && (n <= a.nRefCount || n == 0)
        invariant nFactor == Pow2(n) && nFactor > 0
      {
        nFactor := nFactor * 2;
        n := n + 1;
      }
      return !(nFactor > 1 && rnd % nFactor != 0);
    }

    method Attempt_(addr: Service, countFailure: bool, time: int)
      requires Inv(net, S()) && time > 0
      modifies this`mapInfo
      ensures S() == Attempt(old(S()), addr, countFailure, time)
      ensures Inv(net, S())
    {
      hide Inv, Occupied;
      Runs.StepKeeps(net, S(), Runs.OpAttempt(addr, countFailure, time));
      if addr.ip in mapAddr && mapAddr[addr.ip] in mapInfo && mapInfo[mapAddr[addr.ip]].service == addr {
        var id := mapAddr[addr.ip];
        mapInfo := mapInfo[id := mapInfo[id].(nLastTry := time)];
        if countFailure && mapInfo[id].nLastCountAttempt < nLastGood {
          mapInfo := mapInfo[id := mapInfo[id].(nLastCountAttempt := time, nAttempts := mapInfo[id].nAttempts + 1)];
        }
      }
    }

    method Connected_(addr: Service, time: int)
      requires Inv(net, S()) && time > 0
      modifies this`mapInfo
      ensures S() == Connected(old(S()), addr, time)
      ensures Inv(net, S())
    {
      hide Inv, Occupied;
      Runs.StepKeeps(net, S(), Runs.OpConnected(addr, time));
      if addr.ip in mapAddr && mapAddr[addr.ip] in mapInfo && mapInfo[mapAddr[addr.ip]].service == addr {
        var id := mapAddr[addr.ip];
        var nUpdateInterval := 20 * 60;
        if time - mapInfo[id].nTime > nUpdateInterval {
          mapInfo := mapInfo[id := mapInfo[id].(nTime := time)];
        }
      }
    }

    method SetServices_(addr: Service, nServices: bv64)
      requires Inv(net, S())
      modifies this`mapInfo
      ensures S() == SetServices(old(S()), addr, nServices)
      ensures Inv(net, S())
    {
      hide Inv, Occupied;
      Runs.StepKeeps(net, S(), Runs.OpSetServices(addr, nServices));
      if addr.ip in mapAddr && mapAddr[addr.ip] in mapInfo && mapInfo[mapAddr[addr.ip]].service == addr {
        var id := mapAddr[addr.ip];
        mapInfo := mapInfo[id := mapInfo[id].(nServices := nServices)];
      }
    }

    /** Shuffles a prefix of vRandom and gathers the entries that are not terrible. */
    method GetAddr_(now: int, rnd: nat -> nat) returns (ids: seq<int>)
      requires Inv(net, S())
      modifies this`mapInfo, this`vRandom
      ensures GetAddr(old(S()), 0, [], GetAddrLimit(old(S())), now, rnd) == Gathered(Done(S()), ids)
      ensures Inv(net, S()) && Runs.SameEntries(old(S()), S())
        && Runs.GatheredAll(old(S()), ids, GetAddrLimit(old(S())), now)
    {
      hide Inv, Occupied, IsTerrible, GetAddr, AddrManModel.SwapRandom, CanSwap, Runs.SameEntries, Runs.GatheredAll;
      ghost var s0 := S();
      var nNodes := GETADDR_MAX_PCT * |vRandom| / 100;
      if nNodes > GETADDR_MAX {
        nNodes := GETADDR_MAX;
      }
      ids := [];
      var n := 0;
      while n < |vRandom| && |ids| < nNodes
        invariant 0 <= n <= |vRandom| && Inv(net, S())
        invariant GetAddr(S(), n, ids, nNodes, now, rnd) == GetAddr(s0, 0, [], nNodes, now, rnd)
        decreases |vRandom| - n
      {
        var nRndPos := rnd(n) % (|vRandom| - n) + n;
        Runs.GetAddrUnfold(net, S(), n, ids, nNodes, now, rnd);
        SwapRandom(n, nRndPos);
        var id := vRandom[n];
        if !IsTerrible(mapInfo[id], now) {
          ids := ids + [id];
        }
        n := n + 1;
      }
      Runs.GetAddrStops(S(), n, ids, nNodes, now, rnd);
      Runs.GetAddrKeeps(net, s0, 0, [], nNodes, now, rnd);
    }
  }

  lemma PrimaryFits(net: Net, a: Info, b: Info)
    requires a.service == b.service && a.source == b.source
    ensures PrimaryCell(net, a) == PrimaryCell(net, b)
    ensures 0 <= PrimaryCell(net, a).bucket < NEW_BUCKET_COUNT && 0 <= PrimaryCell(net, a).pos < BUCKET_SIZE
  {
  }

  lemma FirstId(net: Net, s: State)
    requires Inv(net, s)
    ensures s.nIdCount >= 0
  {
  }

  lemma Linked0(net: Net, s: State, id: int)
    requires Inv(net, s) && id in s.mapInfo
    ensures id >= 0
  {
    LinkedAt(s, id);
  }
}
