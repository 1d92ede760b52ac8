/**
  The address manager of src/addrman.h and src/addrman.cpp, on values: five cross-linked
  indexes (ids to entries, addresses to ids, the random order, the "new" and the "tried"
  tables) and the operations that keep them together.
 */
module AddrManModel {
  import opened Common

  const TRIED_BUCKET_COUNT := 256
  const NEW_BUCKET_COUNT := 1024
  const BUCKET_SIZE := 64
  const NEW_BUCKETS_PER_ADDRESS := 8
  const HORIZON_DAYS := 30
  const RETRIES := 3
  const MAX_FAILURES := 10
  const MIN_FAIL_DAYS := 7
  const GETADDR_MAX_PCT := 23
  const GETADDR_MAX := 2500

  type NetAddr = nat

  datatype Service = Service(ip: NetAddr, port: nat)

  datatype Address = Address(service: Service, nServices: bv64, nTime: int)

  datatype Info = Info(
    service: Service, nServices: bv64, nTime: int, source: NetAddr,
    nLastTry: int, nLastCountAttempt: int, nLastSuccess: int,
    nAttempts: int, nRefCount: int, fInTried: bool, nRandomPos: int)

  /** The keyed hashes and the routability test; nothing is assumed about any of them. */
  datatype Net = Net(
    triedHash: Service -> nat,
    newHash: (Service, NetAddr) -> nat,
    positionHash: (Service, bool, int) -> nat,
    routable: NetAddr -> bool)

  datatype Cell = Cell(bucket: int, pos: int)

  /** Occupied cells only: a cell that holds -1 in the source is absent here. */
  type Table = map<Cell, int>

  datatype State = State(
    nIdCount: int, mapInfo: map<int, Info>, mapAddr: map<NetAddr, int>, vRandom: seq<int>,
    nTried: int, vvTried: Table, nNew: int, vvNew: Table, nLastGood: int)

  function NewBucket(net: Net, s: Service, src: NetAddr): int {
    net.newHash(s, src) % NEW_BUCKET_COUNT
  }

  function NewCell(net: Net, s: Service, bucket: int): Cell {
    Cell(bucket, net.positionHash(s, true, bucket) % BUCKET_SIZE)
  }

  function TriedCell(net: Net, s: Service): Cell {
    var bucket := net.triedHash(s) % TRIED_BUCKET_COUNT;
    Cell(bucket, net.positionHash(s, false, bucket) % BUCKET_SIZE)
  }

  predicate IsTerrible(a: Info, now: int) {
    if a.nLastTry != 0 && a.nLastTry >= now - 60 then false
    else if a.nTime > now + 10 * 60 then true
    else if a.nTime == 0 || now - a.nTime > HORIZON_DAYS * 24 * 60 * 60 then true
    else if a.nLastSuccess == 0 && a.nAttempts >= RETRIES then true
    else now - a.nLastSuccess > MIN_FAIL_DAYS * 24 * 60 * 60 && a.nAttempts >= MAX_FAILURES
  }

  // -------------------------------------------------------------- operations

  const INITIAL := State(0, map[], map[], [], 0, map[], 0, map[], 1)

  function SetInfo(s: State, id: int, a: Info): State {
    s.(mapInfo := s.mapInfo[id := a])
  }

  /** The id of the entry for an IP address, if there is one. */
  predicate Known(s: State, ip: NetAddr) {
    ip in s.mapAddr && s.mapAddr[ip] in s.mapInfo
  }

  function NewInfo(addr: Address, source: NetAddr, pos: int): Info {
    Info(addr.service, addr.nServices, addr.nTime, source, 0, 0, 0, 0, 0, false, pos)
  }

  function Create(s: State, addr: Address, source: NetAddr): State {
    s.(nIdCount := s.nIdCount + 1,
       mapInfo := s.mapInfo[s.nIdCount := NewInfo(addr, source, |s.vRandom|)],
       mapAddr := s.mapAddr[addr.service.ip := s.nIdCount],
       vRandom := s.vRandom + [s.nIdCount])
  }

  /** The asserts of SwapRandom: both positions exist and hold known ids. */
  predicate CanSwap(s: State, i: int, j: int) {
    i == j || (0 <= i < |s.vRandom| && 0 <= j < |s.vRandom| && s.vRandom[i] in s.mapInfo && s.vRandom[j] in s.mapInfo)
  }

  function SwapRandom(s: State, i: int, j: int): State
    requires CanSwap(s, i, j)
  {
    if i == j then s
    else
      var id1, id2 := s.vRandom[i], s.vRandom[j];
      var m := s.mapInfo[id1 := s.mapInfo[id1].(nRandomPos := j)];
      s.(mapInfo := m[id2 := m[id2].(nRandomPos := i)],
         vRandom := s.vRandom[i := id2][j := id1])
  }

  /** The asserts of Delete. */
  predicate CanDelete(s: State, id: int) {
    && id in s.mapInfo && !s.mapInfo[id].fInTried && s.mapInfo[id].nRefCount == 0
    && |s.vRandom| > 0 && CanSwap(s, s.mapInfo[id].nRandomPos, |s.vRandom| - 1)
  }

  function Delete(s: State, id: int): State
    requires CanDelete(s, id)
  {
    var t := SwapRandom(s, s.mapInfo[id].nRandomPos, |s.vRandom| - 1);
    t.(vRandom := t.vRandom[..|t.vRandom| - 1],
       mapAddr := t.mapAddr - {s.mapInfo[id].service.ip},
       mapInfo := t.mapInfo - {id},
       nNew := t.nNew - 1)
  }

  /** One reference less for the id in an occupied cell. */
  function Unref(s: State, c: Cell): State
    requires c in s.vvNew && s.vvNew[c] in s.mapInfo
  {
    var id := s.vvNew[c];
    SetInfo(s, id, s.mapInfo[id].(nRefCount := s.mapInfo[id].nRefCount - 1)).(vvNew := s.vvNew - {c})
  }

  predicate CanClear(s: State, c: Cell) {
    c in s.vvNew ==>
      && s.vvNew[c] in s.mapInfo && s.mapInfo[s.vvNew[c]].nRefCount > 0
      && (s.mapInfo[s.vvNew[c]].nRefCount == 1 ==> CanDelete(Unref(s, c), s.vvNew[c]))
  }

  function ClearNew(s: State, c: Cell): State
    requires CanClear(s, c)
  {
    if c !in s.vvNew then s
    else
      var id := s.vvNew[c];
      var t := Unref(s, c);
      if t.mapInfo[id].nRefCount == 0 then Delete(t, id) else t
  }

  /** The cells that MakeTried empties: in each bucket, the entry's own position when it holds the id. */
  function OwnCells(net: Net, s: State, id: int): set<Cell>
    requires id in s.mapInfo
  {
    set c | c in s.vvNew && 0 <= c.bucket < NEW_BUCKET_COUNT &&
            c == NewCell(net, s.mapInfo[id].service, c.bucket) && s.vvNew[c] == id
  }

  function LeaveNew(net: Net, s: State, id: int): State
    requires id in s.mapInfo
  {
    var cells := OwnCells(net, s, id);
    SetInfo(s, id, s.mapInfo[id].(nRefCount := s.mapInfo[id].nRefCount - |cells|))
      .(vvNew := s.vvNew - cells, nNew := s.nNew - 1)
  }

  function LeaveTried(s: State, c: Cell): State
    requires c in s.vvTried && s.vvTried[c] in s.mapInfo
  {
    var id := s.vvTried[c];
    SetInfo(s, id, s.mapInfo[id].(fInTried := false)).(vvTried := s.vvTried - {c}, nTried := s.nTried - 1)
  }

  function EnterNew(s: State, id: int, c: Cell): State
    requires id in s.mapInfo
  {
    SetInfo(s, id, s.mapInfo[id].(nRefCount := 1)).(vvNew := s.vvNew[c := id], nNew := s.nNew + 1)
  }

  function EnterTried(s: State, id: int, c: Cell): State
    requires id in s.mapInfo
  {
    SetInfo(s, id, s.mapInfo[id].(fInTried := true)).(vvTried := s.vvTried[c := id], nTried := s.nTried + 1)
  }

  function PrimaryCell(net: Net, a: Info): Cell {
    NewCell(net, a.service, NewBucket(net, a.service, a.source))
  }

  predicate CanEvict(net: Net, s: State, c: Cell) {
    c in s.vvTried ==>
      && s.vvTried[c] in s.mapInfo
      && CanClear(LeaveTried(s, c), PrimaryCell(net, s.mapInfo[s.vvTried[c]]))
      && s.vvTried[c] in ClearNew(LeaveTried(s, c), PrimaryCell(net, s.mapInfo[s.vvTried[c]])).mapInfo
  }

  /** The tried entry in cell c, if any, goes back to its primary "new" bucket. */
  function Evict(net: Net, s: State, c: Cell): State
    requires CanEvict(net, s, c)
  {
    if c !in s.vvTried then s
    else
      var id := s.vvTried[c];
      var home := PrimaryCell(net, s.mapInfo[id]);
      EnterNew(ClearNew(LeaveTried(s, c), home), id, home)
  }

  predicate CanMakeTried(net: Net, s: State, id: int) {
    && id in s.mapInfo
    && LeaveNew(net, s, id).mapInfo[id].nRefCount == 0
    && var c := TriedCell(net, s.mapInfo[id].service);
       && CanEvict(net, LeaveNew(net, s, id), c)
       && id in Evict(net, LeaveNew(net, s, id), c).mapInfo
  }

  function MakeTried(net: Net, s: State, id: int): State
    requires CanMakeTried(net, s, id)
  {
    var c := TriedCell(net, s.mapInfo[id].service);
    EnterTried(Evict(net, LeaveNew(net, s, id), c), id, c)
  }

  // ------------------------------------------------------- public operations

  /** A call either returns or trips one of the source's asserts. */
  datatype Outcome = Done(s: State) | AssertFailed

  /** The search in Good_: some bucket has the id at the entry's position. */
  predicate InSomeBucket(net: Net, s: State, id: int)
    requires id in s.mapInfo
  {
    exists b :: 0 <= b < NEW_BUCKET_COUNT &&
                NewCell(net, s.mapInfo[id].service, b) in s.vvNew &&
                s.vvNew[NewCell(net, s.mapInfo[id].service, b)] == id
  }

  function Good(net: Net, s: State, addr: Service, time: int): Outcome {
    var s0 := s.(nLastGood := time);
    if !Known(s, addr.ip) then Done(s0)
    else
      var id := s.mapAddr[addr.ip];
      var a := s.mapInfo[id];
      if a.service != addr then Done(s0)
      else
        var s1 := SetInfo(s0, id, a.(nLastSuccess := time, nLastTry := time, nAttempts := 0));
        if a.fInTried then Done(s1)
        else if !InSomeBucket(net, s1, id) then Done(s1)
        else if CanMakeTried(net, s1, id) then Done(MakeTried(net, s1, id))
        else AssertFailed
  }

  /** The periodic refresh of a known entry's time and services. */
  function Refreshed(a: Info, addr: Address, penalty: int, now: int): Info {
    var interval := if now - addr.nTime < 24 * 60 * 60 then 60 * 60 else 24 * 60 * 60;
    var time := if addr.nTime != 0 && (a.nTime == 0 || a.nTime < addr.nTime - interval - penalty)
                then Max(0, addr.nTime - penalty) else a.nTime;
    a.(nTime := time, nServices := a.nServices | addr.nServices)
  }

  /** Whether a known entry may get one more reference; rnd stands for the random generator. */
  predicate MayRefer(a: Info, addr: Address, rnd: nat) {
    && addr.nTime != 0 && (a.nTime == 0 || addr.nTime > a.nTime)
    && !a.fInTried
    && a.nRefCount != NEW_BUCKETS_PER_ADDRESS
    && (var factor := Pow2(Max(0, a.nRefCount)); factor > 1 ==> rnd % factor == 0)
  }

  /** One more reference for id, from cell c. */
  function Refer(s: State, id: int, c: Cell): State
    requires id in s.mapInfo
  {
    SetInfo(s, id, s.mapInfo[id].(nRefCount := s.mapInfo[id].nRefCount + 1)).(vvNew := s.vvNew[c := id])
  }

  /** The second half of Add_: put the entry into the bucket its source selects, or drop it. */
  function Place(net: Net, s: State, id: int, source: NetAddr, now: int): Outcome
    requires id in s.mapInfo
  {
    var a := s.mapInfo[id];
    var c := NewCell(net, a.service, NewBucket(net, a.service, source));
    if c in s.vvNew && s.vvNew[c] == id then Done(s)
    else if c in s.vvNew && s.vvNew[c] !in s.mapInfo then AssertFailed
    else
      var insert := c !in s.vvNew || IsTerrible(s.mapInfo[s.vvNew[c]], now)
                    || (s.mapInfo[s.vvNew[c]].nRefCount > 1 && a.nRefCount == 0);
      if insert then
        if !CanClear(s, c) then AssertFailed
        else
          var t := ClearNew(s, c);
          if id !in t.mapInfo then AssertFailed else Done(Refer(t, id, c))
      else if a.nRefCount == 0 then
        if CanDelete(s, id) then Done(Delete(s, id)) else AssertFailed
      else Done(s)
  }

  /** A new entry, counted but not yet in any bucket. */
  function Created(s: State, addr: Address, source: NetAddr, penalty: int): State {
    var t := Create(s, addr, source);
    SetInfo(t, s.nIdCount, t.mapInfo[s.nIdCount].(nTime := Max(0, addr.nTime - penalty))).(nNew := t.nNew + 1)
  }

  function Add(net: Net, s: State, addr: Address, source: NetAddr, timePenalty: int, now: int, rnd: nat): Outcome {
    if !net.routable(addr.service.ip) then Done(s)
    else
      var penalty := if addr.service.ip == source then 0 else timePenalty;
      if Known(s, addr.service.ip) then
        var id := s.mapAddr[addr.service.ip];
        var a := Refreshed(s.mapInfo[id], addr, penalty, now);
        var s1 := SetInfo(s, id, a);
        if MayRefer(a, addr, rnd) then Place(net, s1, id, source, now) else Done(s1)
      else
        Place(net, Created(s, addr, source, penalty), s.nIdCount, source, now)
  }

  function Attempt(s: State, addr: Service, countFailure: bool, time: int): State {
    if !Known(s, addr.ip) || s.mapInfo[s.mapAddr[addr.ip]].service != addr then s
    else
      var id := s.mapAddr[addr.ip];
      var a := s.mapInfo[id].(nLastTry := time);
      SetInfo(s, id, if countFailure && a.nLastCountAttempt < s.nLastGood
                     then a.(nLastCountAttempt := time, nAttempts := a.nAttempts + 1) else a)
  }

  function Connected(s: State, addr: Service, time: int): State {
    if !Known(s, addr.ip) || s.mapInfo[s.mapAddr[addr.ip]].service != addr then s
    else
      var id := s.mapAddr[addr.ip];
      if time - s.mapInfo[id].nTime > 20 * 60 then SetInfo(s, id, s.mapInfo[id].(nTime := time)) else s
  }

  function SetServices(s: State, addr: Service, services: bv64): State {
    if !Known(s, addr.ip) || s.mapInfo[s.mapAddr[addr.ip]].service != addr then s
    else
      var id := s.mapAddr[addr.ip];
      SetInfo(s, id, s.mapInfo[id].(nServices := services))
  }

  function GetAddrLimit(s: State): int {
    var n := GETADDR_MAX_PCT * |s.vRandom| / 100;
    if n > GETADDR_MAX then GETADDR_MAX else n
  }

  datatype Gathered = Gathered(outcome: Outcome, ids: seq<int>)

  /** The gathering loop of GetAddr_ from position n on: a partial shuffle that skips terrible entries. */
  function GetAddr(s: State, n: nat, ids: seq<int>, limit: int, now: int, rnd: nat -> nat): Gathered
    decreases |s.vRandom| - n
  {
    if n >= |s.vRandom| || |ids| >= limit then Gathered(Done(s), ids)
    else
      var j := rnd(n) % (|s.vRandom| - n) + n;
      if !CanSwap(s, n, j) then Gathered(AssertFailed, ids)
      else
        var t := SwapRandom(s, n, j);
        if t.vRandom[n] !in t.mapInfo then Gathered(AssertFailed, ids)
        else
          var id := t.vRandom[n];
          GetAddr(t, n + 1, if IsTerrible(t.mapInfo[id], now) then ids else ids + [id], limit, now, rnd)
  }
}
