/**
  Unserialize on arbitrary streams: exactly which of them leave a consistent address manager
  behind.  Nothing in the format keeps an address from occurring twice or a count from being
  negative, and pruning one entry forgets the address of all its namesakes.
 */
module AddrManAnyStream {
  import opened Common
  import opened AddrManModel
  import opened AddrManInvariant
  import opened AddrManStream
  import opened AddrManFile

  // ------------------------------------------------ what every reading loop keeps

  /** The entries that pruning will drop. */
  function Loose(s: State): set<int> {
    set id | id in s.mapInfo && Unplaced(s, id)
  }

  /** Every address read is known, if only under the id of a namesake. */
  ghost predicate AddrKnown(s: State) {
    && (forall ip :: ip in s.mapAddr ==> s.mapAddr[ip] in s.mapInfo && s.mapInfo[s.mapAddr[ip]].service.ip == ip)
    && (forall id :: id in s.mapInfo ==> s.mapInfo[id].service.ip in s.mapAddr)
  }

  /** New entries have the ids below nNew; tried entries, of which `left` are still to come, those above. */
  ghost predicate Numbered(s: State, k: int, left: int) {
    && (forall id :: id in s.mapInfo ==> 0 <= id && (s.mapInfo[id].fInTried <==> id >= s.nNew))
    && |NewIds(s.mapInfo)| == Min(k, s.nNew) && s.nTried == |TriedIds(s.mapInfo)| + left
  }

  ghost predicate Reading(net: Net, s: State, k: int, left: int) {
    && RandomOk(s, k) && NewOk(net, s, Loose(s)) && TriedOk(net, s)
    && AddrKnown(s) && Numbered(s, k, left)
  }

  lemma FreshInTable(net: Net, s: State, id: int, limbo: set<int>)
    requires NewOk(net, s, limbo) && id !in s.mapInfo
    ensures CellsOf(s.vvNew, id) == {}
  {
    forall c | c in s.vvNew ensures s.vvNew[c] != id { assert NewCellOk(net, s, c); }
  }

  /** An entry without references, new or tried, changes nothing in the "new" table. */
  lemma AddToNew(net: Net, s: State, t: State, id: int, a: Info)
    requires NewOk(net, s, Loose(s)) && id !in s.mapInfo && t.mapInfo == s.mapInfo[id := a] && t.vvNew == s.vvNew
    requires a.nRefCount == 0
    ensures NewOk(net, t, Loose(t))
  {
    hide NewCell;
    FreshInTable(net, s, id, Loose(s));
    assert Loose(t) == if a.fInTried then Loose(s) else Loose(s) + {id};
    forall k | k in t.mapInfo ensures RefsOk(t, k, Loose(t)) {
      if k != id { assert RefsOk(s, k, Loose(s)); }
    }
    forall c | c in t.vvNew ensures NewCellOk(net, t, c) { assert NewCellOk(net, s, c); }
  }

  lemma AddToAddr(s: State, t: State, id: int, a: Info)
    requires AddrKnown(s) && id !in s.mapInfo && t.mapInfo == s.mapInfo[id := a]
      && t.mapAddr == s.mapAddr[a.service.ip := id]
    ensures AddrKnown(t)
  {
  }

  lemma AddIds(m: map<int, Info>, id: int, a: Info)
    requires id !in m
    ensures TriedIds(m[id := a]) == if a.fInTried then TriedIds(m) + {id} else TriedIds(m)
    ensures NewIds(m[id := a]) == if a.fInTried then NewIds(m) else NewIds(m) + {id}
    ensures id !in TriedIds(m) && id !in NewIds(m)
  {
  }

  lemma FreshAt(s: State, k: int, id: int)
    requires RandomOk(s, k) && id >= k
    ensures id !in s.mapInfo
  {
  }

  /** One more reference from a free cell. */
  lemma ReferReading(net: Net, s: State, id: int, c: Cell, k: int, left: int)
    requires Reading(net, s, k, left) && id in s.mapInfo && !s.mapInfo[id].fInTried
    requires s.mapInfo[id].nRefCount < NEW_BUCKETS_PER_ADDRESS
    requires c !in s.vvNew && 0 <= c.bucket < NEW_BUCKET_COUNT && c == NewCell(net, s.mapInfo[id].service, c.bucket)
    ensures Reading(net, Refer(s, id, c), k, left)
  {
    hide RandomOk, NewCell, NewOk, TriedOk, AddrKnown, Numbered, Loose;
    var t := Refer(s, id, c);
    ReferRandom(s, id, c, k);
    RefsNotNegative(net, s, id);
    ReferNew(net, s, t, id, c, Loose(s));
    ReferLoose(s, id, c);
    SameTried(net, s, t);
    ReferAddr(s, id, c);
    ReferNumbered(s, id, c, k, left);
  }

  lemma ReferLoose(s: State, id: int, c: Cell)
    requires id in s.mapInfo && s.mapInfo[id].nRefCount >= 0
    ensures Loose(Refer(s, id, c)) == Loose(s) - {id}
  {
  }

  lemma ReferAddr(s: State, id: int, c: Cell)
    requires AddrKnown(s) && id in s.mapInfo
    ensures AddrKnown(Refer(s, id, c))
  {
  }

  lemma ReferNumbered(s: State, id: int, c: Cell, k: int, left: int)
    requires Numbered(s, k, left) && id in s.mapInfo
    ensures Numbered(Refer(s, id, c), k, left)
  {
    var t := Refer(s, id, c);
    assert NewIds(t.mapInfo) == NewIds(s.mapInfo) && TriedIds(t.mapInfo) == TriedIds(s.mapInfo);
  }

  lemma RefsNotNegative(net: Net, s: State, id: int)
    requires NewOk(net, s, Loose(s)) && id in s.mapInfo
    ensures s.mapInfo[id].nRefCount >= 0
  {
    assert RefsOk(s, id, Loose(s));
  }

  lemma PutNewPlain(net: Net, s: State, n: nat, r: Rec, left: int)
    requires Reading(net, s, n, left) && n < s.nNew
    ensures Reading(net, PutNew(net, s, n, r, false), n + 1, left)
  {
    hide RandomOk, NewOk, TriedOk, AddrKnown, Numbered, Loose, NewCell;
    var t := PutNew(net, s, n, r, false);
    var a := Restore(r, |s.vRandom|);
    FreshAt(s, n, n);
    PutNewRandom(net, s, n, r, false);
    AddToNew(net, s, t, n, a);
    AddToAddr(s, t, n, a);
    NewAdded(s, t, n, a, left);
    SameTried(net, s, t);
  }

  lemma NewAdded(s: State, t: State, n: nat, a: Info, left: int)
    requires Numbered(s, n, left) && n < s.nNew && n !in s.mapInfo && !a.fInTried
    requires t.mapInfo == s.mapInfo[n := a] && t.nNew == s.nNew && t.nTried == s.nTried
    ensures Numbered(t, n + 1, left)
  {
    AddIds(s.mapInfo, n, a);
  }

  lemma PutNewReading(net: Net, s: State, n: nat, r: Rec, rebuild: bool, left: int)
    requires Reading(net, s, n, left) && n < s.nNew
    ensures var t := PutNew(net, s, n, r, rebuild);
      Reading(net, t, n + 1, left) && t.nNew == s.nNew && t.nTried == s.nTried
  {
    hide Reading, NewCell, NewBucket;
    PutNewPlain(net, s, n, r, left);
    var c := NewCell(net, r.service, NewBucket(net, r.service, r.source));
    if rebuild && c !in s.vvNew {
      var u := PutNew(net, s, n, r, false);
      OwnBucket(net, r);
      ReferReading(net, u, n, c, n + 1, left);
      assert Refer(u, n, c) == PutNew(net, s, n, r, true);
    } else {
      assert PutNew(net, s, n, r, rebuild) == PutNew(net, s, n, r, false);
    }
  }

  lemma OwnBucket(net: Net, r: Rec)
    ensures 0 <= NewBucket(net, r.service, r.source) < NEW_BUCKET_COUNT
    ensures forall b :: NewCell(net, r.service, b).bucket == b
  {
  }

  lemma {:induction false} LoadNewReading(net: Net, s: State, n: nat, rebuild: bool, items: Stream, left: int)
    requires Reading(net, s, n, left) && n <= s.nNew
    ensures var r := LoadNew(net, s, n, s.nNew, rebuild, items);
            r.Got? ==> && Reading(net, r.value, r.value.nIdCount, left)
                       && r.value.nIdCount == r.value.nNew == s.nNew && r.value.nTried == s.nTried
    decreases s.nNew - n
  {
    hide Reading, PutNew;
    if n == s.nNew {
      ReadingCount(net, s, n, left, n);
    } else if items != [] && items[0].Entry? {
      PutNewReading(net, s, n, items[0].rec, rebuild, left);
      LoadNewReading(net, PutNew(net, s, n, items[0].rec, rebuild), n + 1, rebuild, items[1..], left);
    }
  }

  lemma ReadingCount(net: Net, s: State, k: int, left: int, count: int)
    requires Reading(net, s, k, left)
    ensures Reading(net, s.(nIdCount := count), k, left)
  {
    hide NewCell, TriedCell;
    var t := s.(nIdCount := count);
    assert Loose(t) == Loose(s);
    forall x | x in t.mapInfo ensures RandomAt(t, x) && RefsOk(t, x, Loose(t)) {
      assert RandomAt(s, x) && RefsOk(s, x, Loose(s));
    }
    forall c | c in t.vvNew ensures NewCellOk(net, t, c) { assert NewCellOk(net, s, c); }
  }

  /** A tried entry takes its cell. */
  lemma AddToTried(net: Net, s: State, t: State, id: int, a: Info)
    requires TriedOk(net, s) && id !in s.mapInfo && a.fInTried && t.mapInfo == s.mapInfo[id := a]
    requires TriedCell(net, a.service) !in s.vvTried && t.vvTried == s.vvTried[TriedCell(net, a.service) := id]
    ensures TriedOk(net, t)
  {
    hide TriedCell;
    forall c | c in t.vvTried ensures t.vvTried[c] == if c == TriedCell(net, a.service) then id else s.vvTried[c] {}
  }

  lemma PutTriedReading(net: Net, s: State, r: Rec, left: int)
    requires Reading(net, s, s.nIdCount, left) && 0 <= s.nNew <= s.nIdCount
    ensures var t := PutTried(net, s, r);
            Reading(net, t, t.nIdCount, left - 1) && t.nNew == s.nNew <= t.nIdCount
  {
    hide RandomOk, NewOk, TriedOk, AddrKnown, TriedCell, Loose, Numbered;
    var t, id := PutTried(net, s, r), s.nIdCount;
    PutTriedRandom(net, s, r);
    if TriedCell(net, r.service) in s.vvTried {
      SameEverywhere(net, s, t);
      TriedLost(s, t, id, left);
    } else {
      var a := Restore(r, |s.vRandom|).(fInTried := true);
      FreshAt(s, id, id);
      AddToNew(net, s, t, id, a);
      AddToAddr(s, t, id, a);
      AddToTried(net, s, t, id, a);
      TriedAdded(s, t, id, a, left);
    }
  }

  lemma TriedLost(s: State, t: State, k: int, left: int)
    requires Numbered(s, k, left) && t == s.(nTried := s.nTried - 1)
    ensures Numbered(t, k, left - 1)
  {
  }

  lemma TriedAdded(s: State, t: State, id: int, a: Info, left: int)
    requires Numbered(s, id, left) && 0 <= s.nNew <= id && id !in s.mapInfo && a.fInTried
    requires t.mapInfo == s.mapInfo[id := a] && t.nNew == s.nNew && t.nTried == s.nTried
    ensures Numbered(t, id + 1, left - 1)
  {
    AddIds(s.mapInfo, id, a);
  }

  lemma SameEverywhere(net: Net, s: State, t: State)
    requires NewOk(net, s, Loose(s)) && TriedOk(net, s) && AddrKnown(s)
    requires t.mapInfo == s.mapInfo && t.mapAddr == s.mapAddr && t.vvNew == s.vvNew && t.vvTried == s.vvTried
    ensures NewOk(net, t, Loose(t)) && TriedOk(net, t) && AddrKnown(t)
  {
    hide NewCell, TriedCell;
    assert Loose(t) == Loose(s);
    forall x | x in t.mapInfo ensures RefsOk(t, x, Loose(t)) { assert RefsOk(s, x, Loose(s)); }
    forall c | c in t.vvNew ensures NewCellOk(net, t, c) { assert NewCellOk(net, s, c); }
  }

  lemma {:induction false} LoadTriedReading(net: Net, s: State, left: nat, items: Stream)
    requires Reading(net, s, s.nIdCount, left) && 0 <= s.nNew <= s.nIdCount
    ensures var r := LoadTried(net, s, left, items);
            r.Got? ==> Reading(net, r.value, r.value.nIdCount, 0) && r.value.nNew == s.nNew <= r.value.nIdCount
    decreases left
  {
    hide Reading, PutTried;
    if left > 0 && items != [] && items[0].Entry? {
      PutTriedReading(net, s, items[0].rec, left);
      LoadTriedReading(net, PutTried(net, s, items[0].rec), left - 1, items[1..]);
    }
  }

  /** What the reading of positions keeps. */
  ghost predicate ReadingTables(net: Net, s: State) {
    Reading(net, s, s.nIdCount, 0) && 0 <= s.nNew <= s.nIdCount
  }

  lemma PutPositionReading(net: Net, s: State, bucket: int, index: int, use: bool)
    requires ReadingTables(net, s) && (use ==> 0 <= bucket < NEW_BUCKET_COUNT)
    ensures ReadingTables(net, PutPosition(net, s, bucket, index, use))
  {
    hide Reading, NewCell;
    if 0 <= index < s.nNew && index in s.mapInfo {
      var c := NewCell(net, s.mapInfo[index].service, bucket);
      NewBelow(net, s, index);
      CellBucket(net, s.mapInfo[index].service, bucket);
      if use && c !in s.vvNew && s.mapInfo[index].nRefCount < NEW_BUCKETS_PER_ADDRESS {
        ReferReading(net, s, index, c, s.nIdCount, 0);
      }
    }
  }

  lemma NewBelow(net: Net, s: State, id: int)
    requires Reading(net, s, s.nIdCount, 0) && id in s.mapInfo && id < s.nNew
    ensures !s.mapInfo[id].fInTried
  {
  }

  lemma CellBucket(net: Net, v: Service, b: int)
    ensures NewCell(net, v, b).bucket == b
  {
  }

  lemma {:induction false} LoadBucketReading(net: Net, s: State, bucket: int, left: int, use: bool, items: Stream)
    requires ReadingTables(net, s) && (use ==> 0 <= bucket < NEW_BUCKET_COUNT)
    ensures var r := LoadBucket(net, s, bucket, left, use, items); r.Got? ==> ReadingTables(net, r.value)
    decreases left
  {
    hide ReadingTables, PutPosition;
    if left > 0 && items != [] && items[0].Num? {
      PutPositionReading(net, s, bucket, items[0].n, use);
      LoadBucketReading(net, PutPosition(net, s, bucket, items[0].n, use), bucket, left - 1, use, items[1..]);
    }
  }

  lemma {:induction false} LoadBucketsReading(net: Net, s: State, bucket: nat, count: int, use: bool, items: Stream)
    requires ReadingTables(net, s) && (use ==> count == NEW_BUCKET_COUNT)
    ensures var r := LoadBuckets(net, s, bucket, count, use, items); r.Got? ==> ReadingTables(net, r.value)
    decreases count - bucket
  {
    hide ReadingTables, LoadBucket;
    if bucket < count && items != [] && items[0].Num? {
      LoadBucketReading(net, s, bucket, items[0].n, use, items[1..]);
      match LoadBucket(net, s, bucket, items[0].n, use, items[1..])
      case Got(t, rest) => LoadBucketsReading(net, t, bucket + 1, count, use, rest);
      case _ =>
    }
  }

  // --------------------------------------------------------------------- pruning

  /** mapAddr leads to the entry itself and not to a namesake. */
  predicate Owned(s: State, id: int)
    requires id in s.mapInfo
  {
    s.mapInfo[id].service.ip in s.mapAddr && s.mapAddr[s.mapInfo[id].service.ip] == id
  }

  ghost predicate AddrSound(s: State) {
    forall ip :: ip in s.mapAddr ==> s.mapAddr[ip] in s.mapInfo && s.mapInfo[s.mapAddr[ip]].service.ip == ip
  }

  /** All of the invariant that pruning keeps, whatever was read. */
  ghost predicate Pruning(net: Net, s: State) {
    && RandomOk(s, s.nIdCount) && (forall id :: id in s.mapInfo ==> 0 <= id)
    && NewOk(net, s, Loose(s)) && TriedOk(net, s) && Counts(s, {}) && AddrSound(s)
  }

  lemma ReadIsPruning(net: Net, s: State)
    requires ReadingTables(net, s)
    ensures Pruning(net, s)
  {
    hide RandomOk, NewOk, TriedOk;
    assert NewIds(s.mapInfo) - {} == NewIds(s.mapInfo);
  }

  lemma SwapFacts(s: State, i: int, j: int)
    requires CanSwap(s, i, j)
    ensures var t := SwapRandom(s, i, j);
            && t == s.(mapInfo := t.mapInfo, vRandom := t.vRandom) && |t.vRandom| == |s.vRandom|
            && t.mapInfo.Keys == s.mapInfo.Keys
            && (forall k {:trigger s.mapInfo[k]} {:trigger t.mapInfo[k]} :: k in t.mapInfo ==>
              t.mapInfo[k] == s.mapInfo[k].(nRandomPos := t.mapInfo[k].nRandomPos))
  {
  }

  lemma DeleteFacts(s: State, id: int)
    requires CanDelete(s, id)
    ensures var t := Delete(s, id);
            Without(s, t, id) && t.mapAddr == s.mapAddr - {s.mapInfo[id].service.ip} && t.nIdCount == s.nIdCount
  {
    hide SwapRandom, CanSwap;
    SwapFacts(s, s.mapInfo[id].nRandomPos, |s.vRandom| - 1);
  }

  lemma WithoutLoose(s: State, t: State, id: int)
    requires Without(s, t, id)
    ensures Loose(t) == Loose(s) - {id}
  {
  }

  lemma WithoutAddr(s: State, t: State, id: int)
    requires AddrSound(s) && id in s.mapInfo && Without(s, t, id) && t.mapAddr == s.mapAddr - {s.mapInfo[id].service.ip}
    ensures AddrSound(t)
  {
    forall ip | ip in t.mapAddr ensures t.mapAddr[ip] in t.mapInfo && t.mapInfo[t.mapAddr[ip]].service.ip == ip {
      var k := s.mapAddr[ip];
      assert k in t.mapInfo && t.mapInfo[k] == s.mapInfo[k].(nRandomPos := t.mapInfo[k].nRandomPos);
    }
  }

  lemma DeletePruning(net: Net, s: State, id: int)
    requires Pruning(net, s) && Unplaced(s, id)
    ensures CanDelete(s, id) && Pruning(net, Delete(s, id))
  {
    hide RandomOk, NewOk, TriedOk, Counts, AddrSound, Without, CanDelete, Delete, Loose;
    DeleteRandom(s, id, s.nIdCount);
    DeleteFacts(s, id);
    var t := Delete(s, id);
    LooseIs(s, id);
    WithoutNew(net, s, t, id, Loose(s));
    WithoutLoose(s, t, id);
    WithoutTried(net, s, t, id, {});
    WithoutAddr(s, t, id);
    WithoutKeys(s, t, id);
  }

  lemma LooseIs(s: State, id: int)
    ensures id in Loose(s) <==> Unplaced(s, id)
  {
  }

  lemma WithoutKeys(s: State, t: State, id: int)
    requires Without(s, t, id)
    ensures t.mapInfo.Keys == s.mapInfo.Keys - {id}
  {
  }

  /** An entry below k that pruning drops has the same address. */
  ghost predicate LosesAddress(s: State, id: int, k: int)
    requires id in s.mapInfo
  {
    exists j :: j in s.mapInfo && j < k && Unplaced(s, j) && s.mapInfo[j].service.ip == s.mapInfo[id].service.ip
  }

  /** How the state t of the pruning loop at id k relates to the state s it started from. */
  ghost predicate PrunedTo(s: State, t: State, k: int) {
    && t.nIdCount == s.nIdCount
    && (forall id :: id in t.mapInfo <==> id in s.mapInfo && !(id < k && Unplaced(s, id)))
    && (forall id {:trigger t.mapInfo[id]} :: id in t.mapInfo ==>
          && t.mapInfo[id] == s.mapInfo[id].(nRandomPos := t.mapInfo[id].nRandomPos)
          && (Owned(t, id) <==> Owned(s, id) && !LosesAddress(s, id, k)))
  }

  lemma PrunedStart(s: State)
    requires forall id :: id in s.mapInfo ==> 0 <= id
    ensures PrunedTo(s, s, 0)
  {
  }

  lemma PrunedSkip(s: State, t: State, k: int)
    requires PrunedTo(s, t, k) && !Unplaced(t, k)
    ensures PrunedTo(s, t, k + 1)
  {
    assert !Unplaced(s, k) by {
      if k in t.mapInfo { assert t.mapInfo[k] == s.mapInfo[k].(nRandomPos := t.mapInfo[k].nRandomPos); }
    }
    forall id | id in t.mapInfo ensures LosesAddress(s, id, k) == LosesAddress(s, id, k + 1) {}
  }

  lemma PrunedDelete(s: State, t: State, u: State, k: int)
    requires PrunedTo(s, t, k) && Unplaced(t, k) && Without(t, u, k)
    requires u.mapAddr == t.mapAddr - {t.mapInfo[k].service.ip} && u.nIdCount == t.nIdCount
    ensures PrunedTo(s, u, k + 1)
  {
    assert t.mapInfo[k] == s.mapInfo[k].(nRandomPos := t.mapInfo[k].nRandomPos);
    assert Unplaced(s, k);
    forall id | id in u.mapInfo
      ensures u.mapInfo[id] == s.mapInfo[id].(nRandomPos := u.mapInfo[id].nRandomPos)
      ensures Owned(u, id) <==> Owned(s, id) && !LosesAddress(s, id, k + 1)
    {
      assert t.mapInfo[id] == s.mapInfo[id].(nRandomPos := t.mapInfo[id].nRandomPos);
      assert Owned(u, id) <==> Owned(t, id) && t.mapInfo[k].service.ip != t.mapInfo[id].service.ip;
      assert LosesAddress(s, id, k + 1) <==>
        LosesAddress(s, id, k) || s.mapInfo[k].service.ip == s.mapInfo[id].service.ip;
    }
  }

  lemma {:induction false} PruneTo(net: Net, s: State, t: State, k: int)
    requires Pruning(net, t) && PrunedTo(s, t, k) && k <= t.nIdCount
    ensures var r := Prune(t, k); r.Done? && Pruning(net, r.s) && PrunedTo(s, r.s, s.nIdCount)
    decreases t.nIdCount - k
  {
    hide Pruning, PrunedTo, Delete, CanDelete, Without;
    SameCount(s, t, k);
    if k < t.nIdCount {
      if Unplaced(t, k) {
        DeletePruning(net, t, k);
        DeleteFacts(t, k);
        PrunedDelete(s, t, Delete(t, k), k);
        PruneTo(net, s, Delete(t, k), k + 1);
      } else {
        PrunedSkip(s, t, k);
        PruneTo(net, s, t, k + 1);
      }
    }
  }

  lemma SameCount(s: State, t: State, k: int)
    requires PrunedTo(s, t, k)
    ensures s.nIdCount == t.nIdCount
  {
  }

  // ------------------------------------------------------------------ the theorem

  /** No entry that stays shares its address with any other entry that was read. */
  ghost predicate NoNamesakes(s: State) {
    forall i, j :: i in s.mapInfo && j in s.mapInfo && i != j && !Unplaced(s, i) ==>
      s.mapInfo[i].service.ip != s.mapInfo[j].service.ip
  }

  /** The times of the entries that stay are possible ones. */
  ghost predicate TimesStay(s: State) {
    forall id :: id in s.mapInfo && !Unplaced(s, id) ==> TimesOk(s.mapInfo[id])
  }

  /** Nothing loose is left. */
  lemma NoneLoose(net: Net, s: State, t: State)
    requires Pruning(net, s) && PrunedTo(s, t, s.nIdCount)
    ensures Loose(t) == {} && forall id :: id in t.mapInfo <==> id in s.mapInfo && !Unplaced(s, id)
  {
    hide NewOk, TriedOk, Counts, AddrSound;
    forall id | id in t.mapInfo ensures !Unplaced(t, id) && !Unplaced(s, id) {
      assert RandomAt(s, id);
      assert t.mapInfo[id] == s.mapInfo[id].(nRandomPos := t.mapInfo[id].nRandomPos);
    }
    forall id | id in s.mapInfo && !Unplaced(s, id) ensures id in t.mapInfo {}
  }

  /** Apart from addresses and times, pruning leaves a consistent manager. */
  lemma PrunedInv(net: Net, t: State)
    requires Pruning(net, t) && Loose(t) == {} && 0 <= t.nIdCount
    ensures Inv(net, t) <==> Times(t) && forall id :: id in t.mapInfo ==> Owned(t, id)
  {
    hide NewOk, TriedOk, Counts, Times, Loose;
    forall id | id in t.mapInfo ensures Linked(t, id) <==> Owned(t, id) { assert RandomAt(t, id); }
  }

  lemma TimesOfStaying(net: Net, s: State, t: State)
    requires PrunedTo(s, t, s.nIdCount) && forall id :: id in t.mapInfo <==> id in s.mapInfo && !Unplaced(s, id)
    ensures Times(t) <==> TimesStay(s)
  {
    forall id | id in t.mapInfo ensures TimesOk(t.mapInfo[id]) <==> TimesOk(s.mapInfo[id]) {
      assert t.mapInfo[id] == s.mapInfo[id].(nRandomPos := t.mapInfo[id].nRandomPos);
    }
  }

  lemma AddressesOfStaying(net: Net, s: State, t: State)
    requires AddrKnown(s) && RandomOk(s, s.nIdCount)
    requires PrunedTo(s, t, s.nIdCount) && forall id :: id in t.mapInfo <==> id in s.mapInfo && !Unplaced(s, id)
    ensures (forall id :: id in t.mapInfo ==> Owned(t, id)) <==> NoNamesakes(s)
  {
    forall id | id in t.mapInfo ensures Owned(t, id) <==> Owned(s, id) && !LosesAddress(s, id, s.nIdCount) {
      assert t.mapInfo[id] == s.mapInfo[id].(nRandomPos := t.mapInfo[id].nRandomPos);
    }
    if NoNamesakes(s) {
      forall id | id in t.mapInfo ensures Owned(t, id) {
        var ip := s.mapInfo[id].service.ip;
        assert s.mapAddr[ip] in s.mapInfo && s.mapInfo[s.mapAddr[ip]].service.ip == ip;
      }
    }
    if forall id :: id in t.mapInfo ==> Owned(t, id) {
      forall i, j | i in s.mapInfo && j in s.mapInfo && i != j && !Unplaced(s, i)
        ensures s.mapInfo[i].service.ip != s.mapInfo[j].service.ip
      {
        assert i in t.mapInfo && Owned(s, i) && !LosesAddress(s, i, s.nIdCount);
        assert RandomAt(s, j);
        if !Unplaced(s, j) { assert j in t.mapInfo && Owned(s, j); }
      }
    }
  }

  /** What the three reading loops make of a stream, before pruning. */
  function AsRead(net: Net, s: State, current: bool, buckets: int, items: Stream): Read<State> {
    match LoadNew(net, s, 0, s.nNew, !current, items)
    case Got(s1, r1) =>
      (match LoadTried(net, s1, s1.nTried, r1)
       case Got(s2, r2) => LoadBuckets(net, s2, 0, buckets, current, r2)
       case Throw => Throw
       case Broken => Broken)
    case Throw => Throw
    case Broken => Broken
  }

  lemma LoadBodyIs(net: Net, key: nat, s: State, current: bool, buckets: int, items: Stream)
    requires LoadBody(net, key, s, current, buckets, items).Got?
    ensures var r := AsRead(net, s, current, buckets, items);
            r.Got? && Prune(r.value, 0) == Done(LoadBody(net, key, s, current, buckets, items).value.state)
  {
    hide LoadNew, LoadTried, LoadBuckets, Prune;
  }

  lemma EmptyReading(net: Net, s: State)
    requires s == INITIAL.(nNew := s.nNew, nTried := s.nTried) && s.nNew >= 0
    ensures Reading(net, s, 0, s.nTried)
  {
    assert NewIds(s.mapInfo) == {} && TriedIds(s.mapInfo) == {};
  }

  lemma AsReadTables(net: Net, s: State, current: bool, buckets: int, items: Stream)
    requires s == INITIAL.(nNew := s.nNew, nTried := s.nTried) && s.nNew >= 0 && s.nTried >= 0
    requires current ==> buckets == NEW_BUCKET_COUNT
    ensures var r := AsRead(net, s, current, buckets, items); r.Got? ==> ReadingTables(net, r.value)
  {
    hide Reading, LoadNew, LoadTried, LoadBuckets;
    EmptyReading(net, s);
    LoadNewReading(net, s, 0, !current, items, s.nTried);
    match LoadNew(net, s, 0, s.nNew, !current, items)
    case Got(s1, r1) =>
      LoadTriedReading(net, s1, s1.nTried, r1);
      match LoadTried(net, s1, s1.nTried, r1) {
        case Got(s2, r2) => LoadBucketsReading(net, s2, 0, buckets, current, r2);
        case _ =>
      }
    case _ =>
  }

  lemma PrunedIff(net: Net, s: State)
    requires ReadingTables(net, s)
    ensures var r := Prune(s, 0); r.Done? && (Inv(net, r.s) <==> NoNamesakes(s) && TimesStay(s))
  {
    hide Pruning, PrunedTo, RandomOk, NewOk, TriedOk, AddrKnown, Inv, Prune, NoNamesakes, TimesStay, Times, Owned;
    ReadIsPruning(net, s);
    PrunedStart(s);
    PruneTo(net, s, s, 0);
    var t := Prune(s, 0).s;
    SameCount(s, t, s.nIdCount);
    NoneLoose(net, s, t);
    PrunedInv(net, t);
    TimesOfStaying(net, s, t);
    AddressesOfStaying(net, s, t);
  }

  // ------------------------------------------------------------- negative counts

  lemma {:induction false} TriedStays(net: Net, s: State, left: int, items: Stream, id: int)
    requires id in s.mapInfo
    ensures var r := LoadTried(net, s, left, items); r.Got? ==> id in r.value.mapInfo && r.value.nNew == s.nNew
    decreases left
  {
    hide TriedCell;
    if left > 0 && items != [] && items[0].Entry? {
      TriedStays(net, PutTried(net, s, items[0].rec), left - 1, items[1..], id);
    }
  }

  /** Without new entries, stored positions are read and ignored. */
  lemma {:induction false} NoPositions(net: Net, s: State, bucket: int, left: int, use: bool, items: Stream)
    requires s.nNew <= 0
    ensures var r := LoadBucket(net, s, bucket, left, use, items); r.Got? ==> r.value == s
    decreases left
  {
    if left > 0 && items != [] && items[0].Num? { NoPositions(net, s, bucket, left - 1, use, items[1..]); }
  }

  lemma {:induction false} NoBuckets(net: Net, s: State, bucket: int, count: int, use: bool, items: Stream)
    requires s.nNew <= 0
    ensures var r := LoadBuckets(net, s, bucket, count, use, items); r.Got? ==> r.value == s
    decreases count - bucket
  {
    hide LoadBucket;
    if bucket < count && items != [] && items[0].Num? {
      NoPositions(net, s, bucket, items[0].n, use, items[1..]);
      match LoadBucket(net, s, bucket, items[0].n, use, items[1..])
      case Got(t, rest) => NoBuckets(net, t, bucket + 1, count, use, rest);
      case _ =>
    }
  }

  /** Pruning starts at id 0, and changes neither nTried nor nIdCount. */
  lemma {:induction false} PruneLeaves(s: State, k: nat, id: int)
    requires Prune(s, k).Done? && id < 0
    ensures var t := Prune(s, k).s;
      t.nTried == s.nTried && t.nIdCount == s.nIdCount && (id in s.mapInfo ==> id in t.mapInfo)
    decreases s.nIdCount - k
  {
    hide Delete, CanDelete;
    if k < s.nIdCount {
      if Unplaced(s, k) {
        DeleteFacts(s, k);
        PruneLeaves(Delete(s, k), k + 1, id);
      } else {
        PruneLeaves(s, k + 1, id);
      }
    }
  }

  lemma {:induction false} BucketKeepsTried(net: Net, s: State, bucket: int, left: int, use: bool, items: Stream)
    ensures var r := LoadBucket(net, s, bucket, left, use, items); r.Got? ==> r.value.nTried == s.nTried
    decreases left
  {
    hide NewCell;
    if left > 0 && items != [] && items[0].Num? {
      BucketKeepsTried(net, PutPosition(net, s, bucket, items[0].n, use), bucket, left - 1, use, items[1..]);
    }
  }

  lemma {:induction false} BucketsKeepTried(net: Net, s: State, bucket: int, count: int, use: bool, items: Stream)
    ensures var r := LoadBuckets(net, s, bucket, count, use, items); r.Got? ==> r.value.nTried == s.nTried
    decreases count - bucket
  {
    hide LoadBucket;
    if bucket < count && items != [] && items[0].Num? {
      BucketKeepsTried(net, s, bucket, items[0].n, use, items[1..]);
      match LoadBucket(net, s, bucket, items[0].n, use, items[1..])
      case Got(t, rest) => BucketsKeepTried(net, t, bucket + 1, count, use, rest);
      case _ =>
    }
  }

  lemma {:induction false} NewKeepsTried(net: Net, s: State, n: nat, count: int, rebuild: bool, items: Stream)
    ensures var r := LoadNew(net, s, n, count, rebuild, items); r.Got? ==> r.value.nTried == s.nTried
    decreases count - n
  {
    if n < count && items != [] && items[0].Entry? {
      NewKeepsTried(net, PutNew(net, s, n, items[0].rec, rebuild), n + 1, count, rebuild, items[1..]);
    }
  }

  /** A negative number of new entries leaves a negative id behind. */
  lemma NegativeNew(net: Net, s: State, current: bool, buckets: int, items: Stream)
    requires s == INITIAL.(nNew := s.nNew, nTried := s.nTried) && s.nNew < 0
    ensures var r := AsRead(net, s, current, buckets, items);
      r.Got? && Prune(r.value, 0).Done? ==> !Inv(net, Prune(r.value, 0).s)
  {
    hide LoadBuckets, Prune, NewOk, TriedOk, Counts, Times, TriedCell;
    var r := AsRead(net, s, current, buckets, items);
    if r.Got? && Prune(r.value, 0).Done? {
      var s1 := s.(nIdCount := s.nNew);
      assert LoadNew(net, s, 0, s.nNew, !current, items) == Got(s1, items);
      var t := LoadTried(net, s1, s1.nTried, items);
      if s1.nTried > 0 { TriedStays(net, PutTried(net, s1, items[0].rec), s1.nTried - 1, items[1..], s.nNew); }
      NoBuckets(net, t.value, 0, buckets, current, t.rest);
      PruneLeaves(r.value, 0, s.nNew);
      if s1.nTried > 0 { NegativeId(net, Prune(r.value, 0).s, s.nNew); }
    }
  }

  lemma NegativeId(net: Net, s: State, id: int)
    requires id in s.mapInfo && id < 0
    ensures !Inv(net, s)
  {
    if Inv(net, s) { LinkedAt(s, id); }
  }

  lemma NegativeTried(net: Net, s: State, current: bool, buckets: int, items: Stream)
    requires s == INITIAL.(nNew := s.nNew, nTried := s.nTried) && s.nTried < 0
    ensures var r := AsRead(net, s, current, buckets, items);
      r.Got? && Prune(r.value, 0).Done? ==> !Inv(net, Prune(r.value, 0).s)
  {
    hide LoadNew, LoadBuckets, Prune, NewOk, TriedOk, Index, Times;
    var r := AsRead(net, s, current, buckets, items);
    if r.Got? && Prune(r.value, 0).Done? {
      NewKeepsTried(net, s, 0, s.nNew, !current, items);
      var s1 := LoadNew(net, s, 0, s.nNew, !current, items);
      BucketsKeepTried(net, s1.value, 0, buckets, current, s1.rest);
      PruneLeaves(r.value, 0, -1);
    }
  }

  /**
    For every stream that loads: the manager is consistent if and only if neither count is
    negative, no entry that stays shares its address with another entry of the stream, and the
    times of the entries that stay are possible.
   */
  lemma BodyConsistentIff(net: Net, key: nat, s: State, current: bool, buckets: int, items: Stream)
    requires s == INITIAL.(nNew := s.nNew, nTried := s.nTried) && (current ==> buckets == NEW_BUCKET_COUNT)
    requires LoadBody(net, key, s, current, buckets, items).Got?
    ensures AsRead(net, s, current, buckets, items).Got?
    ensures Inv(net, LoadBody(net, key, s, current, buckets, items).value.state) <==>
              var t := AsRead(net, s, current, buckets, items).value;
              s.nNew >= 0 && s.nTried >= 0 && NoNamesakes(t) && TimesStay(t)
  {
    hide LoadBody, AsRead, Inv, NoNamesakes, TimesStay, Prune, ReadingTables;
    LoadBodyIs(net, key, s, current, buckets, items);
    if s.nNew < 0 {
      NegativeNew(net, s, current, buckets, items);
    } else if s.nTried < 0 {
      NegativeTried(net, s, current, buckets, items);
    } else {
      AsReadTables(net, s, current, buckets, items);
      PrunedIff(net, AsRead(net, s, current, buckets, items).value);
    }
  }

  lemma LoadedConsistentIff(keyed: nat -> Net, items: Stream)
    requires Load(keyed, items).Got?
    ensures |items| >= 6 && items[0].Num? && items[2].Key? && items[3].Num? && items[4].Num? && items[5].Num?
    ensures var nNew, nTried := items[3].n, items[4].n;
            var buckets := if items[0].n != 0 then FlipBit30(items[5].n) else items[5].n;
            var current := items[0].n == 1 && buckets == NEW_BUCKET_COUNT;
            var r := AsRead(keyed(items[2].key), INITIAL.(nNew := nNew, nTried := nTried), current, buckets,
              items[6..]);
            && r.Got?
            && (Inv(keyed(items[2].key), Load(keyed, items).value.state) <==>
                  nNew >= 0 && nTried >= 0 && NoNamesakes(r.value) && TimesStay(r.value))
  {
    hide LoadBody, AsRead, Inv, NoNamesakes, TimesStay;
    var nNew, nTried := items[3].n, items[4].n;
    var buckets := if items[0].n != 0 then FlipBit30(items[5].n) else items[5].n;
    BodyConsistentIff(keyed(items[2].key), items[2].key, INITIAL.(nNew := nNew, nTried := nTried),
                      items[0].n == 1 && buckets == NEW_BUCKET_COUNT, buckets, items[6..]);
  }

  /** One record twice, in the oldest format: it loads, and the first copy stays without its address. */
  lemma SameRecordTwice(keyed: nat -> Net, key: nat, r: Rec)
    ensures var items := [Num(0), Num(32), Key(key), Num(2), Num(0), Num(0), Entry(r), Entry(r)];
            Load(keyed, items).Got? && !Inv(keyed(key), Load(keyed, items).value.state)
  {
    hide Inv, Prune, NewCell, NewBucket;
    var items := [Num(0), Num(32), Key(key), Num(2), Num(0), Num(0), Entry(r), Entry(r)];
    var net, s := keyed(key), INITIAL.(nNew := 2);
    assert items[6..] == [Entry(r), Entry(r)];
    var s1 := PutNew(net, s, 0, r, true);
    var s2 := PutNew(net, s1, 1, r, true).(nIdCount := 2);
    ReadTwice(net, s, r);
    assert !Unplaced(s2, 0) && s2.mapInfo[0].service == s2.mapInfo[1].service == r.service;
    assert AsRead(net, s, false, 0, items[6..]) == Got(s2, []);
    AsReadTables(net, s, false, 0, items[6..]);
    PrunedIff(net, s2);
    LoadedConsistentIff(keyed, items);
  }

  lemma ReadTwice(net: Net, s: State, r: Rec)
    requires s == INITIAL.(nNew := 2)
    ensures LoadNew(net, s, 0, 2, true, [Entry(r), Entry(r)]) ==
              Got(PutNew(net, PutNew(net, s, 0, r, true), 1, r, true).(nIdCount := 2), [])
  {
    hide PutNew;
    var s1 := PutNew(net, s, 0, r, true);
    var s2 := PutNew(net, s1, 1, r, true);
    assert [Entry(r), Entry(r)][1..] == [Entry(r)] && [Entry(r)][1..] == [];
    assert LoadNew(net, s2, 2, 2, true, []) == Got(s2.(nIdCount := 2), []);
    assert LoadNew(net, s1, 1, 2, true, [Entry(r)]) == LoadNew(net, s2, 2, 2, true, []);
  }

  // ---------------------------------------------------- a condition on the stream

  /** No address occurs twice among the first total items. */
  ghost predicate DistinctAddresses(all: Stream, total: int) {
    forall i, j :: 0 <= i < j < total && j < |all| && all[i].Entry? && all[j].Entry? ==>
      all[i].rec.service.ip != all[j].rec.service.ip
  }

  /** Times are not negative, and those of the tried entries, from nNew on, are known. */
  ghost predicate PossibleTimes(all: Stream, nNew: int, total: int) {
    forall i :: 0 <= i < total && i < |all| && all[i].Entry? ==>
      all[i].rec.nLastSuccess >= 0 && (i >= nNew ==> all[i].rec.nLastSuccess != 0)
  }

  /** An entry is the one read at position i. */
  predicate ReadAt(a: Info, all: Stream, i: int, nNew: int) {
    && 0 <= i < |all| && all[i].Entry? && a.service == all[i].rec.service && a.nLastTry == 0
    && a.nLastSuccess == all[i].rec.nLastSuccess && a.fInTried == (i >= nNew)
  }

  /** Every entry was read before position m, and no two have one address. */
  ghost predicate Sourced(s: State, all: Stream, m: int) {
    && (forall id :: id in s.mapInfo ==> exists i :: i < m && ReadAt(s.mapInfo[id], all, i, s.nNew))
    && (forall x, y :: x in s.mapInfo && y in s.mapInfo && x != y ==>
      s.mapInfo[x].service.ip != s.mapInfo[y].service.ip)
  }

  lemma AddSourced(s: State, t: State, id: int, a: Info, all: Stream, m: nat, total: int)
    requires Sourced(s, all, m) && m < total && DistinctAddresses(all, total) && ReadAt(a, all, m, s.nNew)
    requires t.mapInfo == s.mapInfo[id := a] && t.nNew == s.nNew
    ensures Sourced(t, all, m + 1)
  {
    forall x | x in t.mapInfo ensures exists i :: i < m + 1 && ReadAt(t.mapInfo[x], all, i, t.nNew) {
      if x == id {
        assert ReadAt(t.mapInfo[x], all, m, t.nNew);
      } else {
        var i :| i < m && ReadAt(s.mapInfo[x], all, i, s.nNew);
        assert ReadAt(t.mapInfo[x], all, i, t.nNew);
      }
    }
    forall x | x in s.mapInfo ensures s.mapInfo[x].service.ip != a.service.ip {
      var i :| i < m && ReadAt(s.mapInfo[x], all, i, s.nNew);
    }
  }

  lemma SkipSourced(s: State, t: State, all: Stream, m: int)
    requires Sourced(s, all, m) && t.mapInfo == s.mapInfo && t.nNew == s.nNew
    ensures Sourced(t, all, m) && Sourced(t, all, m + 1)
  {
    forall x | x in t.mapInfo ensures exists i :: i < m + 1 && ReadAt(t.mapInfo[x], all, i, t.nNew) {
      var i :| i < m && ReadAt(s.mapInfo[x], all, i, s.nNew);
      assert ReadAt(t.mapInfo[x], all, i, t.nNew);
    }
  }

  lemma ReferSourced(s: State, id: int, c: Cell, all: Stream, m: int)
    requires Sourced(s, all, m) && id in s.mapInfo
    ensures Sourced(Refer(s, id, c), all, m)
  {
    var t := Refer(s, id, c);
    forall x | x in t.mapInfo ensures exists i :: i < m && ReadAt(t.mapInfo[x], all, i, t.nNew) {
      var i :| i < m && ReadAt(s.mapInfo[x], all, i, s.nNew);
      assert ReadAt(t.mapInfo[x], all, i, t.nNew);
    }
  }

  lemma PutNewEntry(net: Net, s: State, n: nat, all: Stream, rebuild: bool)
    requires n < |all| && all[n].Entry? && n < s.nNew
    ensures var t := PutNew(net, s, n, all[n].rec, rebuild);
      && t.mapInfo == s.mapInfo[n := t.mapInfo[n]] && t.nNew == s.nNew && t.nTried == s.nTried
      && ReadAt(t.mapInfo[n], all, n, s.nNew)
  {
    hide NewCell, NewBucket;
  }

  lemma {:induction false} LoadNewSourced(net: Net, s: State, n: nat, rebuild: bool, all: Stream, total: int)
    requires Sourced(s, all, n) && n <= s.nNew <= total && n <= |all| && DistinctAddresses(all, total)
    ensures var r := LoadNew(net, s, n, s.nNew, rebuild, all[n..]);
      r.Got? ==> && s.nNew <= |all| && r.rest == all[s.nNew..] && Sourced(r.value, all, s.nNew)
                 && r.value.nNew == s.nNew && r.value.nTried == s.nTried
    decreases s.nNew - n
  {
    hide Sourced, PutNew, DistinctAddresses;
    if n == s.nNew {
      SkipSourced(s, s.(nIdCount := s.nNew), all, n);
    } else if n < |all| && all[n].Entry? {
      assert all[n..][0] == all[n] && all[n..][1..] == all[n + 1..];
      var t := PutNew(net, s, n, all[n].rec, rebuild);
      PutNewEntry(net, s, n, all, rebuild);
      AddSourced(s, t, n, t.mapInfo[n], all, n, total);
      LoadNewSourced(net, t, n + 1, rebuild, all, total);
    }
  }

  lemma PutTriedSourced(net: Net, s: State, all: Stream, m: nat, total: int)
    requires Sourced(s, all, m) && 0 <= s.nNew <= m < total && m < |all| && all[m].Entry?
      && DistinctAddresses(all, total)
    ensures var t := PutTried(net, s, all[m].rec); Sourced(t, all, m + 1) && t.nNew == s.nNew
  {
    hide Sourced, TriedCell, DistinctAddresses;
    var t := PutTried(net, s, all[m].rec);
    if TriedCell(net, all[m].rec.service) in s.vvTried {
      SkipSourced(s, t, all, m);
    } else {
      AddSourced(s, t, s.nIdCount, t.mapInfo[s.nIdCount], all, m, total);
    }
  }

  lemma {:induction false} LoadTriedSourced(net: Net, s: State, left: nat, all: Stream, m: nat, total: int)
    requires Sourced(s, all, m) && 0 <= s.nNew <= m <= |all| && m + left == total && DistinctAddresses(all, total)
    ensures var r := LoadTried(net, s, left, all[m..]);
      r.Got? ==> Sourced(r.value, all, total) && r.value.nNew == s.nNew
    decreases left
  {
    hide Sourced, PutTried, DistinctAddresses;
    if left > 0 && m < |all| && all[m].Entry? {
      assert all[m..][0] == all[m] && all[m..][1..] == all[m + 1..];
      PutTriedSourced(net, s, all, m, total);
      LoadTriedSourced(net, PutTried(net, s, all[m].rec), left - 1, all, m + 1, total);
    }
  }

  lemma {:induction false} LoadBucketSourced(
    net: Net, s: State, bucket: int, left: int, use: bool, items: Stream, all: Stream, m: int)
    requires Sourced(s, all, m)
    ensures var r := LoadBucket(net, s, bucket, left, use, items);
      r.Got? ==> Sourced(r.value, all, m) && r.value.nNew == s.nNew
    decreases left
  {
    hide Sourced, NewCell;
    if left > 0 && items != [] && items[0].Num? {
      var index := items[0].n;
      var t := PutPosition(net, s, bucket, index, use);
      if t != s { ReferSourced(s, index, NewCell(net, s.mapInfo[index].service, bucket), all, m); }
      LoadBucketSourced(net, t, bucket, left - 1, use, items[1..], all, m);
    }
  }

  lemma {:induction false} LoadBucketsSourced(
    net: Net, s: State, bucket: int, count: int, use: bool, items: Stream, all: Stream, m: int)
    requires Sourced(s, all, m)
    ensures var r := LoadBuckets(net, s, bucket, count, use, items);
      r.Got? ==> Sourced(r.value, all, m) && r.value.nNew == s.nNew
    decreases count - bucket
  {
    hide Sourced, LoadBucket;
    if bucket < count && items != [] && items[0].Num? {
      LoadBucketSourced(net, s, bucket, items[0].n, use, items[1..], all, m);
      match LoadBucket(net, s, bucket, items[0].n, use, items[1..])
      case Got(t, rest) => LoadBucketsSourced(net, t, bucket + 1, count, use, rest, all, m);
      case _ =>
    }
  }

  lemma AsReadSourced(net: Net, s: State, current: bool, buckets: int, all: Stream)
    requires s == INITIAL.(nNew := s.nNew, nTried := s.nTried) && s.nNew >= 0 && s.nTried >= 0
    requires DistinctAddresses(all, s.nNew + s.nTried)
    ensures var r := AsRead(net, s, current, buckets, all);
      r.Got? ==> Sourced(r.value, all, s.nNew + s.nTried) && r.value.nNew == s.nNew
  {
    hide LoadNew, LoadTried, LoadBuckets, DistinctAddresses;
    var total := s.nNew + s.nTried;
    assert all[0..] == all;
    LoadNewSourced(net, s, 0, !current, all, total);
    match LoadNew(net, s, 0, s.nNew, !current, all)
    case Got(s1, r1) =>
      LoadTriedSourced(net, s1, s1.nTried, all, s.nNew, total);
      match LoadTried(net, s1, s1.nTried, r1) {
        case Got(s2, r2) => LoadBucketsSourced(net, s2, 0, buckets, current, r2, all, total);
        case _ =>
      }
    case _ =>
  }

  lemma SourcedIsFine(s: State, all: Stream, total: int)
    requires Sourced(s, all, total) && PossibleTimes(all, s.nNew, total)
    ensures NoNamesakes(s) && TimesStay(s)
  {
    forall id | id in s.mapInfo ensures TimesOk(s.mapInfo[id]) {
      var i :| i < total && ReadAt(s.mapInfo[id], all, i, s.nNew);
    }
  }

  /** A stream with counts that are not negative, distinct addresses and possible times gives a consistent manager. */
  lemma DistinctIsConsistent(keyed: nat -> Net, items: Stream)
    requires Load(keyed, items).Got? && items[3].n >= 0 && items[4].n >= 0
    requires DistinctAddresses(items[6..], items[3].n + items[4].n)
    requires PossibleTimes(items[6..], items[3].n, items[3].n + items[4].n)
    ensures Inv(keyed(items[2].key), Load(keyed, items).value.state)
  {
    hide LoadBody, AsRead, Inv, NoNamesakes, TimesStay, Sourced, DistinctAddresses, PossibleTimes;
    LoadedConsistentIff(keyed, items);
    var nNew, nTried := items[3].n, items[4].n;
    var buckets := if items[0].n != 0 then FlipBit30(items[5].n) else items[5].n;
    var current := items[0].n == 1 && buckets == NEW_BUCKET_COUNT;
    var s := INITIAL.(nNew := nNew, nTried := nTried);
    AsReadSourced(keyed(items[2].key), s, current, buckets, items[6..]);
    SourcedIsFine(AsRead(keyed(items[2].key), s, current, buckets, items[6..]).value, items[6..], nNew + nTried);
  }
}
