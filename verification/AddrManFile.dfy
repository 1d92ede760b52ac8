/**
  CAddrMan::Serialize and Unserialize as loops over the manager's fields, each proved to
  compute its function of AddrManStream.  For every stream whatsoever, well formed or not,
  the asserts that pruning relies on hold.
 */
module AddrManFile {
  import opened AddrManModel
  import opened AddrManInvariant
  import opened AddrManStream
  import opened AddrManPersist
  import A = AddrMan

  // ------------------------------------------------ asserts hold on any stream

  /** vRandom and mapInfo are a bijection, and ids from k on are unused. */
  ghost predicate RandomOk(s: State, k: int) {
    && (forall id :: id in s.mapInfo ==> id < k && RandomAt(s, id))
    && (forall i :: 0 <= i < |s.vRandom| ==> s.vRandom[i] in s.mapInfo && s.mapInfo[s.vRandom[i]].nRandomPos == i)
  }

  predicate RandomAt(s: State, id: int)
    requires id in s.mapInfo
  {
    0 <= s.mapInfo[id].nRandomPos < |s.vRandom| && s.vRandom[s.mapInfo[id].nRandomPos] == id
  }

  lemma AppendRandom(s: State, t: State, id: int, a: Info, k: int)
    requires RandomOk(s, k) && id >= k
    requires t.mapInfo == s.mapInfo[id := a] && t.vRandom == s.vRandom + [id] && a.nRandomPos == |s.vRandom|
    ensures RandomOk(t, id + 1)
  {
    forall x | x in t.mapInfo ensures x < id + 1 && RandomAt(t, x) {
      if x != id { assert RandomAt(s, x); }
    }
    forall i | 0 <= i < |t.vRandom| ensures t.vRandom[i] in t.mapInfo && t.mapInfo[t.vRandom[i]].nRandomPos == i {
      if i < |s.vRandom| { assert t.vRandom[i] == s.vRandom[i]; }
    }
  }

  lemma ReferRandom(s: State, id: int, c: Cell, k: int)
    requires RandomOk(s, k) && id in s.mapInfo
    ensures RandomOk(Refer(s, id, c), k)
  {
    var t := Refer(s, id, c);
    forall x | x in t.mapInfo ensures x < k && RandomAt(t, x) { assert RandomAt(s, x); }
  }

  lemma DeleteRandom(s: State, id: int, k: int)
    requires RandomOk(s, k) && id in s.mapInfo && !s.mapInfo[id].fInTried && s.mapInfo[id].nRefCount == 0
    ensures CanDelete(s, id) && RandomOk(Delete(s, id), k)
  {
    assert RandomAt(s, id);
    var pos, last := s.mapInfo[id].nRandomPos, |s.vRandom| - 1;
    var t := SwapRandom(s, pos, last);
    SwapRandomOk(s, pos, last, k);
    var u := Delete(s, id);
    forall x | x in u.mapInfo ensures x < k && RandomAt(u, x) { assert RandomAt(t, x); }
    forall i | 0 <= i < |u.vRandom| ensures u.vRandom[i] in u.mapInfo && u.mapInfo[u.vRandom[i]].nRandomPos == i {
      assert u.vRandom[i] == t.vRandom[i];
    }
  }

  lemma SwapRandomOk(s: State, i: int, j: int, k: int)
    requires RandomOk(s, k) && 0 <= i < |s.vRandom| && 0 <= j < |s.vRandom|
    ensures CanSwap(s, i, j) && RandomOk(SwapRandom(s, i, j), k)
    ensures SwapRandom(s, i, j).vRandom[j] == s.vRandom[i]
  {
    var t := SwapRandom(s, i, j);
    forall x | x in t.mapInfo ensures x < k && RandomAt(t, x) { assert RandomAt(s, x); }
  }

  lemma {:induction false} LoadNewRandom(net: Net, s: State, n: nat, count: int, rebuild: bool, items: Stream)
    requires RandomOk(s, n) && (n <= count || (s.mapInfo == map[] && s.vRandom == []))
    ensures var r := LoadNew(net, s, n, count, rebuild, items);
      !r.Broken? && (r.Got? ==> RandomOk(r.value, r.value.nIdCount))
    decreases count - n
  {
    hide RandomOk;
    if n >= count {
      IdCountRandom(s, n, count);
    } else if items != [] && items[0].Entry? {
      PutNewRandom(net, s, n, items[0].rec, rebuild);
      LoadNewRandom(net, PutNew(net, s, n, items[0].rec, rebuild), n + 1, count, rebuild, items[1..]);
    }
  }

  lemma PutNewRandom(net: Net, s: State, n: nat, r: Rec, rebuild: bool)
    requires RandomOk(s, n)
    ensures RandomOk(PutNew(net, s, n, r, rebuild), n + 1)
  {
    hide RandomOk;
    var t := PutNew(net, s, n, r, rebuild);
    AppendRandom(s, t, n, t.mapInfo[n], n);
  }

  lemma IdCountRandom(s: State, k: int, count: int)
    requires RandomOk(s, k) && (k <= count || (s.mapInfo == map[] && s.vRandom == []))
    ensures RandomOk(s.(nIdCount := count), count)
  {
    var t := s.(nIdCount := count);
    forall x | x in t.mapInfo ensures x < count && RandomAt(t, x) { assert RandomAt(s, x); }
  }

  lemma PutTriedRandom(net: Net, s: State, r: Rec)
    requires RandomOk(s, s.nIdCount)
    ensures RandomOk(PutTried(net, s, r), PutTried(net, s, r).nIdCount)
  {
    hide TriedCell;
    var t := PutTried(net, s, r);
    if TriedCell(net, r.service) in s.vvTried {
      forall x | x in t.mapInfo ensures RandomAt(t, x) { assert RandomAt(s, x); }
    } else {
      AppendRandom(s, t, s.nIdCount, t.mapInfo[s.nIdCount], s.nIdCount);
    }
  }

  lemma {:induction false} LoadTriedRandom(net: Net, s: State, left: int, items: Stream)
    requires RandomOk(s, s.nIdCount)
    ensures var r := LoadTried(net, s, left, items); !r.Broken? && (r.Got? ==> RandomOk(r.value, r.value.nIdCount))
    decreases left
  {
    hide RandomOk, PutTried;
    if left > 0 && items != [] && items[0].Entry? {
      PutTriedRandom(net, s, items[0].rec);
      LoadTriedRandom(net, PutTried(net, s, items[0].rec), left - 1, items[1..]);
    }
  }

  lemma PutPositionRandom(net: Net, s: State, bucket: int, index: int, use: bool)
    requires RandomOk(s, s.nIdCount)
    ensures RandomOk(PutPosition(net, s, bucket, index, use), PutPosition(net, s, bucket, index, use).nIdCount)
  {
    hide RandomOk, NewCell;
    if index in s.mapInfo {
      ReferRandom(s, index, NewCell(net, s.mapInfo[index].service, bucket), s.nIdCount);
    }
  }

  lemma {:induction false} LoadBucketRandom(net: Net, s: State, bucket: int, left: int, use: bool, items: Stream)
    requires RandomOk(s, s.nIdCount)
    ensures var r := LoadBucket(net, s, bucket, left, use, items);
      !r.Broken? && (r.Got? ==> RandomOk(r.value, r.value.nIdCount))
    decreases left
  {
    hide RandomOk, PutPosition;
    if left > 0 && items != [] && items[0].Num? {
      PutPositionRandom(net, s, bucket, items[0].n, use);
      LoadBucketRandom(net, PutPosition(net, s, bucket, items[0].n, use), bucket, left - 1, use, items[1..]);
    }
  }

  lemma {:induction false} LoadBucketsRandom(net: Net, s: State, bucket: int, count: int, use: bool, items: Stream)
    requires RandomOk(s, s.nIdCount)
    ensures var r := LoadBuckets(net, s, bucket, count, use, items);
      !r.Broken? && (r.Got? ==> RandomOk(r.value, r.value.nIdCount))
    decreases count - bucket
  {
    hide RandomOk, LoadBucket;
    if bucket < count && items != [] && items[0].Num? {
      LoadBucketRandom(net, s, bucket, items[0].n, use, items[1..]);
      match LoadBucket(net, s, bucket, items[0].n, use, items[1..])
      case Got(t, rest) => LoadBucketsRandom(net, t, bucket + 1, count, use, rest);
      case _ =>
    }
  }

  lemma {:induction false} PruneWorks(s: State, k: int)
    requires RandomOk(s, s.nIdCount)
    ensures Prune(s, k).Done?
    decreases s.nIdCount - k
  {
    hide RandomOk, Delete;
    if k < s.nIdCount {
      if Unplaced(s, k) {
        DeleteRandom(s, k, s.nIdCount);
        DeleteIdCount(s, k);
        PruneWorks(Delete(s, k), k + 1);
      } else {
        PruneWorks(s, k + 1);
      }
    }
  }

  lemma DeleteIdCount(s: State, id: int)
    requires CanDelete(s, id)
    ensures Delete(s, id).nIdCount == s.nIdCount
  {
  }

  /** Whatever the stream holds, Unserialize returns or throws. */
  lemma NeverBroken(keyed: nat -> Net, items: Stream)
    ensures !Load(keyed, items).Broken?
  {
    hide LoadBody;
    if |items| >= 6 && items[0].Num? && items[2].Key? && items[3].Num? && items[4].Num? && items[5].Num? {
      var net := keyed(items[2].key);
      var s := INITIAL.(nNew := items[3].n, nTried := items[4].n);
      var buckets := if items[0].n != 0 then FlipBit30(items[5].n) else items[5].n;
      BodyNotBroken(net, items[2].key, s, items[0].n == 1 && buckets == NEW_BUCKET_COUNT, buckets, items[6..]);
    }
  }

  lemma BodyNotBroken(net: Net, key: nat, s: State, current: bool, buckets: int, items: Stream)
    requires s.mapInfo == map[] && s.vRandom == []
    ensures !LoadBody(net, key, s, current, buckets, items).Broken?
  {
    hide LoadNew, LoadTried, LoadBuckets, Prune;
    LoadNewRandom(net, s, 0, s.nNew, !current, items);
    match LoadNew(net, s, 0, s.nNew, !current, items)
    case Got(s1, r1) =>
      LoadTriedRandom(net, s1, s1.nTried, r1);
      match LoadTried(net, s1, s1.nTried, r1) {
        case Got(s2, r2) =>
          LoadBucketsRandom(net, s2, 0, buckets, current, r2);
          match LoadBuckets(net, s2, 0, buckets, current, r2) {
            case Got(s3, r3) => PruneWorks(s3, 0);
            case _ =>
          }
        case _ =>
      }
    case _ =>
  }

  // ----------------------------------------------------------------- writing

  lemma EntriesAppend(m: map<int, Info>, ids: seq<int>, id: int)
    requires id in m && forall i :: 0 <= i < |ids| ==> ids[i] in m
    ensures Entries(m, ids + [id]) == Entries(m, ids) + [Entry(Strip(m[id]))]
  {
  }

  /** One of the two loops over mapInfo; the second result numbers the entries met so far. */
  method WriteEntries(m: A.AddrMan, tried: bool, ghost total: int) returns (items: Stream, numbers: map<int, int>)
    requires total == |Ids(m.mapInfo, m.nIdCount, tried)|
    ensures items == Entries(m.mapInfo, Ids(m.mapInfo, m.nIdCount, tried))
    ensures forall id :: id in m.mapInfo && 0 <= id < m.nIdCount ==>
      id in numbers && numbers[id] == |Ids(m.mapInfo, id, tried)|
  {
    hide Entries, Ids, Chosen;
    items, numbers := [], map[];
    var nIds, id := 0, 0;
    NoIds(m.mapInfo, 0, tried);
    while id < m.nIdCount
      invariant 0 <= id && (id <= m.nIdCount || id == 0)
      invariant items == Entries(m.mapInfo, Ids(m.mapInfo, id, tried)) && nIds == |Ids(m.mapInfo, id, tried)|
      invariant forall k :: k in m.mapInfo && 0 <= k < id ==> k in numbers && numbers[k] == |Ids(m.mapInfo, k, tried)|
    {
      IdsUnfold(m.mapInfo, id, tried);
      if id in m.mapInfo {
        numbers := numbers[id := nIds];
        var info := m.mapInfo[id];
        if Chosen(info, tried) {
          IdsAt(m.mapInfo, id, m.nIdCount, tried);
          assert nIds != total;
          EntriesAppend(m.mapInfo, Ids(m.mapInfo, id, tried), id);
          items := items + [Entry(Strip(info))];
          nIds := nIds + 1;
        }
      }
      id := id + 1;
    }
    NoIds(m.mapInfo, m.nIdCount, tried);
  }

  lemma IdsUnfold(m: map<int, Info>, k: nat, tried: bool)
    ensures Ids(m, k + 1, tried) == Ids(m, k, tried) + (if k in m && Chosen(m[k], tried) then [k] else [])
    ensures Ids(m, k, tried) + [] == Ids(m, k, tried)
  {
  }

  lemma NoIds(m: map<int, Info>, k: int, tried: bool)
    ensures Entries(m, []) == [] && (k <= 0 ==> Ids(m, k, tried) == [])
  {
  }

  method WriteBucket(m: A.AddrMan, bucket: int, numbers: map<int, int>) returns (items: Stream)
    requires m.Valid() && 0 <= bucket < NEW_BUCKET_COUNT
    requires forall c :: c in m.S().vvNew ==>
      m.S().vvNew[c] in numbers && numbers[m.S().vvNew[c]] == Rank(m.mapInfo, m.S().vvNew[c])
    ensures items == [Num(|BucketItems(m.S(), bucket, 0)|)] + BucketItems(m.S(), bucket, 0)
  {
    hide A.Occupied, Rank, BucketItems;
    ghost var s := m.S();
    var nSize := 0;
    for i := 0 to BUCKET_SIZE
      invariant nSize + |BucketItems(s, bucket, i)| == |BucketItems(s, bucket, 0)|
    {
      BucketUnfold(s, bucket, i);
      if m.vvNew[bucket, i] != -1 {
        nSize := nSize + 1;
      }
    }
    BucketEnd(s, bucket);
    items := [Num(nSize)];
    for i := 0 to BUCKET_SIZE
      invariant items + BucketItems(s, bucket, i) == [Num(|BucketItems(s, bucket, 0)|)] + BucketItems(s, bucket, 0)
    {
      BucketUnfold(s, bucket, i);
      if m.vvNew[bucket, i] != -1 {
        var nIndex := numbers[m.vvNew[bucket, i]];
        items := items + [Num(nIndex)];
      }
    }
  }

  lemma BucketUnfold(s: State, b: int, p: int)
    requires p < BUCKET_SIZE
    ensures BucketItems(s, b, p) ==
      (if Cell(b, p) in s.vvNew then [Num(Rank(s.mapInfo, s.vvNew[Cell(b, p)]))] else []) + BucketItems(s, b, p + 1)
  {
  }

  lemma BucketEnd(s: State, b: int)
    ensures BucketItems(s, b, BUCKET_SIZE) == []
  {
  }

  /** Serialize. */
  method Serialize(m: A.AddrMan, key: nat) returns (out: Stream)
    requires m.Valid() && Inv(m.net, m.S())
    ensures out == Written(m.S(), key)
  {
    hide Inv, A.Occupied, Ids, BucketItems, Entries, BucketsFrom;
    ghost var s := m.S();
    ListSizes(m.net, s);
    out := [Num(1), Num(32), Key(key), Num(m.nNew), Num(m.nTried), Num(FlipBit30(NEW_BUCKET_COUNT))];
    var items, numbers := WriteEntries(m, false, m.nNew);
    out := out + items;
    var triedItems, _ := WriteEntries(m, true, m.nTried);
    out := out + triedItems;
    ghost var front := out;
    forall c | c in s.vvNew ensures s.vvNew[c] in numbers && numbers[s.vvNew[c]] == Rank(m.mapInfo, s.vvNew[c]) {
      CellIdInRange(m.net, s, c);
    }
    for bucket := 0 to NEW_BUCKET_COUNT
      invariant out + BucketsFrom(s, bucket) == front + BucketsFrom(s, 0)
    {
      BucketsUnfold(s, bucket);
      var bucketItems := WriteBucket(m, bucket, numbers);
      out := out + bucketItems;
    }
    BucketsEnd(s);
  }

  lemma CellIdInRange(net: Net, s: State, c: Cell)
    requires Inv(net, s) && c in s.vvNew
    ensures s.vvNew[c] in s.mapInfo && 0 <= s.vvNew[c] < s.nIdCount
  {
    assert NewCellOk(net, s, c);
    LinkedAt(s, s.vvNew[c]);
  }

  lemma BucketsUnfold(s: State, b: int)
    requires b < NEW_BUCKET_COUNT
    ensures BucketsFrom(s, b) == [Num(|BucketItems(s, b, 0)|)] + BucketItems(s, b, 0) + BucketsFrom(s, b + 1)
  {
  }

  lemma BucketsEnd(s: State)
    ensures BucketsFrom(s, NEW_BUCKET_COUNT) == []
  {
  }

  // ----------------------------------------------------------------- reading

  method Store(a: array2<int>, c: Cell, id: int)
    requires A.InArray(a, c)
    modifies a
    ensures A.Occupied(a) == SetCell(old(A.Occupied(a)), c, id)
  {
    a[c.bucket, c.pos] := id;
  }

  method ReadOneNew(m: A.AddrMan, n: nat, r: Rec, rebuild: bool)
    requires m.Valid()
    modifies m`mapInfo, m`mapAddr, m`vRandom, m.vvNew
    ensures m.S() == PutNew(m.net, old(m.S()), n, r, rebuild)
  {
    hide A.Occupied;
    var info := Restore(r, |m.vRandom|);
    m.mapAddr := m.mapAddr[info.service.ip := n];
    m.vRandom := m.vRandom + [n];
    if rebuild {
      var nUBucket := NewBucket(m.net, info.service, info.source);
      var c := NewCell(m.net, info.service, nUBucket);
      if m.vvNew[c.bucket, c.pos] == -1 {
        Store(m.vvNew, c, n);
        info := info.(nRefCount := info.nRefCount + 1);
      }
    }
    m.mapInfo := m.mapInfo[n := info];
  }

  lemma LoadNewUnfold(net: Net, s: State, n: nat, count: int, rebuild: bool, items: Stream)
    ensures LoadNew(net, s, n, count, rebuild, items) ==
      if n >= count then Got(s.(nIdCount := count), items)
      else if items == [] || !items[0].Entry? then Throw
      else LoadNew(net, PutNew(net, s, n, items[0].rec, rebuild), n + 1, count, rebuild, items[1..])
  {
  }

  method ReadNew(m: A.AddrMan, rebuild: bool, items: Stream) returns (ok: bool, rest: Stream)
    requires m.Valid()
    modifies m, m.vvNew
    ensures LoadNew(m.net, old(m.S()), 0, old(m.nNew), rebuild, items) == if ok then Got(m.S(), rest) else Throw
    ensures ok ==> forall k :: 0 <= k < m.nNew ==> k in m.mapInfo
  {
    hide LoadNew, PutNew, A.Occupied;
    ghost var s := m.S();
    rest := items;
    var n := 0;
    while n < m.nNew
      invariant 0 <= n && m.nNew == old(m.nNew)
      invariant LoadNew(m.net, m.S(), n, m.nNew, rebuild, rest) == LoadNew(m.net, s, 0, m.nNew, rebuild, items)
      invariant forall k :: 0 <= k < n ==> k in m.mapInfo
    {
      LoadNewUnfold(m.net, m.S(), n, m.nNew, rebuild, rest);
      if rest == [] || !rest[0].Entry? {
        return false, rest;
      }
      PutNewIds(m.net, m.S(), n, rest[0].rec, rebuild);
      ReadOneNew(m, n, rest[0].rec, rebuild);
      rest := rest[1..];
      n := n + 1;
    }
    LoadNewUnfold(m.net, m.S(), n, m.nNew, rebuild, rest);
    m.nIdCount := m.nNew;
    ok := true;
  }

  lemma PutNewIds(net: Net, s: State, n: nat, r: Rec, rebuild: bool)
    ensures PutNew(net, s, n, r, rebuild).mapInfo.Keys == s.mapInfo.Keys + {n}
    ensures PutNew(net, s, n, r, rebuild).nNew == s.nNew
  {
  }

  /** One tried entry; lost says that its cell was taken. */
  method ReadOneTried(m: A.AddrMan, r: Rec) returns (lost: bool)
    requires m.Valid()
    modifies m`mapInfo, m`mapAddr, m`vRandom, m`nIdCount, m.vvTried
    ensures PutTried(m.net, old(m.S()), r) == m.S().(nTried := m.nTried - (if lost then 1 else 0))
    ensures old(m.mapInfo).Keys <= m.mapInfo.Keys
  {
    hide A.Occupied;
    var c := TriedCell(m.net, r.service);
    if m.vvTried[c.bucket, c.pos] != -1 {
      return true;
    }
    var info := Restore(r, |m.vRandom|).(fInTried := true);
    m.vRandom := m.vRandom + [m.nIdCount];
    m.mapInfo := m.mapInfo[m.nIdCount := info];
    m.mapAddr := m.mapAddr[info.service.ip := m.nIdCount];
    Store(m.vvTried, c, m.nIdCount);
    m.nIdCount := m.nIdCount + 1;
    return false;
  }

  lemma LoadTriedUnfold(net: Net, s: State, left: int, items: Stream)
    ensures LoadTried(net, s, left, items) ==
      if left <= 0 then Got(s, items)
      else if items == [] || !items[0].Entry? then Throw
      else LoadTried(net, PutTried(net, s, items[0].rec), left - 1, items[1..])
  {
  }

  lemma PutTriedCount(net: Net, s: State, r: Rec, k: int)
    ensures PutTried(net, s.(nTried := s.nTried - k), r)
      == PutTried(net, s, r).(nTried := PutTried(net, s, r).nTried - k)
  {
  }

  method ReadTried(m: A.AddrMan, items: Stream) returns (ok: bool, rest: Stream)
    requires m.Valid()
    modifies m, m.vvTried
    ensures LoadTried(m.net, old(m.S()), old(m.nTried), items) == if ok then Got(m.S(), rest) else Throw
    ensures m.nNew == old(m.nNew) && old(m.mapInfo).Keys <= m.mapInfo.Keys
  {
    hide LoadTried, PutTried, A.Occupied;
    ghost var s := m.S();
    rest := items;
    var n, nLost := 0, 0;
    while n < m.nTried
      invariant 0 <= n && m.nTried == old(m.nTried) && m.nNew == old(m.nNew) && old(m.mapInfo).Keys <= m.mapInfo.Keys
      invariant LoadTried(m.net, m.S().(nTried := m.nTried - nLost), m.nTried - n, rest)
        == LoadTried(m.net, s, m.nTried, items)
    {
      LoadTriedUnfold(m.net, m.S().(nTried := m.nTried - nLost), m.nTried - n, rest);
      if rest == [] || !rest[0].Entry? {
        return false, rest;
      }
      PutTriedCount(m.net, m.S(), rest[0].rec, nLost);
      var lost := ReadOneTried(m, rest[0].rec);
      if lost {
        nLost := nLost + 1;
      }
      rest := rest[1..];
      n := n + 1;
    }
    LoadTriedUnfold(m.net, m.S().(nTried := m.nTried - nLost), m.nTried - n, rest);
    m.nTried := m.nTried - nLost;
    ok := true;
  }

  method ReadOnePosition(m: A.AddrMan, bucket: int, nIndex: int, use: bool)
    requires m.Valid() && 0 <= bucket && (use ==> bucket < NEW_BUCKET_COUNT)
    requires forall k :: 0 <= k < m.nNew ==> k in m.mapInfo
    modifies m`mapInfo, m.vvNew
    ensures m.S() == PutPosition(m.net, old(m.S()), bucket, nIndex, use)
    ensures forall k :: 0 <= k < m.nNew ==> k in m.mapInfo
  {
    hide A.Occupied;
    if 0 <= nIndex < m.nNew {
      var info := m.mapInfo[nIndex];
      var c := NewCell(m.net, info.service, bucket);
      if use && m.vvNew[c.bucket, c.pos] == -1 && info.nRefCount < NEW_BUCKETS_PER_ADDRESS {
        m.mapInfo := m.mapInfo[nIndex := info.(nRefCount := info.nRefCount + 1)];
        Store(m.vvNew, c, nIndex);
      }
    }
  }

  lemma LoadBucketUnfold(net: Net, s: State, bucket: int, left: int, use: bool, items: Stream)
    ensures LoadBucket(net, s, bucket, left, use, items) ==
      if left <= 0 then Got(s, items)
      else if items == [] || !items[0].Num? then Throw
      else LoadBucket(net, PutPosition(net, s, bucket, items[0].n, use), bucket, left - 1, use, items[1..])
  {
  }

  method ReadBucket(m: A.AddrMan, bucket: int, nSize: int, use: bool, items: Stream) returns (ok: bool, rest: Stream)
    requires m.Valid() && 0 <= bucket && (use ==> bucket < NEW_BUCKET_COUNT)
    requires forall k :: 0 <= k < m.nNew ==> k in m.mapInfo
    modifies m`mapInfo, m.vvNew
    ensures LoadBucket(m.net, old(m.S()), bucket, nSize, use, items) == if ok then Got(m.S(), rest) else Throw
    ensures forall k :: 0 <= k < m.nNew ==> k in m.mapInfo
  {
    hide LoadBucket, PutPosition, A.Occupied;
    ghost var s := m.S();
    rest := items;
    var n := 0;
    while n < nSize
      invariant 0 <= n
      invariant forall k :: 0 <= k < m.nNew ==> k in m.mapInfo
      invariant LoadBucket(m.net, m.S(), bucket, nSize - n, use, rest)
        == LoadBucket(m.net, s, bucket, nSize, use, items)
    {
      LoadBucketUnfold(m.net, m.S(), bucket, nSize - n, use, rest);
      if rest == [] || !rest[0].Num? {
        return false, rest;
      }
      ReadOnePosition(m, bucket, rest[0].n, use);
      rest := rest[1..];
      n := n + 1;
    }
    LoadBucketUnfold(m.net, m.S(), bucket, nSize - n, use, rest);
    ok := true;
  }

  lemma LoadBucketsUnfold(net: Net, s: State, bucket: int, count: int, use: bool, items: Stream)
    ensures bucket >= count ==> LoadBuckets(net, s, bucket, count, use, items) == Got(s, items)
    ensures bucket < count && (items == [] || !items[0].Num?) ==>
      LoadBuckets(net, s, bucket, count, use, items) == Throw
    ensures bucket < count && items != [] && items[0].Num? ==>
      var r := LoadBucket(net, s, bucket, items[0].n, use, items[1..]);
      && (r.Throw? ==> LoadBuckets(net, s, bucket, count, use, items) == Throw)
      && (r.Got? ==>
            LoadBuckets(net, s, bucket, count, use, items) == LoadBuckets(net, r.value, bucket + 1, count, use, r.rest))
  {
  }

  method ReadBuckets(m: A.AddrMan, nUBuckets: int, use: bool, items: Stream) returns (ok: bool, rest: Stream)
    requires m.Valid() && (use ==> nUBuckets == NEW_BUCKET_COUNT)
    requires forall k :: 0 <= k < m.nNew ==> k in m.mapInfo
    modifies m`mapInfo, m.vvNew
    ensures LoadBuckets(m.net, old(m.S()), 0, nUBuckets, use, items) == if ok then Got(m.S(), rest) else Throw
  {
    hide LoadBucket, LoadBuckets, A.Occupied;
    ghost var s := m.S();
    rest := items;
    var bucket := 0;
    while bucket < nUBuckets
      invariant 0 <= bucket
      invariant forall k :: 0 <= k < m.nNew ==> k in m.mapInfo
      invariant LoadBuckets(m.net, m.S(), bucket, nUBuckets, use, rest)
        == LoadBuckets(m.net, s, 0, nUBuckets, use, items)
    {
      LoadBucketsUnfold(m.net, m.S(), bucket, nUBuckets, use, rest);
      if rest == [] || !rest[0].Num? {
        return false, rest;
      }
      ok, rest := ReadBucket(m, bucket, rest[0].n, use, rest[1..]);
      if !ok {
        return;
      }
      bucket := bucket + 1;
    }
    LoadBucketsUnfold(m.net, m.S(), bucket, nUBuckets, use, rest);
    ok := true;
  }

  lemma PruneUnfold(s: State, k: int)
    requires Prune(s, k).Done?
    ensures k >= s.nIdCount ==> Prune(s, k) == Done(s)
    ensures k < s.nIdCount && !Unplaced(s, k) ==> Prune(s, k) == Prune(s, k + 1)
    ensures k < s.nIdCount && Unplaced(s, k) ==> CanDelete(s, k) && Prune(s, k) == Prune(Delete(s, k), k + 1)
  {
  }

  /** Drops the "new" entries that got no cell. */
  method PruneAll(m: A.AddrMan)
    requires Prune(m.S(), 0).Done?
    modifies m`mapInfo, m`vRandom, m`mapAddr, m`nNew
    ensures Prune(old(m.S()), 0) == Done(m.S())
  {
    hide Prune, Delete, CanDelete, A.Occupied;
    var k := 0;
    while k < m.nIdCount
      invariant Prune(m.S(), k) == Prune(old(m.S()), 0) && Prune(m.S(), k).Done?
      decreases m.nIdCount - k
    {
      PruneUnfold(m.S(), k);
      if k in m.mapInfo && !m.mapInfo[k].fInTried && m.mapInfo[k].nRefCount == 0 {
        m.Delete(k);
      }
      k := k + 1;
    }
    PruneUnfold(m.S(), k);
  }

  /** Unserialize, into a newly constructed manager; null stands for the exception. */
  method Unserialize(keyed: nat -> Net, items: Stream) returns (m: A.AddrMan?, key: nat, rest: Stream)
    ensures m == null <==> Load(keyed, items).Throw?
    ensures m != null ==>
      fresh(m) && m.Valid() && m.net == keyed(key) && Load(keyed, items) == Got(Loaded(key, m.S()), rest)
  {
    hide LoadNew, LoadTried, LoadBuckets, Prune, A.Occupied;
    NeverBroken(keyed, items);
    m, key, rest := null, 0, items;
    if |items| < 6 || !items[0].Num? || !items[1].Num? || items[1].n != 32 || !items[2].Key?
       || !items[3].Num? || !items[4].Num? || !items[5].Num? {
      return;
    }
    var nVersion, nUBuckets := items[0].n, items[5].n;
    key := items[2].key;
    if nVersion != 0 {
      nUBuckets := FlipBit30(nUBuckets);
    }
    if items[3].n > NEW_BUCKET_COUNT * BUCKET_SIZE || items[4].n > TRIED_BUCKET_COUNT * BUCKET_SIZE {
      return;
    }
    var current := nVersion == 1 && nUBuckets == NEW_BUCKET_COUNT;
    var r := new A.AddrMan(keyed(key));
    r.nNew, r.nTried := items[3].n, items[4].n;
    var ok;
    ok, rest := ReadNew(r, !current, items[6..]);
    if !ok { return; }
    ok, rest := ReadTried(r, rest);
    if !ok { return; }
    ok, rest := ReadBuckets(r, nUBuckets, current, rest);
    if !ok { return; }
    PruneAll(r);
    m := r;
  }
}
