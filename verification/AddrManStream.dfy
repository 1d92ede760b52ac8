/**
  What CAddrMan::Serialize writes and what CAddrMan::Unserialize makes of a stream
  (src/addrman.h), as functions.  A stream is a sequence of typed items; the bytes of one
  item are not modelled.
 */
module AddrManStream {
  import opened AddrManModel

  /** The part of an entry that is stored. */
  datatype Rec = Rec(service: Service, nServices: bv64, nTime: int, source: NetAddr, nLastSuccess: int, nAttempts: int)

  datatype Item = Num(n: int) | Key(key: nat) | Entry(rec: Rec)

  type Stream = seq<Item>

  function Strip(a: Info): Rec {
    Rec(a.service, a.nServices, a.nTime, a.source, a.nLastSuccess, a.nAttempts)
  }

  /** An entry as read: everything that is not stored has its initial value. */
  function Restore(r: Rec, pos: int): Info {
    Info(r.service, r.nServices, r.nTime, r.source, 0, 0, r.nLastSuccess, r.nAttempts, 0, false, pos)
  }

  /** `x ^ (1 << 30)` on 32-bit two's complement. */
  function FlipBit30(x: int): int {
    if (x / 0x4000_0000) % 2 == 1 then x - 0x4000_0000 else x + 0x4000_0000
  }

  // ----------------------------------------------------------------- writing

  predicate Chosen(a: Info, tried: bool) {
    if tried then a.fInTried else a.nRefCount != 0
  }

  /** The ids below k that one of the two writing loops selects, in map order. */
  function Ids(m: map<int, Info>, k: int, tried: bool): (ids: seq<int>)
    ensures forall i :: 0 <= i < |ids| ==> 0 <= ids[i] < k && ids[i] in m && Chosen(m[ids[i]], tried)
    decreases k
  {
    if k <= 0 then []
    else Ids(m, k - 1, tried) + (if k - 1 in m && Chosen(m[k - 1], tried) then [k - 1] else [])
  }

  /** The number under which a "new" entry is written. */
  function Rank(m: map<int, Info>, id: int): nat {
    |Ids(m, id, false)|
  }

  function Entries(m: map<int, Info>, ids: seq<int>): Stream
    requires forall i :: 0 <= i < |ids| ==> ids[i] in m
  {
    seq(|ids|, i requires 0 <= i < |ids| => Entry(Strip(m[ids[i]])))
  }

  /** The occupied cells of a bucket from position p on, as numbers of entries. */
  function BucketItems(s: State, b: int, p: int): Stream
    decreases BUCKET_SIZE - p
  {
    if p >= BUCKET_SIZE then []
    else if Cell(b, p) in s.vvNew then [Num(Rank(s.mapInfo, s.vvNew[Cell(b, p)]))] + BucketItems(s, b, p + 1)
    else BucketItems(s, b, p + 1)
  }

  function BucketsFrom(s: State, b: int): Stream
    decreases NEW_BUCKET_COUNT - b
  {
    if b >= NEW_BUCKET_COUNT then []
    else [Num(|BucketItems(s, b, 0)|)] + BucketItems(s, b, 0) + BucketsFrom(s, b + 1)
  }

  function Header(s: State, key: nat): Stream {
    [Num(1), Num(32), Key(key), Num(s.nNew), Num(s.nTried), Num(FlipBit30(NEW_BUCKET_COUNT))]
  }

  function Written(s: State, key: nat): Stream {
    Header(s, key)
    + Entries(s.mapInfo, Ids(s.mapInfo, s.nIdCount, false))
    + Entries(s.mapInfo, Ids(s.mapInfo, s.nIdCount, true))
    + BucketsFrom(s, 0)
  }

  // ----------------------------------------------------------------- reading

  /** Reading gives a value and the rest of the stream, throws, or trips an assert. */
  datatype Read<T> = Got(value: T, rest: Stream) | Throw | Broken

  /** What a cell holds after `vv[c] = id`; -1 means empty. */
  function SetCell(t: Table, c: Cell, id: int): Table {
    if id == -1 then t - {c} else t[c := id]
  }

  function PutNew(net: Net, s: State, n: int, r: Rec, rebuild: bool): State {
    var c := NewCell(net, r.service, NewBucket(net, r.service, r.source));
    var a := Restore(r, |s.vRandom|);
    var give := rebuild && c !in s.vvNew;
    s.(mapInfo := s.mapInfo[n := if give then a.(nRefCount := 1) else a],
       mapAddr := s.mapAddr[r.service.ip := n],
       vRandom := s.vRandom + [n],
       vvNew := if give then s.vvNew[c := n] else s.vvNew)
  }

  function LoadNew(net: Net, s: State, n: nat, count: int, rebuild: bool, items: Stream): Read<State>
    decreases count - n
  {
    if n >= count then Got(s.(nIdCount := count), items)
    else if items == [] || !items[0].Entry? then Throw
    else LoadNew(net, PutNew(net, s, n, items[0].rec, rebuild), n + 1, count, rebuild, items[1..])
  }

  function PutTried(net: Net, s: State, r: Rec): State {
    var c := TriedCell(net, r.service);
    if c in s.vvTried then s.(nTried := s.nTried - 1)
    else
      s.(mapInfo := s.mapInfo[s.nIdCount := Restore(r, |s.vRandom|).(fInTried := true)],
         mapAddr := s.mapAddr[r.service.ip := s.nIdCount],
         vRandom := s.vRandom + [s.nIdCount],
         vvTried := SetCell(s.vvTried, c, s.nIdCount),
         nIdCount := s.nIdCount + 1)
  }

  /** `left` more entries; an entry whose cell is taken is counted as lost. */
  function LoadTried(net: Net, s: State, left: int, items: Stream): Read<State>
    decreases left
  {
    if left <= 0 then Got(s, items)
    else if items == [] || !items[0].Entry? then Throw
    else LoadTried(net, PutTried(net, s, items[0].rec), left - 1, items[1..])
  }

  /** One stored position: used only when the format and the bucket count are the current ones. */
  function PutPosition(net: Net, s: State, bucket: int, index: int, use: bool): State {
    if !(0 <= index < s.nNew && index in s.mapInfo) then s
    else
      var c := NewCell(net, s.mapInfo[index].service, bucket);
      if use && c !in s.vvNew && s.mapInfo[index].nRefCount < NEW_BUCKETS_PER_ADDRESS then Refer(s, index, c)
      else s
  }

  function LoadBucket(net: Net, s: State, bucket: int, left: int, use: bool, items: Stream): Read<State>
    decreases left
  {
    if left <= 0 then Got(s, items)
    else if items == [] || !items[0].Num? then Throw
    else LoadBucket(net, PutPosition(net, s, bucket, items[0].n, use), bucket, left - 1, use, items[1..])
  }

  function LoadBuckets(net: Net, s: State, bucket: int, count: int, use: bool, items: Stream): Read<State>
    decreases count - bucket
  {
    if bucket >= count then Got(s, items)
    else if items == [] || !items[0].Num? then Throw
    else
      match LoadBucket(net, s, bucket, items[0].n, use, items[1..])
      case Got(t, rest) => LoadBuckets(net, t, bucket + 1, count, use, rest)
      case Throw => Throw
      case Broken => Broken
  }

  predicate Unplaced(s: State, id: int) {
    id in s.mapInfo && !s.mapInfo[id].fInTried && s.mapInfo[id].nRefCount == 0
  }

  /** The pruning loop over ids from k on, in map order. */
  function Prune(s: State, k: int): Outcome
    decreases s.nIdCount - k
  {
    if k >= s.nIdCount then Done(s)
    else if !Unplaced(s, k) then Prune(s, k + 1)
    else if CanDelete(s, k) then Prune(Delete(s, k), k + 1)
    else AssertFailed
  }

  datatype Loaded = Loaded(key: nat, state: State)

  /** Unserialize into a newly constructed manager; keyed gives the hashes for a key. */
  function Load(keyed: nat -> Net, items: Stream): Read<Loaded> {
    if |items| < 6 || !items[0].Num? || !items[1].Num? || items[1].n != 32 || !items[2].Key?
       || !items[3].Num? || !items[4].Num? || !items[5].Num? then Throw
    else
      var version, key, nNew, nTried := items[0].n, items[2].key, items[3].n, items[4].n;
      var buckets := if version != 0 then FlipBit30(items[5].n) else items[5].n;
      if nNew > NEW_BUCKET_COUNT * BUCKET_SIZE || nTried > TRIED_BUCKET_COUNT * BUCKET_SIZE then Throw
      else
        var current := version == 1 && buckets == NEW_BUCKET_COUNT;
        LoadBody(keyed(key), key, INITIAL.(nNew := nNew, nTried := nTried), current, buckets, items[6..])
  }

  function LoadBody(net: Net, key: nat, s: State, current: bool, buckets: int, items: Stream): Read<Loaded> {
    match LoadNew(net, s, 0, s.nNew, !current, items)
    case Throw => Throw
    case Broken => Broken
    case Got(s1, r1) =>
      match LoadTried(net, s1, s1.nTried, r1)
      case Throw => Throw
      case Broken => Broken
      case Got(s2, r2) =>
        match LoadBuckets(net, s2, 0, buckets, current, r2)
        case Throw => Throw
        case Broken => Broken
        case Got(s3, r3) =>
          match Prune(s3, 0)
          case AssertFailed => Broken
          case Done(s4) => Got(Loaded(key, s4), r3)
  }
}
