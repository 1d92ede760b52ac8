/**
  The round trip through a stream for a whole, consistent address manager.
 */
module AddrManPersist {
  import opened AddrManModel
  import opened AddrManInvariant
  import opened AddrManStream
  import opened AddrManRoundTrip

  // -------------------------------------------------------- numbering of ids

  lemma {:induction false} IdsAt(m: map<int, Info>, j: int, k: int, tried: bool)
    requires 0 <= j < k && j in m && Chosen(m[j], tried)
    ensures |Ids(m, j, tried)| < |Ids(m, k, tried)| && Ids(m, k, tried)[|Ids(m, j, tried)|] == j
    decreases k
  {
    if j < k - 1 { IdsAt(m, j, k - 1, tried); }
  }

  lemma {:induction false} IdsRank(m: map<int, Info>, k: int, i: int, tried: bool)
    requires 0 <= i < |Ids(m, k, tried)|
    ensures |Ids(m, Ids(m, k, tried)[i], tried)| == i
    decreases k
  {
    if i < |Ids(m, k - 1, tried)| { IdsRank(m, k - 1, i, tried); }
  }

  function ChosenBelow(m: map<int, Info>, k: int, tried: bool): set<int> {
    set id | id in m && 0 <= id < k && Chosen(m[id], tried)
  }

  lemma {:induction false} IdsSize(m: map<int, Info>, k: int, tried: bool)
    ensures |Ids(m, k, tried)| == |ChosenBelow(m, k, tried)|
    decreases k
  {
    if k > 0 {
      IdsSize(m, k - 1, tried);
      var rest := ChosenBelow(m, k - 1, tried);
      assert ChosenBelow(m, k, tried) == if k - 1 in m && Chosen(m[k - 1], tried) then rest + {k - 1} else rest;
    }
  }

  /** In a consistent manager the two writing loops select the two kinds of entries. */
  lemma ChosenIsKind(net: Net, s: State, id: int)
    requires Inv(net, s) && id in s.mapInfo
    ensures Chosen(s.mapInfo[id], true) <==> s.mapInfo[id].fInTried
    ensures Chosen(s.mapInfo[id], false) <==> !s.mapInfo[id].fInTried
    ensures 0 <= id < s.nIdCount
  {
    assert RefsOk(s, id, {});
    assert Linked(s, id);
  }

  function NewList(s: State): seq<int> { Ids(s.mapInfo, s.nIdCount, false) }
  function TriedList(s: State): seq<int> { Ids(s.mapInfo, s.nIdCount, true) }

  /** The counters say how many entries are written: the asserts of Serialize hold. */
  lemma ListSizes(net: Net, s: State)
    requires Inv(net, s)
    ensures |NewList(s)| == s.nNew && |TriedList(s)| == s.nTried
  {
    hide Inv, Ids, Chosen;
    IdsSize(s.mapInfo, s.nIdCount, false);
    IdsSize(s.mapInfo, s.nIdCount, true);
    CountsAre(net, s);
    forall id | id in s.mapInfo
      ensures Chosen(s.mapInfo[id], true) <==> s.mapInfo[id].fInTried
      ensures Chosen(s.mapInfo[id], false) <==> !s.mapInfo[id].fInTried
      ensures 0 <= id < s.nIdCount
    {
      ChosenIsKind(net, s, id);
    }
    assert ChosenBelow(s.mapInfo, s.nIdCount, true) == TriedIds(s.mapInfo);
    assert ChosenBelow(s.mapInfo, s.nIdCount, false) == NewIds(s.mapInfo);
  }

  lemma CountsAre(net: Net, s: State)
    requires Inv(net, s)
    ensures s.nTried == |TriedIds(s.mapInfo)| && s.nNew == |NewIds(s.mapInfo)|
  {
    assert NewIds(s.mapInfo) - {} == NewIds(s.mapInfo);
  }

  function Order(s: State): seq<int> {
    NewList(s) + TriedList(s)
  }

  /** The id an entry has after loading. */
  function Number(s: State, id: int): nat
    requires id in s.mapInfo
  {
    if s.mapInfo[id].fInTried then |NewList(s)| + |Ids(s.mapInfo, id, true)| else Rank(s.mapInfo, id)
  }

  lemma NumberIsPlace(net: Net, s: State, id: int)
    requires Inv(net, s) && id in s.mapInfo
    ensures Number(s, id) < |Order(s)| && Order(s)[Number(s, id)] == id
    ensures Number(s, id) < |NewList(s)| <==> !s.mapInfo[id].fInTried
  {
    hide Inv;
    ChosenIsKind(net, s, id);
    IdsAt(s.mapInfo, id, s.nIdCount, s.mapInfo[id].fInTried);
  }

  lemma PlaceIsNumber(net: Net, s: State, i: int)
    requires Inv(net, s) && 0 <= i < |Order(s)|
    ensures Order(s)[i] in s.mapInfo && Number(s, Order(s)[i]) == i
    ensures s.mapInfo[Order(s)[i]].fInTried <==> i >= |NewList(s)|
  {
    hide Inv, Ids;
    var id := Order(s)[i];
    if i < |NewList(s)| {
      assert id == NewList(s)[i];
      ChosenIsKind(net, s, id);
      IdsRank(s.mapInfo, s.nIdCount, i, false);
    } else {
      assert id == TriedList(s)[i - |NewList(s)|];
      ChosenIsKind(net, s, id);
      IdsRank(s.mapInfo, s.nIdCount, i - |NewList(s)|, true);
    }
  }

  // ----------------------------------------------- the entries, as written

  function Infos(s: State): (src: seq<Info>)
    requires forall i :: 0 <= i < |Order(s)| ==> Order(s)[i] in s.mapInfo
    ensures |src| == |Order(s)|
  {
    seq(|Order(s)|, i requires 0 <= i < |Order(s)| => s.mapInfo[Order(s)[i]])
  }

  /** src holds the entries of s in writing order. */
  ghost predicate Listed(s: State, src: seq<Info>) {
    && |src| == |Order(s)|
    && (forall i :: 0 <= i < |src| ==> Order(s)[i] in s.mapInfo && src[i] == s.mapInfo[Order(s)[i]])
  }

  lemma OrderKnown(s: State)
    ensures forall i :: 0 <= i < |Order(s)| ==> Order(s)[i] in s.mapInfo
  {
  }

  lemma SourceOk(net: Net, s: State) returns (src: seq<Info>)
    requires Inv(net, s)
    ensures Listed(s, src)
    ensures Source(net, src, |NewList(s)|)
  {
    hide Inv, Order, TriedCell, NewList;
    OrderKnown(s);
    src := Infos(s);
    NewFirst(s);
    forall i | 0 <= i < |src| ensures src[i].fInTried <==> i >= |NewList(s)| { PlaceIsNumber(net, s, i); }
    forall i, j | 0 <= i < j < |src| ensures src[i].service.ip != src[j].service.ip {
      DifferentPlaces(net, s, i, j);
      DifferentAddresses(net, s, Order(s)[i], Order(s)[j]);
    }
    forall i, j | |NewList(s)| <= i < j < |src|
      ensures TriedCell(net, src[i].service) != TriedCell(net, src[j].service)
    {
      PlaceIsNumber(net, s, i);
      PlaceIsNumber(net, s, j);
      DifferentCells(net, s, Order(s)[i], Order(s)[j]);
    }
  }

  lemma NewFirst(s: State)
    ensures |NewList(s)| <= |Order(s)|
  {
  }

  lemma DifferentPlaces(net: Net, s: State, i: int, j: int)
    requires Inv(net, s) && 0 <= i < j < |Order(s)|
    ensures Order(s)[i] in s.mapInfo && Order(s)[j] in s.mapInfo && Order(s)[i] != Order(s)[j]
  {
    hide Inv, Order;
    PlaceIsNumber(net, s, i);
    PlaceIsNumber(net, s, j);
  }

  lemma DifferentAddresses(net: Net, s: State, x: int, y: int)
    requires Inv(net, s) && x in s.mapInfo && y in s.mapInfo && x != y
    ensures s.mapInfo[x].service.ip != s.mapInfo[y].service.ip
  {
    LinkedAt(s, x);
    LinkedAt(s, y);
  }

  lemma DifferentCells(net: Net, s: State, x: int, y: int)
    requires Inv(net, s) && x in s.mapInfo && y in s.mapInfo && x != y && s.mapInfo[x].fInTried && s.mapInfo[y].fInTried
    ensures TriedCell(net, s.mapInfo[x].service) != TriedCell(net, s.mapInfo[y].service)
  {
  }

  /** The "new" table with ids renumbered. */
  function Renamed(s: State): Table {
    map c | c in s.vvNew :: Rank(s.mapInfo, s.vvNew[c])
  }

  lemma RenamedAt(net: Net, s: State, c: Cell)
    requires Inv(net, s) && c in s.vvNew
    ensures s.vvNew[c] in s.mapInfo && Renamed(s)[c] == Number(s, s.vvNew[c]) < |NewList(s)|
    ensures Renamed(s)[c] < |Order(s)| && Order(s)[Renamed(s)[c]] == s.vvNew[c]
    ensures 0 <= c.bucket < NEW_BUCKET_COUNT && c == NewCell(net, s.mapInfo[s.vvNew[c]].service, c.bucket)
  {
    hide Order;
    assert NewCellOk(net, s, c);
    NumberIsPlace(net, s, s.vvNew[c]);
    NewFirst(s);
  }

  lemma RenamedCells(net: Net, s: State, i: int)
    requires Inv(net, s) && 0 <= i < |Order(s)|
    ensures Order(s)[i] in s.mapInfo
    ensures CellsOf(Renamed(s), i) == CellsOf(s.vvNew, Order(s)[i])
    ensures |CellsOf(Renamed(s), i)| == s.mapInfo[Order(s)[i]].nRefCount
    ensures i < |NewList(s)| ==> 1 <= |CellsOf(Renamed(s), i)| <= NEW_BUCKETS_PER_ADDRESS
  {
    hide Inv, Order, Number, NewList;
    PlaceIsNumber(net, s, i);
    var id := Order(s)[i];
    forall c | c in s.vvNew ensures Renamed(s)[c] == i <==> s.vvNew[c] == id {
      RenamedAt(net, s, c);
    }
    Refs(net, s, id);
  }

  lemma Refs(net: Net, s: State, id: int)
    requires Inv(net, s) && id in s.mapInfo
    ensures RefsOk(s, id, {})
  {
  }

  lemma TargetOk(net: Net, s: State, src: seq<Info>)
    requires Inv(net, s)
    requires Listed(s, src)
    ensures Target(net, src, |NewList(s)|, Renamed(s)) && Names(s, Renamed(s))
  {
    hide Inv, Order, Number, NewList, NewCell, CellsOf;
    NewFirst(s);
    var w := Renamed(s);
    forall c | c in w
      ensures 0 <= w[c] < |NewList(s)| && 0 <= c.bucket < NEW_BUCKET_COUNT
        && c == NewCell(net, src[w[c]].service, c.bucket)
    {
      RenamedAt(net, s, c);
    }
    forall i | 0 <= i < |NewList(s)| ensures 1 <= |CellsOf(w, i)| <= NEW_BUCKETS_PER_ADDRESS {
      RenamedCells(net, s, i);
    }
  }

  // --------------------------------------------------------- the size limits

  function Grid(n: nat): set<Cell> {
    set b, p | 0 <= b < n && 0 <= p < BUCKET_SIZE :: Cell(b, p)
  }

  function Row(b: int, k: nat): set<Cell> {
    set p | 0 <= p < k :: Cell(b, p)
  }

  lemma {:induction false} RowSize(b: int, k: nat)
    ensures |Row(b, k)| == k
  {
    if k > 0 {
      RowSize(b, k - 1);
      assert Row(b, k) == Row(b, k - 1) + {Cell(b, k - 1)};
    }
  }

  lemma {:induction false} GridSize(n: nat)
    ensures |Grid(n)| == n * BUCKET_SIZE
  {
    if n > 0 {
      GridSize(n - 1);
      RowSize(n - 1, BUCKET_SIZE);
      assert Grid(n) == Grid(n - 1) + Row(n - 1, BUCKET_SIZE);
    } else {
      assert Grid(0) == {};
    }
  }

  ghost predicate HasCell(t: Table, id: int) {
    exists c :: c in t && t[c] == id
  }

  lemma Pick<T>(s: set<T>) returns (x: T)
    requires s != {}
    ensures x in s
  {
    x :| x in s;
  }

  /** Each id with a cell of its own needs a cell. */
  lemma {:induction false} NoMoreThanCells(ids: set<int>, t: Table, cells: set<Cell>)
    requires t.Keys <= cells && forall id :: id in ids ==> HasCell(t, id)
    ensures |ids| <= |cells|
    decreases |ids|
  {
    if ids != {} {
      var id := Pick(ids);
      var c :| c in t && t[c] == id;
      forall x | x in ids - {id} ensures HasCell(t - {c}, x) {
        var d :| d in t && t[d] == x;
        assert d in t - {c};
      }
      NoMoreThanCells(ids - {id}, t - {c}, cells - {c});
    }
  }

  lemma NewLimit(net: Net, s: State)
    requires Inv(net, s)
    ensures s.nNew <= NEW_BUCKET_COUNT * BUCKET_SIZE
  {
    hide NewCell;
    forall id | id in NewIds(s.mapInfo) ensures HasCell(s.vvNew, id) {
      assert RefsOk(s, id, {});
      assert CellsOf(s.vvNew, id) != {};
      var c :| c in CellsOf(s.vvNew, id);
    }
    forall c | c in s.vvNew ensures c in Grid(NEW_BUCKET_COUNT) {
      assert NewCellOk(net, s, c);
      NewCellInGrid(net, s.mapInfo[s.vvNew[c]].service, c.bucket);
    }
    NoMoreThanCells(NewIds(s.mapInfo), s.vvNew, Grid(NEW_BUCKET_COUNT));
    GridSize(NEW_BUCKET_COUNT);
    CountsAre(net, s);
  }

  lemma NewCellInGrid(net: Net, v: Service, b: int)
    requires 0 <= b < NEW_BUCKET_COUNT
    ensures NewCell(net, v, b) in Grid(NEW_BUCKET_COUNT)
  {
  }

  lemma TriedCellInGrid(net: Net, v: Service)
    ensures TriedCell(net, v) in Grid(TRIED_BUCKET_COUNT)
  {
  }

  lemma TriedLimit(net: Net, s: State)
    requires Inv(net, s)
    ensures s.nTried <= TRIED_BUCKET_COUNT * BUCKET_SIZE
  {
    hide TriedCell;
    forall id | id in TriedIds(s.mapInfo) ensures HasCell(s.vvTried, id) {
      var c := TriedCell(net, s.mapInfo[id].service);
      assert c in s.vvTried && s.vvTried[c] == id;
    }
    forall c | c in s.vvTried ensures c in Grid(TRIED_BUCKET_COUNT) {
      TriedCellInGrid(net, s.mapInfo[s.vvTried[c]].service);
    }
    NoMoreThanCells(TriedIds(s.mapInfo), s.vvTried, Grid(TRIED_BUCKET_COUNT));
    GridSize(TRIED_BUCKET_COUNT);
  }

  // ------------------------------------------------------------- the theorem

  predicate SameEntry(a: Info, b: Info) {
    Strip(a) == Strip(b) && a.nRefCount == b.nRefCount && a.fInTried == b.fInTried
  }

  /** t is s with every id replaced by its number, a bijection. */
  ghost predicate SameEntries(s: State, t: State) {
    && (forall id :: id in s.mapInfo ==>
      Number(s, id) in t.mapInfo && SameEntry(s.mapInfo[id], t.mapInfo[Number(s, id)]))
    && (forall n :: n in t.mapInfo ==> exists id :: id in s.mapInfo && Number(s, id) == n)
    && (forall x, y :: x in s.mapInfo && y in s.mapInfo && Number(s, x) == Number(s, y) ==> x == y)
  }

  ghost predicate SameCells(s: State, a: Table, b: Table) {
    && a.Keys == b.Keys
    && (forall c :: c in a ==> a[c] in s.mapInfo && b[c] == Number(s, a[c]))
  }

  ghost predicate SameManager(s: State, t: State) {
    && SameEntries(s, t)
    && s.mapAddr.Keys == t.mapAddr.Keys
    && (forall ip :: ip in s.mapAddr ==> s.mapAddr[ip] in s.mapInfo && t.mapAddr[ip] == Number(s, s.mapAddr[ip]))
    && SameCells(s, s.vvNew, t.vvNew) && SameCells(s, s.vvTried, t.vvTried)
    && t.nNew == s.nNew && t.nTried == s.nTried
  }

  /** What the three reading loops leave behind. */
  ghost predicate Finished(net: Net, s: State, src: seq<Info>, t: State) {
    && Listed(s, src)
    && AddrIs(src, t, |src|) && TriedIs(net, src, |NewList(s)|, t, |src|)
    && Counted(src, t) && t.vvNew == Renamed(s)
    && t.vRandom == Upto(|src|) && t.nIdCount == |src| && t.nNew == |NewList(s)| && t.nTried == |src| - |NewList(s)|
  }

  lemma FinishedEntry(net: Net, s: State, src: seq<Info>, t: State, i: int)
    requires Inv(net, s) && Finished(net, s, src, t) && 0 <= i < |src|
    ensures i in t.mapInfo && SameEntry(src[i], t.mapInfo[i]) && t.mapInfo[i].nLastTry == 0
      && t.mapInfo[i].nRandomPos == i
    ensures src[i] == s.mapInfo[Order(s)[i]]
  {
    hide Inv, Order, Renamed, CellsOf, AddrIs, TriedIs;
    RenamedCells(net, s, i);
  }

  lemma EntriesSame(net: Net, s: State, src: seq<Info>, t: State)
    requires Inv(net, s) && Finished(net, s, src, t)
    ensures SameEntries(s, t)
  {
    hide Inv, Order, Number, AddrIs, TriedIs, Renamed, SameEntry;
    forall id | id in s.mapInfo
      ensures Number(s, id) in t.mapInfo && SameEntry(s.mapInfo[id], t.mapInfo[Number(s, id)])
    {
      NumberIsPlace(net, s, id);
      FinishedEntry(net, s, src, t, Number(s, id));
    }
    forall n | n in t.mapInfo ensures exists id :: id in s.mapInfo && Number(s, id) == n {
      PlaceIsNumber(net, s, n);
      assert Order(s)[n] in s.mapInfo;
    }
    forall x, y | x in s.mapInfo && y in s.mapInfo && Number(s, x) == Number(s, y) ensures x == y {
      NumberIsPlace(net, s, x);
      NumberIsPlace(net, s, y);
    }
  }

  lemma AddressesSame(net: Net, s: State, src: seq<Info>, t: State)
    requires Inv(net, s) && Finished(net, s, src, t)
    ensures s.mapAddr.Keys == t.mapAddr.Keys
    ensures forall ip :: ip in s.mapAddr ==> s.mapAddr[ip] in s.mapInfo && t.mapAddr[ip] == Number(s, s.mapAddr[ip])
  {
    hide Order, Number, NewOk, TriedOk, Counts, Times, TriedIs, Renamed, Counted;
    forall ip | ip in s.mapAddr
      ensures ip in t.mapAddr && s.mapAddr[ip] in s.mapInfo && t.mapAddr[ip] == Number(s, s.mapAddr[ip])
    {
      var id := s.mapAddr[ip];
      NumberIsPlace(net, s, id);
      assert src[Number(s, id)].service.ip == ip;
    }
    forall ip | ip in t.mapAddr ensures ip in s.mapAddr {
      var i := t.mapAddr[ip];
      assert src[i].service.ip == ip;
      LinkedAt(s, Order(s)[i]);
    }
  }

  lemma TriedSame(net: Net, s: State, src: seq<Info>, t: State)
    requires Inv(net, s) && Finished(net, s, src, t)
    ensures SameCells(s, s.vvTried, t.vvTried)
  {
    hide Order, Number, NewOk, Index, Counts, Times, AddrIs, Renamed, Counted, TriedCell;
    forall c | c in s.vvTried
      ensures c in t.vvTried && s.vvTried[c] in s.mapInfo && t.vvTried[c] == Number(s, s.vvTried[c])
    {
      var id := s.vvTried[c];
      NumberIsPlace(net, s, id);
      var i := Number(s, id);
      assert c == TriedCell(net, src[i].service);
    }
    forall c | c in t.vvTried ensures c in s.vvTried {
      var i := t.vvTried[c];
      PlaceIsNumber(net, s, i);
      assert c == TriedCell(net, src[i].service);
    }
  }

  lemma NewSame(net: Net, s: State, t: State)
    requires Inv(net, s) && t.vvNew == Renamed(s)
    ensures SameCells(s, s.vvNew, t.vvNew)
  {
    hide Inv, Order, Number, NewCell, NewList;
    forall c | c in s.vvNew ensures s.vvNew[c] in s.mapInfo && t.vvNew[c] == Number(s, s.vvNew[c]) {
      RenamedAt(net, s, c);
    }
  }

  lemma FinishedSame(net: Net, s: State, src: seq<Info>, t: State)
    requires Inv(net, s) && Finished(net, s, src, t)
    ensures SameManager(s, t)
  {
    hide Inv, Order, Number, SameEntries, SameCells, NewList, AddrIs, TriedIs, Counted, Renamed;
    EntriesSame(net, s, src, t);
    AddressesSame(net, s, src, t);
    TriedSame(net, s, src, t);
    NewSame(net, s, t);
    ListSizes(net, s);
    OrderSize(s);
  }

  lemma OrderSize(s: State)
    ensures |Order(s)| == |NewList(s)| + |TriedList(s)|
  {
  }

  // ----------------------------------------------- the loaded manager is consistent

  lemma FinishedIndex(net: Net, s: State, src: seq<Info>, t: State)
    requires Inv(net, s) && Finished(net, s, src, t)
    ensures Index(t) && Times(t)
  {
    hide Order, NewOk, TriedOk, Counts, TriedIs, Renamed, TimesOk;
    forall i | i in t.mapInfo ensures Linked(t, i) && TimesOk(t.mapInfo[i]) {
      FinishedEntry(net, s, src, t, i);
      assert t.mapAddr[src[i].service.ip] == i;
      TimesSame(net, s, Order(s)[i], t.mapInfo[i]);
    }
    forall ip | ip in t.mapAddr ensures t.mapAddr[ip] in t.mapInfo && t.mapInfo[t.mapAddr[ip]].service.ip == ip {
      FinishedEntry(net, s, src, t, t.mapAddr[ip]);
    }
    forall i | 0 <= i < |t.vRandom| ensures t.vRandom[i] in t.mapInfo && t.mapInfo[t.vRandom[i]].nRandomPos == i {
      FinishedEntry(net, s, src, t, i);
    }
  }

  lemma TimesSame(net: Net, s: State, id: int, b: Info)
    requires Inv(net, s) && id in s.mapInfo && SameEntry(s.mapInfo[id], b) && b.nLastTry == 0
    ensures TimesOk(b)
  {
    assert TimesOk(s.mapInfo[id]);
  }

  lemma FinishedNew(net: Net, s: State, src: seq<Info>, t: State)
    requires Inv(net, s) && Finished(net, s, src, t)
    ensures NewOk(net, t, {})
  {
    hide Inv, Order, NewList, AddrIs, TriedIs, Number, NewCell;
    forall i | i in t.mapInfo ensures RefsOk(t, i, {}) {
      FinishedEntry(net, s, src, t, i);
      PlaceIsNumber(net, s, i);
      Refs(net, s, Order(s)[i]);
    }
    forall c | c in t.vvNew ensures NewCellOk(net, t, c) {
      RenamedAt(net, s, c);
      FinishedEntry(net, s, src, t, t.vvNew[c]);
      PlaceIsNumber(net, s, t.vvNew[c]);
    }
  }

  lemma FinishedTried(net: Net, s: State, src: seq<Info>, t: State)
    requires Inv(net, s) && Finished(net, s, src, t)
    ensures TriedOk(net, t)
  {
    hide Inv, Order, AddrIs, Number, TriedCell, Renamed;
    NewFirst(s);
    forall c | c in t.vvTried ensures && t.vvTried[c] in t.mapInfo && t.mapInfo[t.vvTried[c]].fInTried
                                      && c == TriedCell(net, t.mapInfo[t.vvTried[c]].service) {
      FinishedEntry(net, s, src, t, t.vvTried[c]);
      PlaceIsNumber(net, s, t.vvTried[c]);
    }
    forall i | i in t.mapInfo && t.mapInfo[i].fInTried
      ensures var c := TriedCell(net, t.mapInfo[i].service); c in t.vvTried && t.vvTried[c] == i
    {
      FinishedEntry(net, s, src, t, i);
      PlaceIsNumber(net, s, i);
    }
  }

  function Range(a: int, b: int): (r: set<int>)
    ensures forall i :: i in r <==> a <= i < b
    decreases b - a
  {
    if a >= b then {} else Range(a, b - 1) + {b - 1}
  }

  lemma {:induction false} RangeSize(a: int, b: int)
    requires a <= b
    ensures |Range(a, b)| == b - a
    decreases b - a
  {
    if a < b { RangeSize(a, b - 1); }
  }

  lemma FinishedKind(net: Net, s: State, src: seq<Info>, t: State, i: int)
    requires Inv(net, s) && Finished(net, s, src, t)
    ensures i in t.mapInfo <==> 0 <= i < |src|
    ensures i in t.mapInfo ==> (t.mapInfo[i].fInTried <==> i >= |NewList(s)|)
  {
    hide Inv, Order, AddrIs, Number, TriedIs, NewList, Renamed;
    if i in t.mapInfo {
      FinishedEntry(net, s, src, t, i);
      PlaceIsNumber(net, s, i);
    }
  }

  lemma FinishedCounts(net: Net, s: State, src: seq<Info>, t: State)
    requires Inv(net, s) && Finished(net, s, src, t)
    ensures Counts(t, {})
  {
    hide Inv, Order, NewList, AddrIs, TriedIs, Counted, Renamed, Range;
    NewFirst(s);
    forall i ensures i in t.mapInfo <==> 0 <= i < |src|
      ensures i in t.mapInfo ==> (t.mapInfo[i].fInTried <==> i >= |NewList(s)|)
    {
      FinishedKind(net, s, src, t, i);
    }
    ListedSize(s, src);
    RangeSize(0, |NewList(s)|);
    RangeSize(|NewList(s)|, |src|);
    assert NewIds(t.mapInfo) - {} == Range(0, |NewList(s)|);
    assert TriedIds(t.mapInfo) == Range(|NewList(s)|, |src|);
  }

  lemma FinishedInv(net: Net, s: State, src: seq<Info>, t: State)
    requires Inv(net, s) && Finished(net, s, src, t)
    ensures Inv(net, t)
  {
    hide Finished, Index, NewOk, TriedOk, Counts, Times;
    FinishedIndex(net, s, src, t);
    FinishedNew(net, s, src, t);
    FinishedTried(net, s, src, t);
    FinishedCounts(net, s, src, t);
  }

  // ---------------------------------------------------------- the whole stream

  function Body(s: State): Stream {
    Entries(s.mapInfo, NewList(s)) + Entries(s.mapInfo, TriedList(s)) + BucketsFrom(s, 0)
  }

  lemma WrittenIs(s: State, key: nat)
    ensures Written(s, key) == Header(s, key) + Body(s)
    ensures |Written(s, key)| >= 6 && Written(s, key)[6..] == Body(s)
    ensures forall i :: 0 <= i < 6 ==> Written(s, key)[i] == Header(s, key)[i]
  {
    hide Ids, BucketsFrom, Entries;
    var h, a, b, c := Header(s, key), Entries(s.mapInfo, NewList(s)), Entries(s.mapInfo, TriedList(s)),
      BucketsFrom(s, 0);
    assert h + a + b + c == h + (a + b + c);
  }

  lemma BodyAhead(s: State, src: seq<Info>)
    requires Listed(s, src)
    ensures |NewList(s)| <= |src| && Ahead(src, 0, |NewList(s)|, Body(s)) && |src| <= |Body(s)|
    ensures Ahead(src, |NewList(s)|, |src|, Body(s)[|NewList(s)|..])
    ensures Body(s)[|NewList(s)|..][|src| - |NewList(s)|..] == BucketsFrom(s, 0)
  {
    hide Ids, BucketsFrom;
  }

  /** Nothing is lost: every manager comes back, up to the numbering of its ids. */
  lemma RoundTrip(keyed: nat -> Net, key: nat, s: State) returns (t: State)
    requires Inv(keyed(key), s)
    ensures Load(keyed, Written(s, key)) == Got(Loaded(key, t), [])
    ensures SameManager(s, t) && Inv(keyed(key), t)
  {
    hide Inv, Order, NewList, Written, Body, LoadNew, LoadTried, LoadBuckets, Finished, SameManager;
    var net, nn := keyed(key), |NewList(s)|;
    ListSizes(net, s);
    NewLimit(net, s);
    TriedLimit(net, s);
    WrittenIs(s, key);
    var start := INITIAL.(nNew := s.nNew, nTried := s.nTried);
    t := LoadBodyAll(net, key, s, start);
    assert FlipBit30(FlipBit30(NEW_BUCKET_COUNT)) == NEW_BUCKET_COUNT;
  }

  lemma LoadBodyAll(net: Net, key: nat, s: State, start: State) returns (t: State)
    requires Inv(net, s) && start == INITIAL.(nNew := s.nNew, nTried := s.nTried)
    ensures LoadBody(net, key, start, true, NEW_BUCKET_COUNT, Body(s)) == Got(Loaded(key, t), [])
    ensures SameManager(s, t) && Inv(net, t)
  {
    hide Inv, Order, NewList, Body, LoadNew, LoadTried, LoadBuckets, Finished, SameManager, Source, Target, Loading,
      Placing, Names, Ahead, Prune, Listed, Renamed, SameEntries;
    var nn := |NewList(s)|;
    var src := SourceOk(net, s);
    var s1, s2 := LoadEntries(net, s, src, start);
    TargetOk(net, s, src);
    PlacingStart(net, src, nn, Renamed(s), s2);
    t := LoadBucketsAll(net, src, nn, Renamed(s), s, s2, s2, 0);
    PlacedFinished(net, s, src, s2, t);
    FinishedSame(net, s, src, t);
    FinishedInv(net, s, src, t);
    NoneUnplaced(net, t);
    NothingToPrune(t, 0);
  }

  lemma LoadEntries(net: Net, s: State, src: seq<Info>, start: State) returns (s1: State, s2: State)
    requires Inv(net, s) && start == INITIAL.(nNew := s.nNew, nTried := s.nTried)
    requires Listed(s, src) && Source(net, src, |NewList(s)|)
    ensures |NewList(s)| <= |Body(s)|
    ensures LoadNew(net, start, 0, s.nNew, false, Body(s)) == Got(s1, Body(s)[|NewList(s)|..])
    ensures LoadTried(net, s1, s1.nTried, Body(s)[|NewList(s)|..]) == Got(s2, BucketsFrom(s, 0))
    ensures Loading(net, src, |NewList(s)|, s2, |src|) && s2.nIdCount == |src| && s2.nNew == |NewList(s)|
  {
    hide Inv, Order, NewList, Body, LoadNew, LoadTried, Source, Loading, Ahead, Listed;
    var nn := |NewList(s)|;
    ListSizes(net, s);
    OrderSize(s);
    ListedSize(s, src);
    BodyAhead(s, src);
    LoadingStart(net, src, nn, start);
    s1 := LoadNewAll(net, src, nn, start, 0, Body(s));
    TriedLeft(net, src, nn, s1);
    s2 := LoadTriedAll(net, src, nn, s1, nn, Body(s)[nn..]);
    TriedLeft(net, src, nn, s2);
  }

  lemma ListedSize(s: State, src: seq<Info>)
    requires Listed(s, src)
    ensures |src| == |Order(s)|
  {
  }

  lemma LoadingStart(net: Net, src: seq<Info>, nn: nat, start: State)
    requires nn <= |src| && start == INITIAL.(nNew := nn, nTried := |src| - nn)
    ensures Loading(net, src, nn, start, 0)
  {
  }

  lemma TriedLeft(net: Net, src: seq<Info>, nn: nat, t: State)
    requires exists n :: Loading(net, src, nn, t, n)
    ensures t.nNew == nn && t.nTried == |src| - nn
  {
  }

  lemma PlacedFinished(net: Net, s: State, src: seq<Info>, u: State, t: State)
    requires Listed(s, src)
    requires Loading(net, src, |NewList(s)|, u, |src|) && u.nIdCount == |src|
    requires Target(net, src, |NewList(s)|, Renamed(s)) && Placing(src, Renamed(s), u, t, NEW_BUCKET_COUNT, 0)
    ensures Finished(net, s, src, t)
  {
    hide Order, NewList, Renamed, Target;
    AllPlaced(net, src, |NewList(s)|, Renamed(s), u, t);
  }

  lemma NoneUnplaced(net: Net, t: State)
    requires Inv(net, t)
    ensures forall i :: 0 <= i < t.nIdCount ==> !Unplaced(t, i)
  {
    forall i | i in t.mapInfo ensures !Unplaced(t, i) { assert RefsOk(t, i, {}); }
  }
}
