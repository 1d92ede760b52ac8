/**
  The unspent-output view hierarchy of src/coins.h and src/coins.cpp, on values.

  A `View` is either the coin database or a write-back cache over another view.
  Every operation of CCoinsViewCache and CCoinsModifier is a function on views; the
  theorems say that a stack of caches of any depth, under any run of operations,
  cannot be told from a stack of plain maps from txid to unspent outputs.
 */
module CoinsModel {
  import opened Common

  /** CTxOut: an amount of -1 marks a spent (null) output. */
  datatype TxOut = TxOut(nValue: int, scriptPubKey: seq<bv8>) {
    predicate IsNull() { nValue == -1 }
  }

  datatype Coins = Coins(fCoinBase: bool, vout: seq<TxOut>, nHeight: int, nVersion: int)

  const EMPTY := Coins(false, [], 0, 0)

  type Txid = nat

  predicate IsPruned(c: Coins) {
    forall i :: 0 <= i < |c.vout| ==> c.vout[i].IsNull()
  }

  predicate IsAvailable(c: Coins, n: nat) {
    n < |c.vout| && !c.vout[n].IsNull()
  }

  /** No spent outputs at the end of vout. */
  predicate IsClean(c: Coins) {
    |c.vout| > 0 ==> !c.vout[|c.vout| - 1].IsNull()
  }

  /** Drops the spent outputs at the end of vout. */
  function Trim(v: seq<TxOut>): seq<TxOut> {
    if |v| > 0 && v[|v| - 1].IsNull() then Trim(v[..|v| - 1]) else v
  }

  function Cleanup(c: Coins): Coins {
    c.(vout := Trim(c.vout))
  }

  /** The outputs that remain are a prefix, and only spent outputs were dropped. */
  lemma {:induction false} TrimKeeps(v: seq<TxOut>)
    ensures Trim(v) <= v
    ensures forall i :: |Trim(v)| <= i < |v| ==> v[i].IsNull()
    ensures |Trim(v)| > 0 ==> !Trim(v)[|Trim(v)| - 1].IsNull()
  {
    if |v| > 0 && v[|v| - 1].IsNull() {
      TrimKeeps(v[..|v| - 1]);
    }
  }

  /** What a record says, however it is stored: its three fields and its outputs that are not spent. */
  datatype Record = Record(fCoinBase: bool, nHeight: int, nVersion: int, unspent: map<nat, TxOut>)

  ghost function RecordOf(c: Coins): Record {
    Record(c.fCoinBase, c.nHeight, c.nVersion, map n: nat | n < |c.vout| && !c.vout[n].IsNull() :: c.vout[n])
  }

  lemma PrunedIffNothing(c: Coins)
    ensures IsPruned(c) <==> RecordOf(c).unspent == map[]
  {
    if !IsPruned(c) {
      var i :| 0 <= i < |c.vout| && !c.vout[i].IsNull();
      assert i in RecordOf(c).unspent;
    }
  }

  /** Cleanup changes nothing that a record says and leaves a clean record, empty exactly when pruned. */
  lemma CleanupKeepsOutputs(c: Coins)
    ensures RecordOf(Cleanup(c)) == RecordOf(c)
    ensures IsClean(Cleanup(c))
    ensures forall n: nat :: IsAvailable(Cleanup(c), n) <==> IsAvailable(c, n)
    ensures forall n: nat :: IsAvailable(c, n) ==> n < |Cleanup(c).vout| && Cleanup(c).vout[n] == c.vout[n]
    ensures IsPruned(Cleanup(c)) <==> IsPruned(c)
    ensures Cleanup(c).vout == [] <==> IsPruned(c)
  {
    TrimKeeps(c.vout);
    var d := Cleanup(c);
    forall n: nat
      ensures IsAvailable(d, n) <==> IsAvailable(c, n)
      ensures IsAvailable(c, n) ==> n < |d.vout| && d.vout[n] == c.vout[n]
    {
    }
    assert RecordOf(d).unspent == RecordOf(c).unspent;
    assert IsPruned(c) <==> forall n: nat :: !IsAvailable(c, n);
    assert IsPruned(d) <==> forall n: nat :: !IsAvailable(d, n);
    assert d.vout != [] ==> IsAvailable(d, |d.vout| - 1);
  }

  // ----------------------------------------------------------------- views

  /** CCoinsCacheEntry: the DIRTY and FRESH bits as booleans. */
  datatype Entry = Entry(coins: Coins, isDirty: bool, isFresh: bool)

  type CacheMap = map<Txid, Entry>

  /** The coin database, or a cache over another view; `open` is the txid under an active CCoinsModifier. */
  datatype View =
    | Db(coins: map<Txid, Coins>)
    | Cache(base: View, entries: CacheMap, open: Option<Txid>)

  /** What GetCoins(t) reports. */
  function Get(v: View, t: Txid): Option<Coins> {
    match v
    case Db(m) => if t in m then Some(m[t]) else None
    case Cache(base, entries, _) => if t in entries then Some(entries[t].coins) else Get(base, t)
  }

  /** A pruned record counts as absent. */
  function Live(c: Option<Coins>): Option<Coins> {
    if c.Some? && !IsPruned(c.value) then c else None
  }

  function Unspent(v: View, t: Txid): Option<Coins> {
    Live(Get(v, t))
  }

  ghost function Keys(v: View): set<Txid> {
    match v
    case Db(m) => m.Keys
    case Cache(base, entries, _) => Keys(base) + entries.Keys
  }

  /** The map from txid to unspent outputs that a view presents to its user. */
  ghost function Visible(v: View): map<Txid, Coins> {
    map t | t in Keys(v) && Unspent(v, t).Some? :: Unspent(v, t).value
  }

  lemma {:induction false} GetOnlyKeys(v: View, t: Txid)
    requires Get(v, t).Some?
    ensures t in Keys(v)
  {
    if v.Cache? && t !in v.entries {
      GetOnlyKeys(v.base, t);
    }
  }

  lemma VisibleAt(v: View, t: Txid)
    ensures t in Visible(v) <==> Unspent(v, t).Some?
    ensures t in Visible(v) ==> Visible(v)[t] == Unspent(v, t).value
  {
    if Get(v, t).Some? { GetOnlyKeys(v, t); }
  }

  lemma VisibleIs(v: View, m: map<Txid, Coins>)
    requires forall t :: Unspent(v, t) == (if t in m then Some(m[t]) else None)
    ensures Visible(v) == m
  {
    forall t ensures t in Visible(v) <==> t in m
             ensures t in m ==> t in Visible(v) && Visible(v)[t] == m[t] {
      VisibleAt(v, t);
      assert Unspent(v, t) == (if t in m then Some(m[t]) else None);
    }
  }

  lemma SameUnspentSameVisible(v: View, w: View)
    requires forall t :: Unspent(v, t) == Unspent(w, t)
    ensures Visible(v) == Visible(w)
  {
    forall t ensures Unspent(v, t) == (if t in Visible(w) then Some(Visible(w)[t]) else None) {
      VisibleAt(w, t);
      assert Unspent(v, t) == Unspent(w, t);
    }
    VisibleIs(v, Visible(w));
  }

  // ------------------------------------------------- the flags' invariant

  /** FRESH: the base has nothing unspent.  Not DIRTY: no different from the base. */
  predicate EntryOk(e: Entry, below: Option<Coins>) {
    && (e.isFresh ==> below.None?)
    && (!e.isDirty ==> Live(Some(e.coins)) == below)
  }

  ghost predicate Inv(v: View) {
    v.Cache? ==>
      && Inv(v.base)
      && (forall t :: t in v.entries ==> EntryOk(v.entries[t], Unspent(v.base, t)))
      && (v.open.Some? ==> v.open.value in v.entries && v.entries[v.open.value].isDirty)
  }

  // -------------------------------------------------------------- operations

  datatype Error = ModifierActive | PreExistingCoins | FreshMisapplied

  datatype Result<+T> = Ok(value: T) | Throw(error: Error)

  function FetchedEntry(c: Coins): Entry {
    Entry(c, false, IsPruned(c))
  }

  /** The caches after FetchCoins(t): every cache on the way to the record now holds it. */
  function Fetch(v: View, t: Txid): View {
    match v
    case Db(_) => v
    case Cache(base, entries, open) =>
      if t in entries then v
      else match Get(base, t)
        case None => Cache(Fetch(base, t), entries, open)
        case Some(c) => Cache(Fetch(base, t), entries[t := FetchedEntry(c)], open)
  }

  function OpenedEntry(e: Option<Entry>, below: Option<Coins>): Entry {
    match e
    case Some(e) => e.(isDirty := true)
    case None =>
      match below
      case None => Entry(EMPTY, true, true)
      case Some(c) => Entry(c, true, IsPruned(c))
  }

  function EntryAt(m: CacheMap, t: Txid): Option<Entry> {
    if t in m then Some(m[t]) else None
  }

  function ModifyCoins(v: View, t: Txid): View
    requires v.Cache? && v.open.None?
  {
    Cache(if t in v.entries then v.base else Fetch(v.base, t),
          v.entries[t := OpenedEntry(EntryAt(v.entries, t), Get(v.base, t))],
          Some(t))
  }

  function ModifyNewCoins(v: View, t: Txid, coinbase: bool): Result<View>
    requires v.Cache? && v.open.None?
  {
    var e := if t in v.entries then v.entries[t] else Entry(EMPTY, false, false);
    if !coinbase && !IsPruned(e.coins) then Throw(PreExistingCoins)
    else
      var isFresh := e.isFresh || (!coinbase && !e.isDirty);
      Ok(Cache(v.base, v.entries[t := Entry(EMPTY, true, isFresh)], Some(t)))
  }

  /** The caller writes through the modifier. */
  function Assign(v: View, c: Coins): View
    requires v.Cache? && v.open.Some? && v.open.value in v.entries
  {
    v.(entries := v.entries[v.open.value := v.entries[v.open.value].(coins := c)])
  }

  /** ~CCoinsModifier. */
  function Commit(v: View): View
    requires v.Cache? && v.open.Some? && v.open.value in v.entries
  {
    var t := v.open.value;
    var e := v.entries[t].(coins := Cleanup(v.entries[t].coins));
    v.(entries := if e.isFresh && IsPruned(e.coins) then v.entries - {t} else v.entries[t := e], open := None)
  }

  function Uncache(v: View, t: Txid): View {
    if v.Cache? && t in v.entries && !v.entries[t].isDirty && !v.entries[t].isFresh
    then v.(entries := v.entries - {t}) else v
  }

  // ---- flushing: BatchWrite merges the child's entries into the parent

  predicate Misapplied(ours: Option<Entry>, e: Entry) {
    e.isDirty && e.isFresh && ours.Some? && !IsPruned(ours.value.coins)
  }

  /** The parent cache's entry after BatchWrite handled the child's entry e. */
  function Merge(ours: Option<Entry>, e: Entry): Option<Entry> {
    if !e.isDirty then ours
    else match ours
      case None =>
        if e.isFresh && IsPruned(e.coins) then None else Some(Entry(e.coins, true, e.isFresh))
      case Some(us) =>
        if us.isFresh && IsPruned(e.coins) then None else Some(Entry(e.coins, true, us.isFresh))
  }

  /** The database's record after CCoinsViewDB::BatchWrite handled the child's entry e. */
  function MergeDb(ours: Option<Coins>, e: Entry): Option<Coins> {
    if !e.isDirty then ours else if IsPruned(e.coins) then None else Some(e.coins)
  }

  function Put<V>(m: map<Txid, V>, t: Txid, o: Option<V>): (r: map<Txid, V>)
    ensures forall k :: k in r <==> if k == t then o.Some? else k in m
    ensures forall k :: k in r ==> r[k] == if k == t then o.value else m[k]
  {
    match o
    case Some(x) => m[t := x]
    case None => m - {t}
  }

  function MergedMap(entries: CacheMap, m: CacheMap): CacheMap {
    map t | t in entries.Keys + m.Keys && (t in m ==> Merge(EntryAt(entries, t), m[t]).Some?) ::
      if t in m then Merge(EntryAt(entries, t), m[t]).value else entries[t]
  }

  function MergedDb(coins: map<Txid, Coins>, m: CacheMap): map<Txid, Coins> {
    map t | t in coins.Keys + m.Keys &&
            (t in m ==> MergeDb(if t in coins then Some(coins[t]) else None, m[t]).Some?) ::
      if t in m then MergeDb(if t in coins then Some(coins[t]) else None, m[t]).value else coins[t]
  }

  /** BatchWrite as a whole: the order in which the child's entries are visited does not matter. */
  function BatchWrite(v: View, m: CacheMap): Result<View> {
    match v
    case Db(coins) => Ok(Db(MergedDb(coins, m)))
    case Cache(base, entries, open) =>
      if open.Some? then Throw(ModifierActive)
      else if exists t :: t in m && Misapplied(EntryAt(entries, t), m[t]) then Throw(FreshMisapplied)
      else Ok(v.(entries := MergedMap(entries, m)))
  }

  function Flush(v: View): Result<View>
    requires v.Cache? && v.open.None?
  {
    match BatchWrite(v.base, v.entries)
    case Throw(x) => Throw(x)
    case Ok(base) => Ok(Cache(base, map[], None))
  }
}
