/**
  A stack of coin caches refines a stack of plain maps.

  `Plain` is what a user of the stack may believe in: one map per level from txids to what their
  records say, no flags, no pruned records, no spent outputs, no lazily copied entries.  `Abs`
  forgets the caching; the theorems show that every operation, and so every run of operations,
  commutes with it.
 */
module CoinsRefinement {
  import opened Common
  import opened CoinsModel

  datatype Plain =
    | Base(coins: map<Txid, Record>)
    | Over(below: Plain, coins: map<Txid, Record>, open: Option<Txid>)

  ghost function Abs(v: View): Plain {
    match v
    case Db(_) => Base(Seen(v))
    case Cache(base, _, open) => Over(Abs(base), Seen(v), open)
  }

  /** What the records of a view say. */
  ghost function Seen(v: View): map<Txid, Record> {
    map t | t in Visible(v) :: RecordOf(Visible(v)[t])
  }

  lemma AbsCoins(v: View)
    ensures Abs(v).coins == Seen(v)
  {
  }

  /** A record with something unspent, or nothing. */
  ghost function Alive(r: Record): Option<Record> {
    if r.unspent != map[] then Some(r) else None
  }

  lemma SeenPut(v: View, w: View, t: Txid, c: Coins)
    requires Visible(w) == Put(Visible(v), t, Live(Some(c)))
    ensures Seen(w) == Put(Seen(v), t, Alive(RecordOf(c)))
  {
    hide RecordOf, IsPruned, Visible;
    PrunedIffNothing(c);
    var m := Put(Seen(v), t, Alive(RecordOf(c)));
    assert forall k :: k in Seen(w) <==> k in m;
    assert forall k :: k in m ==> Seen(w)[k] == m[k];
  }

  // ------------------------------------------------------------------ reads

  lemma {:induction false} FetchKeepsGet(v: View, t: Txid, k: Txid)
    ensures Get(Fetch(v, t), k) == Get(v, k)
  {
    if v.Cache? {
      FetchKeepsGet(v.base, t, k);
    }
  }

  lemma FetchKeepsUnspent(v: View, t: Txid)
    ensures forall k :: Unspent(Fetch(v, t), k) == Unspent(v, k)
  {
    forall k ensures Unspent(Fetch(v, t), k) == Unspent(v, k) { FetchKeepsGet(v, t, k); }
  }

  /** Reading fills caches at every depth, keeps the flag invariant and shows the user no change. */
  lemma {:induction false} FetchRefines(v: View, t: Txid)
    requires Inv(v)
    ensures Inv(Fetch(v, t))
    ensures Abs(Fetch(v, t)) == Abs(v)
    ensures forall k :: Unspent(Fetch(v, t), k) == Unspent(v, k)
  {
    FetchKeepsUnspent(v, t);
    SameUnspentSameVisible(Fetch(v, t), v);
    if v.Cache? {
      FetchRefines(v.base, t);
      FetchKeepsUnspent(v.base, t);
      var w := Fetch(v, t);
      forall k | k in w.entries ensures EntryOk(w.entries[k], Unspent(w.base, k)) {
        FetchKeepsGet(v.base, t, k);
        if k in v.entries { assert EntryOk(v.entries[k], Unspent(v.base, k)); }
      }
    }
  }

  lemma UncacheKeepsUnspent(v: View, t: Txid)
    requires Inv(v)
    ensures forall k :: Unspent(Uncache(v, t), k) == Unspent(v, k)
  {
    forall k ensures Unspent(Uncache(v, t), k) == Unspent(v, k) {
      if v.Cache? && k in v.entries { assert EntryOk(v.entries[k], Unspent(v.base, k)); }
    }
  }

  lemma UncacheRefines(v: View, t: Txid)
    requires Inv(v)
    requires v.Cache? && v.open.Some? ==> v.entries[v.open.value].isDirty
    ensures Inv(Uncache(v, t))
    ensures Abs(Uncache(v, t)) == Abs(v)
    ensures forall k :: Unspent(Uncache(v, t), k) == Unspent(v, k)
  {
    UncacheKeepsUnspent(v, t);
    SameUnspentSameVisible(Uncache(v, t), v);
  }

  // ------------------------------------------------------------- modifiers

  /** What replacing the entry for t by e does to the view, when the base keeps what it shows. */
  lemma ReplaceEntry(v: View, w: View, t: Txid, e: Entry)
    requires v.Cache? && w.Cache?
    requires Inv(v) && Inv(w.base) && Abs(w.base) == Abs(v.base)
    requires forall k :: Unspent(w.base, k) == Unspent(v.base, k)
    requires w.entries == v.entries[t := e]
    requires EntryOk(e, Unspent(v.base, t))
    requires w.open == Some(t) && e.isDirty
    ensures Inv(w)
    ensures Visible(w) == Put(Visible(v), t, Live(Some(e.coins)))
    ensures Seen(w) == Put(Seen(v), t, Alive(RecordOf(e.coins)))
  {
    forall k | k in w.entries ensures EntryOk(w.entries[k], Unspent(w.base, k)) {
      assert Unspent(w.base, k) == Unspent(v.base, k);
      if k != t { assert EntryOk(v.entries[k], Unspent(v.base, k)); }
    }
    var m := Put(Visible(v), t, Live(Some(e.coins)));
    forall k ensures Unspent(w, k) == (if k in m then Some(m[k]) else None) {
      VisibleAt(v, k);
      assert Unspent(w.base, k) == Unspent(v.base, k);
    }
    VisibleIs(w, m);
    SeenPut(v, w, t, e.coins);
  }

  lemma SameVisibleSameSeen(v: View, w: View)
    requires Visible(v) == Visible(w)
    ensures Seen(v) == Seen(w)
  {
  }

  lemma ModifyCoinsEntry(v: View, t: Txid)
    requires Inv(v) && v.Cache? && v.open.None?
    ensures var w := ModifyCoins(v, t);
      && w.Cache? && w.open == Some(t) && t in w.entries && w.entries == v.entries[t := w.entries[t]]
      && w.entries[t].isDirty && EntryOk(w.entries[t], Unspent(v.base, t))
      && Live(Some(w.entries[t].coins)) == Unspent(v, t)
      && (w.base == v.base || w.base == Fetch(v.base, t))
  {
    if t in v.entries { assert EntryOk(v.entries[t], Unspent(v.base, t)); }
  }

  lemma ModifyCoinsRefines(v: View, t: Txid)
    requires Inv(v) && v.Cache? && v.open.None?
    ensures Inv(ModifyCoins(v, t))
    ensures Abs(ModifyCoins(v, t)) == Over(Abs(v.base), Seen(v), Some(t))
  {
    hide RecordOf, ModifyCoins, Visible, Fetch, IsPruned, Seen;
    ModifyCoinsEntry(v, t);
    var w := ModifyCoins(v, t);
    FetchRefines(v.base, t);
    ReplaceEntry(v, w, t, w.entries[t]);
    VisibleAt(v, t);
    assert Put(Visible(v), t, Unspent(v, t)) == Visible(v);
    SameVisibleSameSeen(v, w);
  }

  /** A non-coinbase may only be marked FRESH where the base holds nothing unspent for it (BIP 30). */
  lemma ModifyNewCoinsRefines(v: View, t: Txid, coinbase: bool)
    requires Inv(v) && v.Cache? && v.open.None?
    requires !coinbase ==> t !in Visible(v)
    ensures ModifyNewCoins(v, t, coinbase).Ok?
    ensures Inv(ModifyNewCoins(v, t, coinbase).value)
    ensures Abs(ModifyNewCoins(v, t, coinbase).value)
         == Over(Abs(v.base), Seen(v) - {t}, Some(t))
  {
    VisibleAt(v, t);
    PrunedIffNothing(EMPTY);
    if t in v.entries { assert EntryOk(v.entries[t], Unspent(v.base, t)); }
    var w := ModifyNewCoins(v, t, coinbase).value;
    ReplaceEntry(v, w, t, w.entries[t]);
  }

  /** Without BIP 30 the FRESH bit may lie: the call keeps the invariant exactly in these cases. */
  lemma ModifyNewCoinsExactly(v: View, t: Txid, coinbase: bool)
    requires Inv(v) && v.Cache? && v.open.None?
    ensures ModifyNewCoins(v, t, coinbase).Throw? <==>
              !coinbase && t in v.entries && !IsPruned(v.entries[t].coins)
    ensures ModifyNewCoins(v, t, coinbase).Ok? ==>
              (Inv(ModifyNewCoins(v, t, coinbase).value) <==>
                 coinbase || t in v.entries || Unspent(v.base, t).None?)
  {
    if t in v.entries { assert EntryOk(v.entries[t], Unspent(v.base, t)); }
    var r := ModifyNewCoins(v, t, coinbase);
    if r.Ok? {
      var w := r.value;
      if coinbase || t in v.entries || Unspent(v.base, t).None? {
        ReplaceEntry(v, w, t, w.entries[t]);
      } else {
        assert !EntryOk(w.entries[t], Unspent(w.base, t));
      }
    }
  }

  lemma AssignRefines(v: View, c: Coins)
    requires Inv(v) && v.Cache? && v.open.Some?
    ensures Inv(Assign(v, c))
    ensures Abs(Assign(v, c)) == Over(Abs(v.base), Put(Seen(v), v.open.value, Alive(RecordOf(c))), v.open)
  {
    var t := v.open.value;
    var w := Assign(v, c);
    assert EntryOk(v.entries[t], Unspent(v.base, t));
    ReplaceEntry(v, w, t, w.entries[t]);
  }

  lemma CommitEntries(v: View)
    requires Inv(v) && v.Cache? && v.open.Some?
    ensures Inv(Commit(v))
  {
    var t := v.open.value;
    var w := Commit(v);
    forall k | k in w.entries ensures EntryOk(w.entries[k], Unspent(w.base, k)) {
      assert EntryOk(v.entries[k], Unspent(v.base, k));
    }
  }

  lemma CommitShows(v: View, k: Txid)
    requires Inv(v) && v.Cache? && v.open.Some?
    ensures var before, after := Unspent(v, k), Unspent(Commit(v), k);
      after.Some? == before.Some? && (before.Some? ==> RecordOf(after.value) == RecordOf(before.value))
  {
    hide RecordOf;
    var t := v.open.value;
    CleanupKeepsOutputs(v.entries[t].coins);
    assert EntryOk(v.entries[t], Unspent(v.base, t));
  }

  /**
    Closing a modifier shows the user no change: cleaning up drops nothing that a record says, and a
    dropped FRESH entry that ended up pruned loses nothing, since the base shows nothing there either.
   */
  lemma CommitRefines(v: View)
    requires Inv(v) && v.Cache? && v.open.Some?
    ensures Inv(Commit(v))
    ensures Abs(Commit(v)) == Over(Abs(v.base), Seen(v), None)
  {
    hide RecordOf, Unspent;
    CommitEntries(v);
    var w := Commit(v);
    forall k ensures k in Seen(w) <==> k in Seen(v) ensures k in Seen(v) ==> k in Seen(w) && Seen(w)[k] == Seen(v)[k] {
      CommitShows(v, k);
      VisibleAt(v, k);
      VisibleAt(w, k);
    }
    assert Seen(w) == Seen(v);
  }

  // ---------------------------------------------------------------- flushing

  /** The FRESH-misapplied exception cannot be raised by a child that satisfies the invariant. */
  lemma NeverMisapplied(v: View, t: Txid)
    requires Inv(v) && v.Cache? && v.base.Cache? && t in v.entries
    ensures !Misapplied(EntryAt(v.base.entries, t), v.entries[t])
  {
    assert EntryOk(v.entries[t], Unspent(v.base, t));
  }

  /** After the merge the base shows at t what the child showed: a database underneath. */
  lemma MergedDbShowsChild(v: View, w: View, t: Txid)
    requires Inv(v) && v.Cache? && v.base.Db?
    requires BatchWrite(v.base, v.entries) == Ok(w)
    ensures Unspent(w, t) == Unspent(v, t)
  {
    if t in v.entries {
      assert EntryOk(v.entries[t], Unspent(v.base, t));
    }
    var us := Get(v.base, t);
    assert Get(w, t) == if t in v.entries then MergeDb(us, v.entries[t]) else us;
  }

  /** The same with another cache underneath, whose own entry stays true to the grandparent. */
  lemma MergedCacheShowsChild(v: View, w: View, t: Txid)
    requires Inv(v) && v.Cache? && v.base.Cache?
    requires BatchWrite(v.base, v.entries) == Ok(w)
    ensures Unspent(w, t) == Unspent(v, t)
    ensures t in w.entries ==> EntryOk(w.entries[t], Unspent(w.base, t))
  {
    var us := EntryAt(v.base.entries, t);
    if us.Some? { assert EntryOk(us.value, Unspent(v.base.base, t)); }
    if t in v.entries { assert EntryOk(v.entries[t], Unspent(v.base, t)); }
    assert EntryAt(w.entries, t) == if t in v.entries then Merge(us, v.entries[t]) else us;
    assert Get(v.base, t) == if us.Some? then Some(us.value.coins) else Get(v.base.base, t);
    assert Get(w, t) == if t in w.entries then Some(w.entries[t].coins) else Get(v.base.base, t);
  }

  lemma FlushRefines(v: View)
    requires Inv(v) && v.Cache? && v.open.None?
    requires v.base.Cache? ==> v.base.open.None?
    ensures Flush(v).Ok? && Inv(Flush(v).value)
    ensures Flush(v).value.Cache? && Flush(v).value.open.None?
    ensures Flush(v).value.entries == map[]
    ensures Abs(Flush(v).value) == Over(Abs(v.base).(coins := Seen(v)), Seen(v), None)
    ensures Visible(Flush(v).value.base) == Visible(v)
  {
    if v.base.Cache? {
      forall t | t in v.entries ensures !Misapplied(EntryAt(v.base.entries, t), v.entries[t]) {
        NeverMisapplied(v, t);
      }
    }
    var w := BatchWrite(v.base, v.entries).value;
    forall t ensures Unspent(w, t) == Unspent(v, t)
             ensures w.Cache? && t in w.entries ==> EntryOk(w.entries[t], Unspent(w.base, t)) {
      if v.base.Db? { MergedDbShowsChild(v, w, t); } else { MergedCacheShowsChild(v, w, t); }
    }
    SameUnspentSameVisible(w, v);
    SameUnspentSameVisible(Flush(v).value, v);
  }
}
