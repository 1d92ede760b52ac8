/**
  Whole runs over a stack of coin caches: any interleaving of reads at any depth,
  modifier sessions, Uncache, Flush, and caches created or thrown away on top.
 */
module CoinsRuns {
  import opened Common
  import opened CoinsModel
  import opened CoinsRefinement

  /** Operations allowed on any cache of the stack, also below a live child. */
  datatype Touch = Read(t: Txid) | Evict(t: Txid)

  datatype Op =
    | NewChild
    | Discard
    | At(depth: nat, touch: Touch)
    | Modify(t: Txid)
    | ModifyNew(t: Txid, coinbase: bool)
    | Write(c: Coins)
    | Close
    | FlushTop

  function TouchAt(v: View, depth: nat, touch: Touch): View {
    if depth > 0 && v.Cache? then v.(base := TouchAt(v.base, depth - 1, touch))
    else match touch
      case Read(t) => Fetch(v, t)
      case Evict(t) => Uncache(v, t)
  }

  /** The stack after one operation on its top; the source's asserts and exceptions as Throw. */
  function Step(v: View, op: Op): Result<View> {
    match op
    case NewChild => Ok(Cache(v, map[], None))
    case Discard => if v.Cache? && v.open.None? then Ok(v.base) else Throw(ModifierActive)
    case At(depth, touch) => Ok(TouchAt(v, depth, touch))
    case Modify(t) => if v.Cache? && v.open.None? then Ok(ModifyCoins(v, t)) else Throw(ModifierActive)
    case ModifyNew(t, coinbase) =>
      if v.Cache? && v.open.None? then ModifyNewCoins(v, t, coinbase) else Throw(ModifierActive)
    case Write(c) =>
      if v.Cache? && v.open.Some? && v.open.value in v.entries then Ok(Assign(v, c)) else Throw(ModifierActive)
    case Close =>
      if v.Cache? && v.open.Some? && v.open.value in v.entries then Ok(Commit(v)) else Throw(ModifierActive)
    case FlushTop => if v.Cache? && v.open.None? then Flush(v) else Throw(ModifierActive)
  }

  function Run(v: View, ops: seq<Op>): Result<View>
    decreases |ops|
  {
    if ops == [] then Ok(v)
    else match Step(v, ops[0])
      case Throw(x) => Throw(x)
      case Ok(w) => Run(w, ops[1..])
  }

  // ------------------------------------------------- the plain-map semantics

  predicate Closed(p: Plain) {
    p.Over? ==> p.open.None?
  }

  /** What the source asks of its callers, in terms of what they can see. */
  predicate Legal(p: Plain, op: Op) {
    match op
    case NewChild => Closed(p)
    case Discard => p.Over? && p.open.None?
    case At(_, _) => true
    case Modify(t) => p.Over? && p.open.None?
    case ModifyNew(t, coinbase) => p.Over? && p.open.None? && (coinbase || t !in p.coins)
    case Write(c) => p.Over? && p.open.Some?
    case Close => p.Over? && p.open.Some?
    case FlushTop => p.Over? && p.open.None? && Closed(p.below)
  }

  ghost function PlainStep(p: Plain, op: Op): Plain
    requires Legal(p, op)
  {
    match op
    case NewChild => Over(p, p.coins, None)
    case Discard => p.below
    case At(_, _) => p
    case Modify(t) => p.(open := Some(t))
    case ModifyNew(t, _) => p.(coins := p.coins - {t}, open := Some(t))
    case Write(c) => p.(coins := Put(p.coins, p.open.value, Alive(RecordOf(c))))
    case Close => p.(open := None)
    case FlushTop => p.(below := p.below.(coins := p.coins))
  }

  ghost predicate LegalRun(p: Plain, ops: seq<Op>)
    decreases |ops|
  {
    ops == [] || (Legal(p, ops[0]) && LegalRun(PlainStep(p, ops[0]), ops[1..]))
  }

  ghost function PlainRun(p: Plain, ops: seq<Op>): Plain
    requires LegalRun(p, ops)
    decreases |ops|
  {
    if ops == [] then p else PlainRun(PlainStep(p, ops[0]), ops[1..])
  }

  // ------------------------------------------------------------- refinement

  lemma {:induction false} TouchRefines(v: View, depth: nat, touch: Touch)
    requires Inv(v)
    ensures Inv(TouchAt(v, depth, touch))
    ensures Abs(TouchAt(v, depth, touch)) == Abs(v)
    ensures forall k :: Unspent(TouchAt(v, depth, touch), k) == Unspent(v, k)
  {
    if depth > 0 && v.Cache? {
      TouchRefines(v.base, depth - 1, touch);
      var w := TouchAt(v, depth, touch);
      forall t | t in w.entries ensures EntryOk(w.entries[t], Unspent(w.base, t)) {
        assert EntryOk(v.entries[t], Unspent(v.base, t));
      }
      forall t ensures Unspent(w, t) == Unspent(v, t) {
        assert Unspent(w.base, t) == Unspent(v.base, t);
      }
      SameUnspentSameVisible(w, v);
    } else if touch.Read? {
      FetchRefines(v, touch.t);
    } else {
      UncacheRefines(v, touch.t);
    }
  }

  lemma NewChildRefines(v: View)
    requires Inv(v)
    ensures Inv(Cache(v, map[], None))
    ensures Abs(Cache(v, map[], None)) == Over(Abs(v), Abs(v).coins, None)
  {
    AbsCoins(v);
    SameUnspentSameVisible(Cache(v, map[], None), v);
  }

  /** Every operation commutes with forgetting the caches, throws nothing and keeps the flag invariant. */
  lemma StepRefines(v: View, op: Op)
    requires Inv(v) && Legal(Abs(v), op)
    ensures Step(v, op).Ok?
    ensures Inv(Step(v, op).value)
    ensures Abs(Step(v, op).value) == PlainStep(Abs(v), op)
  {
    AbsCoins(v);
    match op
    case NewChild => NewChildRefines(v);
    case Discard =>
    case At(depth, touch) => TouchRefines(v, depth, touch);
    case Modify(t) => ModifyCoinsRefines(v, t);
    case ModifyNew(t, coinbase) => ModifyNewCoinsRefines(v, t, coinbase);
    case Write(c) => AssignRefines(v, c);
    case Close => CommitRefines(v);
    case FlushTop => FlushRefines(v);
  }

  /**
    The refinement theorem: over every legal run the stack never throws, each of its levels
    shows exactly the map that the plain semantics computes, and FRESH and DIRTY stay truthful.
   */
  lemma {:induction false} RunRefines(v: View, ops: seq<Op>)
    requires Inv(v) && LegalRun(Abs(v), ops)
    ensures Run(v, ops).Ok?
    ensures Inv(Run(v, ops).value)
    ensures Abs(Run(v, ops).value) == PlainRun(Abs(v), ops)
    decreases |ops|
  {
    if ops != [] {
      StepRefines(v, ops[0]);
      RunRefines(Step(v, ops[0]).value, ops[1..]);
    }
  }

  /** From a bare database: the records that GetCoins reports at the end say what the plain maps hold. */
  lemma RunFromDatabase(db: map<Txid, Coins>, ops: seq<Op>, t: Txid)
    requires LegalRun(Abs(Db(db)), ops)
    ensures Run(Db(db), ops).Ok?
    ensures var c, m := Unspent(Run(Db(db), ops).value, t), PlainRun(Abs(Db(db)), ops).coins;
            (c.Some? <==> t in m) && (c.Some? ==> RecordOf(c.value) == m[t])
  {
    hide RecordOf;
    RunRefines(Db(db), ops);
    var v := Run(Db(db), ops).value;
    AbsCoins(v);
    VisibleAt(v, t);
  }

  /** Flushing a child and throwing it away leaves the parent showing the child's map. */
  lemma FlushThenDiscard(v: View)
    requires Inv(v) && v.Cache? && v.open.None? && Closed(Abs(v.base))
    ensures Run(v, [FlushTop, Discard]).Ok?
    ensures Visible(Run(v, [FlushTop, Discard]).value) == Visible(v)
  {
    FlushRefines(v);
    var f := Flush(v).value;
    assert Run(v, [FlushTop, Discard]) == Run(f, [Discard]);
    assert Run(f, [Discard]) == Run(f.base, []);
    AbsCoins(f.base);
  }

  /** r has c's fields and exactly c's available outputs. */
  ghost predicate SaysTheSame(r: Coins, c: Coins) {
    && r.fCoinBase == c.fCoinBase && r.nHeight == c.nHeight && r.nVersion == c.nVersion
    && (forall n: nat :: IsAvailable(r, n) <==> IsAvailable(c, n))
    && (forall n: nat | IsAvailable(c, n) && IsAvailable(r, n) :: r.vout[n] == c.vout[n])
  }

  /** After a session that wrote c the visible record says what c says, or is gone where c has no output left. */
  lemma SessionShows(v: View, t: Txid, c: Coins)
    requires Inv(v) && v.Cache? && v.open.None?
    ensures Run(v, [Modify(t), Write(c), Close]).Ok?
    ensures var r := Unspent(Run(v, [Modify(t), Write(c), Close]).value, t);
            (r.Some? <==> exists n: nat :: IsAvailable(c, n)) && (r.Some? ==> SaysTheSame(r.value, c))
    ensures Seen(Run(v, [Modify(t), Write(c), Close]).value) - {t} == Seen(v) - {t}
  {
    hide RecordOf, Run, SaysTheSame, Unspent, IsAvailable, IsPruned;
    SessionSeen(v, t, c);
    var w := Run(v, [Modify(t), Write(c), Close]).value;
    VisibleAt(w, t);
    PrunedIffNothing(c);
    PrunedIffUnavailable(c);
    var m := Put(Seen(v), t, Alive(RecordOf(c)));
    assert t in m <==> !IsPruned(c);
    assert t in m ==> m[t] == RecordOf(c);
    assert t in Seen(w) ==> Seen(w)[t] == RecordOf(Visible(w)[t]);
    assert Seen(w) - {t} == Seen(v) - {t};
    if Unspent(w, t).Some? { SameRecord(Unspent(w, t).value, c); }
  }

  lemma PrunedIffUnavailable(c: Coins)
    ensures IsPruned(c) <==> forall n: nat :: !IsAvailable(c, n)
  {
    if !IsPruned(c) {
      var n: nat :| n < |c.vout| && !c.vout[n].IsNull();
      assert IsAvailable(c, n);
    }
  }

  lemma SessionSeen(v: View, t: Txid, c: Coins)
    requires Inv(v) && v.Cache? && v.open.None?
    ensures Run(v, [Modify(t), Write(c), Close]).Ok?
    ensures Seen(Run(v, [Modify(t), Write(c), Close]).value) == Put(Seen(v), t, Alive(RecordOf(c)))
  {
    hide RecordOf, Run, PlainRun, LegalRun, Seen;
    var ops := [Modify(t), Write(c), Close];
    SessionPlain(Abs(v), t, c);
    RunRefines(v, ops);
    AbsCoins(v);
    AbsCoins(Run(v, ops).value);
  }

  lemma SessionPlain(p: Plain, t: Txid, c: Coins)
    requires p.Over? && p.open.None?
    ensures LegalRun(p, [Modify(t), Write(c), Close])
    ensures PlainRun(p, [Modify(t), Write(c), Close]) == p.(coins := Put(p.coins, t, Alive(RecordOf(c))))
  {
    hide RecordOf;
    var p1 := PlainStep(p, Modify(t));
    var p2 := PlainStep(p1, Write(c));
    assert [Modify(t), Write(c), Close][1..] == [Write(c), Close] && [Write(c), Close][1..] == [Close];
    assert LegalRun(p2, [Close]) && PlainRun(p2, [Close]) == PlainStep(p2, Close);
    assert LegalRun(p1, [Write(c), Close]) && PlainRun(p1, [Write(c), Close]) == PlainRun(p2, [Close]);
  }

  lemma SameRecord(r: Coins, c: Coins)
    requires RecordOf(r) == RecordOf(c)
    ensures SaysTheSame(r, c)
  {
    forall n: nat
      ensures IsAvailable(r, n) <==> IsAvailable(c, n)
      ensures IsAvailable(r, n) && IsAvailable(c, n) ==> r.vout[n] == c.vout[n]
    {
      assert IsAvailable(r, n) <==> n in RecordOf(r).unspent;
      assert IsAvailable(c, n) <==> n in RecordOf(c).unspent;
      assert n in RecordOf(c).unspent ==> RecordOf(c).unspent[n] == RecordOf(r).unspent[n];
    }
  }

  /** A session that leaves nothing, on a txid that is nowhere, leaves no entry behind either. */
  lemma NothingKept(v: View, t: Txid, c: Coins)
    requires Inv(v) && v.Cache? && v.open.None? && t !in v.entries && Unspent(v.base, t).None? && IsPruned(c)
    ensures Run(v, [Modify(t), Write(c), Close]).Ok?
    ensures var w := Run(v, [Modify(t), Write(c), Close]).value; w.Cache? && w.entries == v.entries
  {
    var v1 := ModifyCoins(v, t);
    var v2 := Assign(v1, c);
    CleanupKeepsOutputs(c);
    assert [Modify(t), Write(c), Close][1..] == [Write(c), Close] && [Write(c), Close][1..] == [Close];
    assert Step(v, Modify(t)) == Ok(v1) && Step(v1, Write(c)) == Ok(v2);
    assert Run(v2, [Close]) == Ok(Commit(v2));
    assert Run(v1, [Write(c), Close]) == Run(v2, [Close]);
  }

  /** A session that makes a new record, and one that rewrites a record. */
  function Made(v: View, t: Txid, c: Coins): View
    requires v.Cache? && v.open.None? && ModifyNewCoins(v, t, false).Ok?
  {
    Commit(Assign(ModifyNewCoins(v, t, false).value, c))
  }

  function Rewritten(v: View, t: Txid, c: Coins): View
    requires v.Cache? && v.open.None?
  {
    Commit(Assign(ModifyCoins(v, t), c))
  }

  lemma NewRecord(v: View, t: Txid, c: Coins)
    requires Inv(v) && v.Cache? && v.open.None? && t !in v.entries && t !in Visible(v) && !IsPruned(c)
    ensures ModifyNewCoins(v, t, false).Ok?
    ensures var w := Made(v, t, c);
      && Inv(w) && w.Cache? && w.open.None? && w.base == v.base && t in w.entries
      && w.entries[t] == Entry(Cleanup(c), true, true) && !IsPruned(w.entries[t].coins)
  {
    ModifyNewCoinsRefines(v, t, false);
    var v1 := ModifyNewCoins(v, t, false).value;
    AssignRefines(v1, c);
    CommitRefines(Assign(v1, c));
    CleanupKeepsOutputs(c);
  }

  lemma SpentRecord(v: View, t: Txid, d: Coins)
    requires Inv(v) && v.Cache? && v.open.None? && v.base.Cache? && t !in v.entries && t in v.base.entries
    requires !IsPruned(v.base.entries[t].coins) && IsPruned(d)
    ensures var w := Rewritten(v, t, d);
      && Inv(w) && w.Cache? && w.open.None? && w.base == v.base && t in w.entries
      && w.entries[t] == Entry(Cleanup(d), true, false) && IsPruned(w.entries[t].coins)
  {
    ModifyCoinsRefines(v, t);
    AssignRefines(ModifyCoins(v, t), d);
    CommitRefines(Assign(ModifyCoins(v, t), d));
    CleanupKeepsOutputs(d);
  }

  /**
    What FRESH is for: a record made in one cache, flushed to the cache below, and spent before that
    one is flushed leaves no trace in either, and is never written further down.
   */
  lemma ShortLived(v: View, t: Txid, c: Coins, d: Coins)
    requires Inv(v) && v.Cache? && v.open.None? && v.base.Cache? && v.base.open.None?
    requires t !in v.entries && t !in v.base.entries && t !in Visible(v) && !IsPruned(c) && IsPruned(d)
    ensures ModifyNewCoins(v, t, false).Ok? && Flush(Made(v, t, c)).Ok?
    ensures var f1 := Flush(Made(v, t, c)).value;
      && f1.base.Cache? && t in f1.base.entries && f1.base.base == v.base.base && Flush(Rewritten(f1, t, d)).Ok?
      && var f2 := Flush(Rewritten(f1, t, d)).value;
      && f2.base.Cache? && t !in f2.entries && t !in f2.base.entries && f2.base.base == v.base.base
  {
    hide Inv, Made, Rewritten, ModifyNewCoins, Cleanup, Visible, IsPruned;
    NewRecord(v, t, c);
    var v1 := Made(v, t, c);
    FlushRefines(v1);
    var f1 := Flush(v1).value;
    assert f1.base.entries[t] == Entry(Cleanup(c), true, true);
    SpentRecord(f1, t, d);
    FlushRefines(Rewritten(f1, t, d));
  }

  /** Uncache drops an entry without flags, and touches nothing else. */
  lemma UncacheDrops(v: View, t: Txid)
    requires v.Cache?
    ensures var w := Uncache(v, t);
      && w.Cache? && w.base == v.base && w.open == v.open && w.entries - {t} == v.entries - {t}
      && (t in w.entries <==> t in v.entries && (v.entries[t].isDirty || v.entries[t].isFresh))
      && (t in w.entries ==> w.entries[t] == v.entries[t])
  {
  }

  /** A record that was read is marked FRESH exactly when nothing of it is unspent below, and never DIRTY. */
  lemma ReadMarks(v: View, t: Txid)
    requires v.Cache? && t !in v.entries && Get(v.base, t).Some?
    ensures var w := Fetch(v, t);
      && t in w.entries && !w.entries[t].isDirty && (w.entries[t].isFresh <==> Unspent(v.base, t).None?)
      && w.entries[t].coins == Get(v.base, t).value && w.entries - {t} == v.entries
  {
    assert Fetch(v, t).entries - {t} == v.entries;
  }

  /** Where BIP 30 does not hold, FRESH lets a spend be forgotten: the caller emptied txid 7, yet it is still there. */
  lemma Bip30IsNeeded()
    ensures exists v: View, t: Txid ::
              && Inv(v) && v.Cache? && v.open.None? && t !in v.entries
              && ModifyNewCoins(v, t, false).Ok?
              && t in Visible(Commit(ModifyNewCoins(v, t, false).value))
  {
    var c := Coins(false, [TxOut(5, [])], 1, 1);
    var v := Cache(Db(map[7 := c]), map[], None);
    assert c.vout[0] == TxOut(5, []);
    assert Inv(v);
    var w := ModifyNewCoins(v, 7, false).value;
    assert w.entries[7] == Entry(EMPTY, true, true);
    var x := Commit(w);
    assert x == Cache(v.base, map[], None);
    assert Get(x, 7) == Some(c);
    VisibleAt(x, 7);
    assert 7 in Visible(Commit(ModifyNewCoins(v, 7, false).value));
  }

  // ------------------------------------------- HaveCoins and clean records

  function HaveCoins(v: View, t: Txid): bool {
    match v
    case Db(m) => t in m
    case Cache(_, _, _) => Get(v, t).Some? && Get(v, t).value.vout != []
  }

  /** No stored record ends in spent outputs, except the one under the modifier; no modifier is open below. */
  ghost predicate Tidy(v: View) {
    match v
    case Db(m) => forall t :: t in m ==> IsClean(m[t]) && !IsPruned(m[t])
    case Cache(base, entries, open) =>
      && Tidy(base)
      && (base.Cache? ==> base.open.None?)
      && forall t :: t in entries ==> IsClean(entries[t].coins) || open == Some(t)
  }

  lemma {:induction false} TidyGet(v: View, t: Txid)
    requires Tidy(v) && Get(v, t).Some?
    requires v.Cache? ==> v.open != Some(t)
    ensures IsClean(Get(v, t).value)
  {
    if v.Cache? && t !in v.entries { TidyGet(v.base, t); }
  }

  lemma {:induction false} TidyFetch(v: View, t: Txid)
    requires Tidy(v)
    ensures Tidy(Fetch(v, t))
    ensures v.Cache? ==> Fetch(v, t).Cache? && Fetch(v, t).open == v.open
  {
    if v.Cache? && t !in v.entries {
      TidyFetch(v.base, t);
      if Get(v.base, t).Some? { TidyGet(v.base, t); }
    }
  }

  lemma {:induction false} TidyTouch(v: View, depth: nat, touch: Touch)
    requires Tidy(v)
    ensures Tidy(TouchAt(v, depth, touch))
    ensures v.Cache? ==> TouchAt(v, depth, touch).Cache? && TouchAt(v, depth, touch).open == v.open
    ensures v.Db? ==> TouchAt(v, depth, touch) == v
  {
    if depth > 0 && v.Cache? {
      TidyTouch(v.base, depth - 1, touch);
    } else if touch.Read? {
      TidyFetch(v, touch.t);
    }
  }

  lemma TidyModify(v: View, t: Txid)
    requires Tidy(v) && v.Cache? && v.open.None?
    ensures Tidy(ModifyCoins(v, t))
  {
    TidyFetch(v.base, t);
    if t !in v.entries && Get(v.base, t).Some? { TidyGet(v.base, t); }
  }

  lemma TidyFlush(v: View)
    requires Tidy(v) && v.Cache? && v.open.None? && Flush(v).Ok?
    ensures Tidy(Flush(v).value)
  {
    var w := Flush(v).value.base;
    if v.base.Cache? {
      forall t | t in w.entries ensures IsClean(w.entries[t].coins) {
        if t in v.base.entries { assert IsClean(v.base.entries[t].coins); }
      }
    }
  }

  lemma StepKeepsTidy(v: View, op: Op)
    requires Inv(v) && Tidy(v) && Legal(Abs(v), op) && Step(v, op).Ok?
    ensures Tidy(Step(v, op).value)
  {
    match op
    case NewChild =>
    case Discard =>
    case At(depth, touch) => TidyTouch(v, depth, touch);
    case Modify(t) => TidyModify(v, t);
    case ModifyNew(t, coinbase) =>
    case Write(c) =>
    case Close => CleanupKeepsOutputs(v.entries[v.open.value].coins);
    case FlushTop => TidyFlush(v);
  }

  lemma {:induction false} RunKeepsTidy(v: View, ops: seq<Op>)
    requires Inv(v) && Tidy(v) && LegalRun(Abs(v), ops)
    ensures Run(v, ops).Ok? && Tidy(Run(v, ops).value)
    decreases |ops|
  {
    if ops != [] {
      StepRefines(v, ops[0]);
      StepKeepsTidy(v, ops[0]);
      RunKeepsTidy(Step(v, ops[0]).value, ops[1..]);
    }
  }

  lemma CleanEmptyIffPruned(c: Coins)
    requires IsClean(c)
    ensures c.vout == [] <==> IsPruned(c)
  {
    if c.vout != [] { assert !c.vout[|c.vout| - 1].IsNull(); }
  }

  /** The vout.empty() shortcut in HaveCoins is exact for every txid not being modified, after every legal run. */
  lemma HaveCoinsExact(db: map<Txid, Coins>, ops: seq<Op>, t: Txid)
    requires Tidy(Db(db)) && LegalRun(Abs(Db(db)), ops)
    ensures Run(Db(db), ops).Ok?
    ensures var v := Run(Db(db), ops).value;
            (v.Cache? ==> v.open != Some(t)) ==>
            (HaveCoins(v, t) <==> t in PlainRun(Abs(Db(db)), ops).coins)
  {
    RunKeepsTidy(Db(db), ops);
    RunRefines(Db(db), ops);
    var v := Run(Db(db), ops).value;
    AbsCoins(v);
    VisibleAt(v, t);
    if (v.Cache? ==> v.open != Some(t)) && Get(v, t).Some? {
      TidyGet(v, t);
      CleanEmptyIffPruned(Get(v, t).value);
    }
  }
}
