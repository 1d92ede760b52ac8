/**
  CCoinsViewCache as it is written: objects that share a database, each with a mutable
  map of entries, linked through `base`.  Every method is proved to take the whole stack,
  seen as a `View`, to the view that the function of the same name in CoinsModel gives.
 */
module CoinsCache {
  import opened Common
  import opened CoinsModel

  /** CCoinsViewDB: the record of every txid with unspent outputs. */
  class CoinsViewDB {
    var coins: map<Txid, Coins>

    constructor ()
      ensures coins == map[]
    {
      coins := map[];
    }

    method BatchWrite(mapCoins: CacheMap)
      modifies this
      ensures Ok(Db(coins)) == CoinsModel.BatchWrite(Db(old(coins)), mapCoins)
    {
      var todo := mapCoins.Keys;
      ghost var done: CacheMap := map[];
      assert coins == MergedDb(coins, done);
      while todo != {}
        invariant done.Keys == mapCoins.Keys - todo && todo <= mapCoins.Keys
        invariant forall t :: t in done ==> done[t] == mapCoins[t]
        invariant coins == MergedDb(old(coins), done)
        decreases todo
      {
        var t :| t in todo;
        var e := mapCoins[t];
        ghost var before := coins;
        if e.isDirty {
          if IsPruned(e.coins) {
            coins := coins - {t};
          } else {
            coins := coins[t := e.coins];
          }
        }
        MergeOneDb(old(coins), done, before, t, e);
        assert coins == Put(before, t, MergeDb(if t in before then Some(before[t]) else None, e));
        done := done[t := e];
        todo := todo - {t};
      }
      assert done == mapCoins;
    }
  }

  lemma MergeOneDb(coins: map<Txid, Coins>, done: CacheMap, before: map<Txid, Coins>, t: Txid, e: Entry)
    requires before == MergedDb(coins, done) && t !in done
    ensures MergedDb(coins, done[t := e]) ==
            Put(before, t, MergeDb(if t in before then Some(before[t]) else None, e))
  {
    var r := Put(before, t, MergeDb(if t in before then Some(before[t]) else None, e));
    var m := MergedDb(coins, done[t := e]);
    assert forall k :: k in m <==> k in r;
    assert forall k :: k in m ==> m[k] == r[k];
  }

  lemma MergeOne(entries: CacheMap, done: CacheMap, before: CacheMap, t: Txid, e: Entry)
    requires before == MergedMap(entries, done) && t !in done
    ensures EntryAt(before, t) == EntryAt(entries, t)
    ensures MergedMap(entries, done[t := e]) == Put(before, t, Merge(EntryAt(before, t), e))
  {
    var r := Put(before, t, Merge(EntryAt(before, t), e));
    var m := MergedMap(entries, done[t := e]);
    assert EntryAt(before, t) == EntryAt(entries, t);
    assert forall k :: k in m <==> k in r;
    assert forall k :: k in m ==> m[k] == r[k];
  }

  class CoinsViewCache {
    const db: CoinsViewDB
    /** The cache underneath, or null when this cache sits directly on the database. */
    const base: CoinsViewCache?
    ghost const depth: nat
    ghost const Repr: set<object>

    var cacheCoins: CacheMap
    /** The txid under the active CCoinsModifier; hasModifier is modifier.Some?. */
    var modifier: Option<Txid>

    ghost predicate Valid()
      decreases depth
    {
      && this in Repr && db in Repr
      && (base == null ==> Repr == {this, db})
      && (base != null ==>
            && base.depth < depth && base.db == db
            && Repr == {this} + base.Repr && this !in base.Repr
            && base.Valid())
    }

    /** The stack from here down, as a value. */
    ghost function V(): View
      requires Valid()
      reads Repr
      decreases depth
    {
      Cache(BaseView(), cacheCoins, modifier)
    }

    ghost function BaseView(): View
      requires Valid()
      reads Repr - {this}
      decreases depth, 0
    {
      if base == null then Db(db.coins) else base.V()
    }

    constructor OnDatabase(db: CoinsViewDB)
      ensures Valid() && this.db == db && base == null && fresh(Repr - {db})
      ensures V() == Cache(Db(db.coins), map[], None)
    {
      this.db := db;
      base := null;
      depth := 0;
      Repr := {this, db};
      cacheCoins := map[];
      modifier := None;
    }

    constructor OnCache(base: CoinsViewCache)
      requires base.Valid()
      ensures Valid() && this.base == base && db == base.db && fresh(Repr - base.Repr)
      ensures V() == Cache(base.V(), map[], None)
    {
      db := base.db;
      this.base := base;
      depth := base.depth + 1;
      Repr := {this} + base.Repr;
      cacheCoins := map[];
      modifier := None;
    }

    method BaseGetCoins(t: Txid) returns (r: Option<Coins>)
      requires Valid()
      modifies Repr - {this}
      ensures BaseView() == Fetch(old(BaseView()), t)
      ensures r == Get(old(BaseView()), t)
      decreases depth, 0
    {
      if base == null {
        r := if t in db.coins then Some(db.coins[t]) else None;
      } else {
        r := base.GetCoins(t);
      }
    }

    method FetchCoins(t: Txid) returns (found: bool)
      requires Valid()
      modifies Repr
      ensures V() == Fetch(old(V()), t)
      ensures found <==> t in cacheCoins
      ensures found <==> Get(old(V()), t).Some?
      ensures found ==> cacheCoins[t].coins == Get(old(V()), t).value
      decreases depth, 1
    {
      if t in cacheCoins {
        return true;
      }
      var tmp := BaseGetCoins(t);
      if tmp.None? {
        return false;
      }
      cacheCoins := cacheCoins[t := Entry(tmp.value, false, false)];
      if IsPruned(tmp.value) {
        cacheCoins := cacheCoins[t := cacheCoins[t].(isFresh := true)];
      }
      return true;
    }

    method GetCoins(t: Txid) returns (r: Option<Coins>)
      requires Valid()
      modifies Repr
      ensures V() == Fetch(old(V()), t)
      ensures r == Get(old(V()), t)
      decreases depth, 2
    {
      var found := FetchCoins(t);
      r := if found then Some(cacheCoins[t].coins) else None;
    }

    method HaveCoins(t: Txid) returns (have: bool)
      requires Valid()
      modifies Repr
      ensures V() == Fetch(old(V()), t)
      ensures have <==> Get(old(V()), t).Some? && Get(old(V()), t).value.vout != []
    {
      var found := FetchCoins(t);
      have := found && cacheCoins[t].coins.vout != [];
    }

    method ModifyCoins(t: Txid)
      requires Valid() && modifier.None?
      modifies Repr
      ensures V() == CoinsModel.ModifyCoins(old(V()), t)
    {
      if t !in cacheCoins {
        var tmp := BaseGetCoins(t);
        if tmp.None? {
          cacheCoins := cacheCoins[t := Entry(EMPTY, false, true)];
        } else if IsPruned(tmp.value) {
          cacheCoins := cacheCoins[t := Entry(tmp.value, false, true)];
        } else {
          cacheCoins := cacheCoins[t := Entry(tmp.value, false, false)];
        }
      }
      cacheCoins := cacheCoins[t := cacheCoins[t].(isDirty := true)];
      modifier := Some(t);
    }

    method ModifyNewCoins(t: Txid, coinbase: bool) returns (thrown: Option<Error>)
      requires Valid() && modifier.None?
      modifies this
      ensures match CoinsModel.ModifyNewCoins(old(V()), t, coinbase)
              case Throw(x) => thrown == Some(x) && V() == old(V())
              case Ok(w) => thrown == None && V() == w
    {
      ghost var before := V();
      if t !in cacheCoins {
        cacheCoins := cacheCoins[t := Entry(EMPTY, false, false)];
      }
      if !coinbase {
        if !IsPruned(cacheCoins[t].coins) {
          return Some(PreExistingCoins);
        }
        if !cacheCoins[t].isDirty {
          cacheCoins := cacheCoins[t := cacheCoins[t].(isFresh := true)];
        }
      }
      cacheCoins := cacheCoins[t := cacheCoins[t].(coins := EMPTY, isDirty := true)];
      modifier := Some(t);
      assert V().entries == CoinsModel.ModifyNewCoins(before, t, coinbase).value.entries;
      return None;
    }

    /** `*modifier = c`. */
    method Assign(c: Coins)
      requires Valid() && modifier.Some? && modifier.value in cacheCoins
      modifies this
      ensures V() == CoinsModel.Assign(old(V()), c)
    {
      var t := modifier.value;
      cacheCoins := cacheCoins[t := cacheCoins[t].(coins := c)];
    }

    /** The destructor of the modifier; the loop is CCoins::Cleanup. */
    method Commit()
      requires Valid() && modifier.Some? && modifier.value in cacheCoins
      modifies this
      ensures V() == CoinsModel.Commit(old(V()))
    {
      var t := modifier.value;
      modifier := None;
      var c := cacheCoins[t].coins;
      var vout := c.vout;
      while |vout| > 0 && vout[|vout| - 1].IsNull()
        invariant Trim(vout) == Trim(c.vout)
      {
        vout := vout[..|vout| - 1];
      }
      cacheCoins := cacheCoins[t := cacheCoins[t].(coins := c.(vout := vout))];
      if cacheCoins[t].isFresh && IsPruned(cacheCoins[t].coins) {
        cacheCoins := cacheCoins - {t};
      }
      assert cacheCoins == CoinsModel.Commit(old(V())).entries;
    }

    method Uncache(t: Txid)
      requires Valid()
      modifies this
      ensures V() == CoinsModel.Uncache(old(V()), t)
    {
      if t in cacheCoins && !cacheCoins[t].isDirty && !cacheCoins[t].isFresh {
        cacheCoins := cacheCoins - {t};
      }
    }

    /** One round of the BatchWrite loop. */
    method WriteEntry(t: Txid, e: Entry) returns (thrown: Option<Error>)
      modifies this`cacheCoins
      ensures thrown == if Misapplied(EntryAt(old(cacheCoins), t), e) then Some(FreshMisapplied) else None
      ensures thrown == None ==> cacheCoins == Put(old(cacheCoins), t, Merge(EntryAt(old(cacheCoins), t), e))
    {
      if e.isDirty {
        if t !in cacheCoins {
          if !(e.isFresh && IsPruned(e.coins)) {
            cacheCoins := cacheCoins[t := Entry(e.coins, true, e.isFresh)];
          }
        } else {
          if e.isFresh && !IsPruned(cacheCoins[t].coins) {
            return Some(FreshMisapplied);
          }
          if cacheCoins[t].isFresh && IsPruned(e.coins) {
            cacheCoins := cacheCoins - {t};
          } else {
            cacheCoins := cacheCoins[t := Entry(e.coins, true, cacheCoins[t].isFresh)];
          }
        }
      }
      return None;
    }

    method BatchWrite(mapCoins: CacheMap) returns (thrown: Option<Error>)
      requires Valid() && modifier.None?
      modifies this`cacheCoins
      ensures match CoinsModel.BatchWrite(old(V()), mapCoins)
              case Throw(x) => thrown == Some(x)
              case Ok(w) => thrown == None && V() == w
    {
      var todo := mapCoins.Keys;
      ghost var done: CacheMap := map[];
      assert cacheCoins == MergedMap(cacheCoins, done);
      while todo != {}
        invariant done.Keys == mapCoins.Keys - todo && todo <= mapCoins.Keys
        invariant forall t :: t in done ==> done[t] == mapCoins[t]
        invariant cacheCoins == MergedMap(old(cacheCoins), done)
        invariant forall t :: t in done ==> !Misapplied(EntryAt(old(cacheCoins), t), done[t])
        decreases todo
      {
        var t :| t in todo;
        var e := mapCoins[t];
        MergeOne(old(cacheCoins), done, cacheCoins, t, e);
        thrown := WriteEntry(t, e);
        if thrown.Some? {
          return;
        }
        done := done[t := e];
        todo := todo - {t};
      }
      assert done == mapCoins;
      return None;
    }

    method Flush() returns (thrown: Option<Error>)
      requires Valid() && modifier.None?
      requires base != null ==> base.modifier.None?
      modifies Repr
      ensures match CoinsModel.Flush(old(V()))
              case Throw(x) => thrown == Some(x)
              case Ok(w) => thrown == None && V() == w
    {
      thrown := None;
      ghost var merged := CoinsModel.BatchWrite(V().base, cacheCoins);
      if base == null {
        assert BaseView() == Db(db.coins);
        db.BatchWrite(cacheCoins);
        assert merged == Ok(Db(db.coins));
      } else {
        assert BaseView() == base.V();
        thrown := base.BatchWrite(cacheCoins);
        assert merged.Ok? ==> thrown == None && base.V() == merged.value;
      }
      cacheCoins := map[];
    }
  }
}
