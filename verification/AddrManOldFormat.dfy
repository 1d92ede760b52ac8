/**
  Reading peers.dat of another format or bucket count: the stored positions are not used, and every
  "new" entry is given the cell that its own source selects, first come, first served.
 */
module AddrManOldFormat {
  import opened AddrManModel
  import opened AddrManStream

  /** The cell that a stored entry's own source selects. */
  function HomeOf(net: Net, r: Rec): Cell {
    NewCell(net, r.service, NewBucket(net, r.service, r.source))
  }

  predicate Records(items: Stream, count: nat) {
    count <= |items| && forall i :: 0 <= i < count ==> items[i].Entry?
  }

  /** None of the first k entries, and nothing before them, has the cell of the k-th. */
  ghost predicate First(net: Net, s: State, items: Stream, k: nat)
    requires Records(items, k + 1)
  {
    && HomeOf(net, items[k].rec) !in s.vvNew
    && forall j :: 0 <= j < k ==> HomeOf(net, items[j].rec) != HomeOf(net, items[k].rec)
  }

  /** The k-th entry that was read: as stored, with a reference in its cell exactly if it was the first there. */
  ghost predicate Rebuilt(net: Net, s: State, t: State, n: nat, items: Stream, k: nat)
    requires Records(items, k + 1)
  {
    var r, c := items[k].rec, HomeOf(net, items[k].rec);
    && n + k in t.mapInfo && c in t.vvNew
    && (t.vvNew[c] == n + k <==> First(net, s, items, k))
    && t.mapInfo[n + k] == Restore(r, |s.vRandom| + k).(nRefCount := if First(net, s, items, k) then 1 else 0)
  }

  lemma PutFirst(net: Net, s: State, n: nat, r: Rec)
    ensures var u, c := PutNew(net, s, n, r, true), HomeOf(net, r);
      && n in u.mapInfo && |u.vRandom| == |s.vRandom| + 1 && c in u.vvNew
      && u.mapInfo[n] == Restore(r, |s.vRandom|).(nRefCount := if c !in s.vvNew then 1 else 0)
      && (c !in s.vvNew ==> u.vvNew[c] == n)
      && (forall d :: d in u.vvNew <==> d in s.vvNew || d == c)
      && (forall d :: d in s.vvNew ==> u.vvNew[d] == s.vvNew[d])
      && (forall m :: m in s.mapInfo && m != n ==> m in u.mapInfo && u.mapInfo[m] == s.mapInfo[m])
  {
  }

  lemma FirstAfter(net: Net, s: State, u: State, items: Stream, k: nat)
    requires Records(items, k + 2)
    requires forall d :: d in u.vvNew <==> d in s.vvNew || d == HomeOf(net, items[0].rec)
    ensures Records(items[1..], k + 1)
    ensures First(net, u, items[1..], k) <==> First(net, s, items, k + 1)
  {
    hide HomeOf;
    var rest := items[1..];
    forall i | 0 <= i <= k ensures rest[i] == items[i + 1] {}
    if First(net, u, rest, k) {
      forall j | 0 <= j < k + 1 ensures HomeOf(net, items[j].rec) != HomeOf(net, items[k + 1].rec) {
        if j > 0 { assert rest[j - 1] == items[j]; }
      }
    }
    if First(net, s, items, k + 1) {
      forall j | 0 <= j < k ensures HomeOf(net, rest[j].rec) != HomeOf(net, rest[k].rec) {
        assert rest[j] == items[j + 1];
      }
    }
  }

  lemma RebuiltLater(net: Net, s: State, u: State, t: State, n: nat, items: Stream, k: nat)
    requires k > 0 && Records(items, k + 1) && Records(items[1..], k) && |u.vRandom| == |s.vRandom| + 1
    requires forall d :: d in u.vvNew <==> d in s.vvNew || d == HomeOf(net, items[0].rec)
    requires Rebuilt(net, u, t, n + 1, items[1..], k - 1)
    ensures Rebuilt(net, s, t, n, items, k)
  {
    hide HomeOf, Restore, First;
    FirstAfter(net, s, u, items, k - 1);
    assert items[1..][k - 1] == items[k];
  }

  lemma RebuiltNow(net: Net, s: State, u: State, t: State, n: nat, items: Stream)
    requires Records(items, 1) && n in u.mapInfo && n in t.mapInfo && t.mapInfo[n] == u.mapInfo[n]
    requires forall d :: d in s.vvNew ==> s.vvNew[d] < n
    requires forall d :: d in u.vvNew ==> d in t.vvNew && t.vvNew[d] == u.vvNew[d]
    requires var r, c := items[0].rec, HomeOf(net, items[0].rec);
      && u.mapInfo[n] == Restore(r, |s.vRandom|).(nRefCount := if c !in s.vvNew then 1 else 0)
      && c in u.vvNew && u.vvNew[c] == if c !in s.vvNew then n else s.vvNew[c]
    ensures Rebuilt(net, s, t, n, items, 0)
  {
    hide HomeOf, Restore;
  }

  /**
    After the "new" entries of such a stream: what was there before is unchanged, and of the entries for
    one cell exactly the first has a reference.  The others have none and fall to the pruning loop.
   */
  lemma {:induction false} OldFormatRebuilds(net: Net, s: State, n: nat, count: nat, items: Stream)
    requires n <= count && LoadNew(net, s, n, count, true, items).Got?
    requires forall d :: d in s.vvNew ==> s.vvNew[d] < n
    ensures Records(items, count - n)
    ensures var t := LoadNew(net, s, n, count, true, items).value;
      && (forall d :: d in s.vvNew ==> d in t.vvNew && t.vvNew[d] == s.vvNew[d])
      && (forall m :: m in s.mapInfo && m < n ==> m in t.mapInfo && t.mapInfo[m] == s.mapInfo[m])
      && (forall k :: 0 <= k < count - n ==> Rebuilt(net, s, t, n, items, k))
    decreases count - n
  {
    hide HomeOf, Restore, PutNew, Rebuilt, NewCell, NewBucket;
    if n < count {
      var r, rest := items[0].rec, items[1..];
      var u := PutNew(net, s, n, r, true);
      PutFirst(net, s, n, r);
      OldFormatRebuilds(net, u, n + 1, count, rest);
      forall i | 0 <= i < count - n ensures items[i].Entry? { if i > 0 { assert rest[i - 1] == items[i]; } }
      var t := LoadNew(net, s, n, count, true, items).value;
      forall k | 0 <= k < count - n ensures Rebuilt(net, s, t, n, items, k) {
        if k > 0 { RebuiltLater(net, s, u, t, n, items, k); } else { RebuiltNow(net, s, u, t, n, items); }
      }
    }
  }
}
