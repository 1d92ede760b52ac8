/**
  Safety of the check queue over all interleavings: the counters are exact, Wait tells the
  truth about every check added since the last Wait, and no wake-up of the master is lost.
 */
module CheckQueueSafety {
  import opened CheckQueue

  // ------------------------------------------------------------------- totals

  lemma Assoc(a: Load, b: Load, c: Load)
    ensures Plus(Plus(a, b), c) == Plus(a, Plus(b, c))
  {
  }

  lemma {:induction false} SumUpdate(ts: seq<Thread>, k: nat, t: Thread)
    requires k < |ts|
    ensures Plus(Sum(ts[k := t]), LoadOf(ts[k])) == Plus(Sum(ts), LoadOf(t))
    decreases |ts|
  {
    hide LoadOf;
    if k == 0 {
      assert ts[k := t][1..] == ts[1..];
    } else {
      assert ts[k := t][1..] == ts[1..][k - 1 := t];
      SumUpdate(ts[1..], k - 1, t);
      Assoc(LoadOf(ts[0]), Sum(ts[1..][k - 1 := t]), LoadOf(ts[k]));
      Assoc(LoadOf(ts[0]), Sum(ts[1..]), LoadOf(t));
    }
  }

  lemma {:induction false} SumSame(ts: seq<Thread>, us: seq<Thread>)
    requires |ts| == |us| && forall k :: 0 <= k < |ts| ==> LoadOf(ts[k]) == LoadOf(us[k])
    ensures Sum(ts) == Sum(us)
    decreases |ts|
  {
    if ts != [] { SumSame(ts[1..], us[1..]); }
  }

  lemma {:induction false} SumAppend(ts: seq<Thread>, t: Thread)
    ensures Sum(ts + [t]) == Plus(Sum(ts), LoadOf(t))
    decreases |ts|
  {
    if ts == [] {
      assert [t][1..] == [];
    } else {
      assert (ts + [t])[1..] == ts[1..] + [t];
      SumAppend(ts[1..], t);
    }
  }

  lemma LoadBounds(t: Thread)
    ensures LoadOf(t).inFlight >= 0 && LoadOf(t).active >= 0 && LoadOf(t).idle >= 0
  {
  }

  lemma {:induction false} SumBounds(ts: seq<Thread>)
    ensures var l := Sum(ts); l.inFlight >= 0 && l.active >= 0 && l.idle >= 0
    ensures Sum(ts).inFlight == 0 ==>
              forall k :: 0 <= k < |ts| ==> LoadOf(ts[k]).inFlight == 0
    ensures Sum(ts).inFlight > 0 ==> exists k :: 0 <= k < |ts| && LoadOf(ts[k]).inFlight > 0
    decreases |ts|
  {
    hide LoadOf;
    if ts != [] {
      SumBounds(ts[1..]);
      LoadBounds(ts[0]);
      var rest := ts[1..];
      if Sum(rest).inFlight > 0 {
        var k :| 0 <= k < |rest| && LoadOf(rest[k]).inFlight > 0;
        assert LoadOf(ts[k + 1]).inFlight > 0;
      }
      forall k | 0 <= k < |ts| && Sum(ts).inFlight == 0 ensures LoadOf(ts[k]).inFlight == 0 {
        if k > 0 { assert ts[k] == rest[k - 1]; }
      }
    }
  }

  lemma TotalUpdate(s: State, w: Who, t: Thread)
    requires Exists(s, w)
    ensures Plus(Total(SetThread(s, w, t)), LoadOf(ThreadOf(s, w))) == Plus(Total(s), LoadOf(t))
  {
    hide LoadOf, Sum;
    if w.Worker? {
      SumUpdate(s.workers, w.k, t);
      Assoc(LoadOf(s.master), Sum(s.workers[w.k := t]), LoadOf(s.workers[w.k]));
      Assoc(LoadOf(s.master), Sum(s.workers), LoadOf(t));
    }
  }

  lemma TotalBounds(s: State)
    ensures Total(s).active >= 0 && Total(s).idle >= 0 && Total(s).inFlight >= 0
  {
    SumBounds(s.workers);
  }

  // ------------------------------------------------------------------- verdicts

  /** Failure seen anywhere but in thread w. */
  ghost predicate OthersFailing(s: State, w: Who) {
    || !s.fAllOk
    || (w != Master && Failing(s.master))
    || exists k :: 0 <= k < |s.workers| && w != Worker(k) && Failing(s.workers[k])
  }

  lemma FailingSplit(s: State, w: Who)
    requires Exists(s, w)
    ensures SomeFailing(s) <==> OthersFailing(s, w) || Failing(ThreadOf(s, w))
  {
  }

  lemma OthersUnmoved(s: State, w: Who, t: Thread)
    requires Exists(s, w)
    ensures OthersFailing(SetThread(s, w, t), w) <==> OthersFailing(s, w)
  {
    var u := SetThread(s, w, t);
    forall k | 0 <= k < |s.workers| && w != Worker(k) ensures u.workers[k] == s.workers[k] {}
  }

  lemma FailingMove(s: State, w: Who, t: Thread)
    requires Exists(s, w)
    ensures SomeFailing(SetThread(s, w, t)) <==> OthersFailing(s, w) || Failing(t)
  {
    FailingSplit(SetThread(s, w, t), w);
    OthersUnmoved(s, w, t);
  }

  lemma ThreadsSet(s: State, w: Who, t: Thread)
    requires Exists(s, w) && Threads(s) && ThreadOk(t)
    ensures Threads(SetThread(s, w, t))
  {
  }

  // ------------------------------------------------------------- single steps

  lemma Rebalance(p: multiset<Check>, p': multiset<Check>, q: multiset<Check>, q': multiset<Check>,
                  a: multiset<Check>, b: multiset<Check>, took: multiset<Check>, passed: multiset<Check>)
    requires p' + a == p + b && q + a == q' + b + took
    ensures q + p + passed == q' + p' + (passed + took)
  {
    forall c ensures (q + p + passed)[c] == (q' + p' + (passed + took))[c] {
      assert (p' + a)[c] == (p + b)[c] && (q + a)[c] == (q' + b + took)[c];
    }
  }

  /** Thread w goes from a to b; queue, history and counters change by what that moves. */
  lemma MoveAccounts(s: State, t: State, w: Who, b: Thread, took: multiset<Check>)
    requires Accounts(s) && Exists(s, w)
    requires t.master == SetThread(s, w, b).master && t.workers == SetThread(s, w, b).workers
    requires t.added == s.added && t.passed == s.passed + took
    requires var a := ThreadOf(s, w);
             && multiset(s.queue) + LoadOf(a).pending == multiset(t.queue) + LoadOf(b).pending + took
             && t.nTodo - |t.queue| - LoadOf(b).inFlight == s.nTodo - |s.queue| - LoadOf(a).inFlight
             && t.nTotal - LoadOf(b).active == s.nTotal - LoadOf(a).active
             && t.nIdle - LoadOf(b).idle == s.nIdle - LoadOf(a).idle
    ensures Accounts(t)
  {
    hide LoadOf, Sum;
    var a := ThreadOf(s, w);
    TotalUpdate(s, w, b);
    assert Total(t) == Total(SetThread(s, w, b));
    Rebalance(Total(s).pending, Total(t).pending, multiset(s.queue), multiset(t.queue),
              LoadOf(a).pending, LoadOf(b).pending, took, s.passed);
  }

  lemma LoadAdvances(b: Thread, ok: bool, q: multiset<Check>)
    requires b.Busy? && b.next < |b.batch|
    ensures var l, l' := LoadOf(b), LoadOf(b.(next := b.next + 1, fOk := ok));
            && l'.inFlight == l.inFlight && l'.active == l.active && l'.idle == l.idle
            && q + l.pending == q + l'.pending + multiset{b.batch[b.next]}
  {
    var c, rest := b.batch[b.next], b.batch[b.next + 1..];
    assert b.batch[b.next..] == [c] + rest;
    assert multiset([c] + rest) == multiset{c} + multiset(rest);
  }

  lemma LoadFinished(b: Thread, q: multiset<Check>)
    requires b.Busy? && b.next == |b.batch| >= 1
    ensures LoadOf(Enter(|b.batch|, b.fOk)) == LoadOf(b)
    ensures q + LoadOf(b).pending == q + LoadOf(b).pending + multiset{}
  {
    assert b.batch[b.next..] == [];
  }

  lemma ExecuteAccounts(f: Verdict, s: State, t: State, w: Who)
    requires Threads(s) && Accounts(s) && ExecuteStep(f, s, t, w)
    ensures Accounts(t)
  {
    hide Accounts, Threads, LoadOf;
    var b := ThreadOf(s, w);
    ThreadsAt(s, w);
    if b.next < |b.batch| {
      var ok := if b.fOk then f(b.batch[b.next]) else b.fOk;
      LoadAdvances(b, ok, multiset(s.queue));
      MoveAccounts(s, t, w, b.(next := b.next + 1, fOk := ok), multiset{b.batch[b.next]});
    } else {
      LoadFinished(b, multiset(s.queue));
      assert s.passed == s.passed + multiset{};
      MoveAccounts(s, t, w, Enter(|b.batch|, b.fOk), multiset{});
    }
  }

  lemma ExecuteThreads(f: Verdict, s: State, t: State, w: Who)
    requires Threads(s) && ExecuteStep(f, s, t, w)
    ensures Threads(t)
  {
    ThreadsAt(s, w);
    ThreadsSet(s, w, ThreadOf(t, w));
  }

  /** Executing a check records its verdict; checks are passed over only after a failure. */
  lemma ExecuteVerdicts(f: Verdict, s: State, t: State, w: Who)
    requires Verdicts(f, s) && ExecuteStep(f, s, t, w)
    ensures Verdicts(f, t)
  {
    hide SomeFailing, OthersFailing, Failed;
    var b := ThreadOf(s, w);
    FailingSplit(s, w);
    FailingMove(s, w, ThreadOf(t, w));
    HistoryOnly(s, t, w, ThreadOf(t, w));
    if b.next < |b.batch| && b.fOk {
      var c := b.batch[b.next];
      RanOneMore(f, s.ran, c);
    }
  }

  lemma RanOneMore(f: Verdict, ran: multiset<Check>, c: Check)
    ensures Failed(f, ran + multiset{c}) <==> Failed(f, ran) || !f(c)
  {
    assert c in ran + multiset{c};
  }

  lemma ExecuteKeeps(f: Verdict, s: State, t: State, w: Who)
    requires Inv(f, s) && ExecuteStep(f, s, t, w)
    ensures Inv(f, t)
  {
    hide Threads, Accounts, Verdicts;
    ExecuteThreads(f, s, t, w);
    ExecuteAccounts(f, s, t, w);
    ExecuteVerdicts(f, s, t, w);
  }

  lemma ThreadsAt(s: State, w: Who)
    requires Threads(s) && Exists(s, w)
    ensures ThreadOk(ThreadOf(s, w))
  {
  }

  /** Totals and failure flags do not look at the history. */
  lemma HistoryOnly(s: State, t: State, w: Who, b: Thread)
    requires Exists(s, w) && t == SetThread(s.(passed := t.passed, ran := t.ran), w, b)
    ensures var u := SetThread(s, w, b);
            Total(t) == Total(u) && (SomeFailing(t) <==> SomeFailing(u)) && (Threads(u) ==> Threads(t))
  {
    var u := SetThread(s, w, b);
    assert t.workers == u.workers && t.master == u.master;
  }

  // ------------------------------------------------- taking the lock: report

  lemma SameLoads(s: State, t: State)
    requires t.workers == s.workers && LoadOf(t.master) == LoadOf(s.master)
    ensures Total(t) == Total(s)
  {
  }

  /** Waking the master moves no work and hides no failure. */
  lemma WakeMaster(f: Verdict, s: State)
    requires s.master == Blocked && Threads(s) && Accounts(s) && Verdicts(f, s)
    ensures var t := s.(master := Woken); Threads(t) && Accounts(t) && Verdicts(f, t)
  {
    hide Total;
    var t := s.(master := Woken);
    SameLoads(s, t);
  }

  lemma ReportAccounts(s: State, w: Who)
    requires Exists(s, w) && Threads(s) && Accounts(s) && ThreadOf(s, w).Enter?
    ensures var a := ThreadOf(s, w);
            var r := if a.nNow == 0 then s.(nTotal := s.nTotal + 1)
                     else s.(fAllOk := s.fAllOk && a.fOk, nTodo := s.nTodo - a.nNow);
            Threads(SetThread(r, w, Holding)) && Accounts(SetThread(r, w, Holding))
  {
    hide Accounts;
    var a := ThreadOf(s, w);
    var r := if a.nNow == 0 then s.(nTotal := s.nTotal + 1)
             else s.(fAllOk := s.fAllOk && a.fOk, nTodo := s.nTodo - a.nNow);
    assert s.passed == s.passed + multiset{};
    assert multiset(s.queue) + multiset{} == multiset(s.queue) + multiset{} + multiset{};
    MoveAccounts(s, SetThread(r, w, Holding), w, Holding, multiset{});
  }

  lemma ReportVerdicts(f: Verdict, s: State, w: Who)
    requires Exists(s, w) && Threads(s) && Verdicts(f, s) && ThreadOf(s, w).Enter?
    ensures var a := ThreadOf(s, w);
            var r := if a.nNow == 0 then s.(nTotal := s.nTotal + 1)
                     else s.(fAllOk := s.fAllOk && a.fOk, nTodo := s.nTodo - a.nNow);
            Verdicts(f, SetThread(r, w, Holding))
  {
    hide SomeFailing, Threads, Failed;
    var a := ThreadOf(s, w);
    var r := if a.nNow == 0 then s.(nTotal := s.nTotal + 1)
             else s.(fAllOk := s.fAllOk && a.fOk, nTodo := s.nTodo - a.nNow);
    ThreadsAt(s, w);
    FailingSplit(s, w);
    FailingMove(r, w, Holding);
    assert OthersFailing(r, w) <==> OthersFailing(s, w) || !a.fOk;
  }

  /** Everything but the loop head: the thread holds the lock and has reported. */
  ghost predicate Locked(f: Verdict, s: State, w: Who) {
    && !s.fQuit && Exists(s, w) && ThreadOf(s, w) == Holding
    && Threads(s) && Accounts(s) && Verdicts(f, s) && MasterWaits(s)
  }

  lemma TodoNonNegative(s: State)
    requires Accounts(s)
    ensures s.nTodo >= |s.queue| && s.nTotal >= 0 && s.nIdle >= 0
  {
    TotalBounds(s);
  }

  lemma ReportKeeps(f: Verdict, s: State, w: Who)
    requires Inv(f, s) && Exists(s, w) && ThreadOf(s, w).Enter?
    ensures Locked(f, SetThread(Report(s, w, ThreadOf(s, w).nNow, ThreadOf(s, w).fOk), w, Holding), w)
  {
    hide Accounts, Threads, Verdicts;
    var a := ThreadOf(s, w);
    ReportAccounts(s, w);
    ReportVerdicts(f, s, w);
    var r := if a.nNow == 0 then s.(nTotal := s.nTotal + 1)
             else s.(fAllOk := s.fAllOk && a.fOk, nTodo := s.nTodo - a.nNow);
    var u := SetThread(r, w, Holding);
    TodoNonNegative(u);
    if a.nNow > 0 && r.nTodo == 0 && w != Master && r.master == Blocked {
      WakeMaster(f, u);
      assert SetThread(Report(s, w, a.nNow, a.fOk), w, Holding) == u.(master := Woken);
    } else {
      assert SetThread(Report(s, w, a.nNow, a.fOk), w, Holding) == u;
    }
  }

  lemma WokenKeeps(f: Verdict, s: State, w: Who)
    requires Inv(f, s) && Exists(s, w) && ThreadOf(s, w).Woken?
    ensures Locked(f, SetThread(s.(nIdle := s.nIdle - 1), w, Holding), w)
  {
    hide Accounts, SomeFailing, Failed;
    var r := s.(nIdle := s.nIdle - 1);
    assert s.passed == s.passed + multiset{};
    assert multiset(s.queue) + multiset{} == multiset(s.queue) + multiset{} + multiset{};
    MoveAccounts(s, SetThread(r, w, Holding), w, Holding, multiset{});
    FailingSplit(s, w);
    FailingMove(r, w, Holding);
    assert OthersFailing(r, w) <==> OthersFailing(s, w);
  }

  // --------------------------------------------------------- the loop head

  /** There is always enough in the queue for the batch size computed (pop_back never underflows). */
  lemma BatchFits(s: State)
    requires s.queue != [] && s.nTotal + s.nIdle + 1 > 0
    ensures 1 <= BatchSize(s) <= |s.queue|
  {
    var k := s.nTotal + s.nIdle + 1;
    assert |s.queue| / k <= |s.queue|;
  }

  lemma {:induction false} TakeBackAll(q: seq<Check>, n: nat)
    requires n <= |q|
    ensures |TakeBack(q, n)| == n
    ensures multiset(q[..|q| - n]) + multiset(TakeBack(q, n)) == multiset(q)
  {
    hide TakeBack;
    TakeBackUnfold(q, n);
    if n == 0 {
      assert q[..|q|] == q;
    } else {
      var p, last := q[..|q| - 1], q[|q| - 1];
      TakeBackAll(p, n - 1);
      assert q == p + [last];
      assert q[..|q| - n] == p[..|p| - (n - 1)];
      OneMore(multiset(p[..|p| - (n - 1)]), multiset(TakeBack(p, n - 1)), multiset(p), last);
    }
  }

  lemma OneMore(rest: multiset<Check>, batch: multiset<Check>, all: multiset<Check>, c: Check)
    requires rest + batch == all
    ensures rest + (multiset{c} + batch) == all + multiset{c}
  {
  }

  lemma TakeBackUnfold(q: seq<Check>, n: nat)
    requires n <= |q|
    ensures TakeBack(q, n) == if n == 0 then [] else [q[|q| - 1]] + TakeBack(q[..|q| - 1], n - 1)
  {
  }

  lemma GrabKeeps(f: Verdict, s: State, w: Who)
    requires Locked(f, s, w) && s.queue != [] && s.nTotal + s.nIdle + 1 > 0
    ensures CanHead(s, w) && Inv(f, Head(s, w))
  {
    hide Accounts, SomeFailing, Failed, TakeBack, Threads, BatchSize;
    BatchFits(s);
    var n := BatchSize(s);
    var batch := TakeBack(s.queue, n);
    TakeBackAll(s.queue, n);
    var r := s.(queue := s.queue[..|s.queue| - n]);
    GrabAccounts(s, w, batch, n);
    FailingSplit(s, w);
    FailingMove(r, w, Busy(batch, 0, s.fAllOk));
    assert OthersFailing(r, w) <==> OthersFailing(s, w);
    QueueOnly(s, r);
    ThreadsSet(r, w, Busy(batch, 0, s.fAllOk));
  }

  lemma GrabAccounts(s: State, w: Who, batch: seq<Check>, n: nat)
    requires Accounts(s) && Exists(s, w) && ThreadOf(s, w) == Holding && |batch| == n <= |s.queue|
    requires multiset(s.queue) == multiset(s.queue[..|s.queue| - n]) + multiset(batch)
    ensures Accounts(SetThread(s.(queue := s.queue[..|s.queue| - n]), w, Busy(batch, 0, s.fAllOk)))
  {
    hide Accounts;
    var t := SetThread(s.(queue := s.queue[..|s.queue| - n]), w, Busy(batch, 0, s.fAllOk));
    assert batch[0..] == batch;
    assert s.passed == s.passed + multiset{};
    assert multiset(s.queue) + multiset{} == multiset(t.queue) + multiset(batch) + multiset{};
    MoveAccounts(s, t, w, Busy(batch, 0, s.fAllOk), multiset{});
  }

  lemma QueueOnly(s: State, r: State)
    requires Threads(s) && r.master == s.master && r.workers == s.workers
    ensures Threads(r)
  {
  }

  lemma BlockKeeps(f: Verdict, s: State, w: Who)
    requires Locked(f, s, w) && s.queue == [] && (w == Master ==> s.nTodo > 0)
    ensures var t := SetThread(s.(nIdle := s.nIdle + 1), w, Blocked); Inv(f, t)
  {
    hide Accounts, SomeFailing, Failed;
    var r := s.(nIdle := s.nIdle + 1);
    assert s.passed == s.passed + multiset{};
    assert multiset(s.queue) + multiset{} == multiset(s.queue) + multiset{} + multiset{};
    MoveAccounts(s, SetThread(r, w, Blocked), w, Blocked, multiset{});
    FailingSplit(s, w);
    FailingMove(r, w, Blocked);
    assert OthersFailing(r, w) <==> OthersFailing(s, w);
  }

  // ------------------------------------------------------------ Wait returns

  /** What the value returned by Wait says about the checks added since the last Wait. */
  ghost predicate Truthful(f: Verdict, s: State, result: bool) {
    && (result ==> s.ran == s.added && forall c :: c in s.added ==> f(c))
    && (!result ==> s.ran <= s.added && exists c :: c in s.ran && !f(c))
  }

  lemma NothingLeft(s: State)
    requires Threads(s) && Accounts(s) && s.queue == [] && s.nTodo == 0
    ensures s.added == s.passed
    ensures LoadOf(s.master).inFlight == 0
    ensures forall k :: 0 <= k < |s.workers| ==> LoadOf(s.workers[k]).inFlight == 0
  {
    LoadBounds(s.master);
    SumBounds(s.workers);
    hide LoadOf;
    NoPending(s.workers);
    NoPendingOne(s.master);
    assert multiset(s.queue) == multiset{};
  }

  lemma NoPendingOne(t: Thread)
    requires ThreadOk(t) && LoadOf(t).inFlight == 0
    ensures LoadOf(t).pending == multiset{}
  {
  }

  lemma {:induction false} NoPending(ts: seq<Thread>)
    requires forall k :: 0 <= k < |ts| ==> ThreadOk(ts[k]) && LoadOf(ts[k]).inFlight == 0
    ensures Sum(ts).pending == multiset{}
    decreases |ts|
  {
    hide LoadOf, ThreadOk;
    if ts != [] {
      NoPendingOne(ts[0]);
      NoPending(ts[1..]);
    }
  }

  /** With nothing in flight, a failure can only be recorded in fAllOk. */
  lemma FailureIsRecorded(s: State)
    requires Threads(s)
    requires LoadOf(s.master).inFlight == 0
    requires forall k :: 0 <= k < |s.workers| ==> LoadOf(s.workers[k]).inFlight == 0
    ensures SomeFailing(s) <==> !s.fAllOk
  {
    forall k | 0 <= k < |s.workers| ensures !Failing(s.workers[k]) {
      assert ThreadOk(s.workers[k]) && LoadOf(s.workers[k]).inFlight == 0;
    }
  }

  lemma ReturnKeeps(f: Verdict, s: State)
    requires Locked(f, s, Master) && s.queue == [] && s.nTodo == 0 && s.nTotal + s.nIdle + 1 > 0
    ensures Truthful(f, s, s.fAllOk)
    ensures CanHead(s, Master) && Inv(f, Head(s, Master))
  {
    NothingLeft(s);
    FailureIsRecorded(s);
    hide LoadOf, SomeFailing, Sum;
    var t := Head(s, Master);
    ReturnAccounts(s);
    FailureIsRecordedAfter(s, t);
  }

  lemma ReturnAccounts(s: State)
    requires Threads(s) && Accounts(s) && s.master == Holding && s.queue == [] && s.nTodo == 0
    requires s.nTotal + s.nIdle + 1 > 0 && !s.fQuit
    ensures Threads(Head(s, Master)) && Accounts(Head(s, Master)) && Head(s, Master).queue == []
  {
    NothingLeft(s);
    NoPending(s.workers);
    hide Sum;
  }

  lemma FailureIsRecordedAfter(s: State, t: State)
    requires Threads(s) && t.workers == s.workers && t.master == Out && t.fAllOk
    requires forall k :: 0 <= k < |s.workers| ==> LoadOf(s.workers[k]).inFlight == 0
    ensures !SomeFailing(t)
  {
    FailureIsRecorded(t);
  }

  // ------------------------------------------------------------ other steps

  lemma HeadKeeps(f: Verdict, s: State, w: Who)
    requires Locked(f, s, w)
    ensures CanHead(s, w) && Inv(f, Head(s, w))
    ensures HeadEvent(s, w).Returned? ==> Truthful(f, s, HeadEvent(s, w).result)
  {
    hide Accounts, Threads, Verdicts, Truthful, Locked;
    LockedFacts(f, s, w);
    if s.queue != [] {
      GrabKeeps(f, s, w);
    } else if w == Master && s.nTodo == 0 {
      ReturnKeeps(f, s);
    } else {
      BlockKeeps(f, s, w);
    }
  }

  lemma LockedFacts(f: Verdict, s: State, w: Who)
    requires Locked(f, s, w)
    ensures s.nTodo >= |s.queue| && s.nTotal + s.nIdle + 1 > 0 && !s.fQuit && Exists(s, w)
  {
    TodoNonNegative(s);
  }

  lemma SpuriousKeeps(f: Verdict, s: State, t: State, w: Who)
    requires Inv(f, s) && SpuriousStep(s, t, w)
    ensures Inv(f, t)
  {
    hide Accounts, SomeFailing, Failed;
    assert s.passed == s.passed + multiset{};
    assert multiset(s.queue) + multiset{} == multiset(s.queue) + multiset{} + multiset{};
    MoveAccounts(s, t, w, Woken, multiset{});
    FailingSplit(s, w);
    FailingMove(s, w, Woken);
  }

  lemma NotifiedLoads(s: seq<Thread>, t: seq<Thread>, n: nat)
    requires Notified(s, t, n)
    ensures |t| == |s| && Sum(s) == Sum(t)
    ensures forall k :: 0 <= k < |s| ==> (Failing(t[k]) <==> Failing(s[k])) && (ThreadOk(s[k]) ==> ThreadOk(t[k]))
  {
    SumSame(s, t);
  }

  lemma AddAccounts(s: State, t: State, checks: seq<Check>)
    requires Accounts(s) && AddStep(s, t, checks)
    ensures Accounts(t)
  {
    hide Sum, Notified, LoadOf;
    NotifiedLoads(s.workers, t.workers, |checks|);
    assert multiset(s.queue + checks) == multiset(s.queue) + multiset(checks);
  }

  /** Waking workers neither hides nor invents a failure. */
  lemma NotifiedFlags(s: State, t: State, n: nat)
    requires Notified(s.workers, t.workers, n) && t.master == s.master && t.fAllOk == s.fAllOk
    ensures SomeFailing(t) <==> SomeFailing(s)
    ensures Threads(s) ==> Threads(t)
  {
    hide Failing, ThreadOk, Notified;
    NotifiedLoads(s.workers, t.workers, n);
  }

  lemma AddKeeps(f: Verdict, s: State, t: State, checks: seq<Check>)
    requires Inv(f, s) && AddStep(s, t, checks)
    ensures Inv(f, t)
  {
    hide Accounts, Notified, Threads, SomeFailing, Failed;
    AddAccounts(s, t, checks);
    NotifiedFlags(s, t, |checks|);
  }

  lemma WaitKeeps(f: Verdict, s: State, t: State)
    requires Inv(f, s) && WaitStep(s, t)
    ensures Inv(f, t)
  {
    SameLoads(s, t);
    hide Sum;
  }

  lemma StartWorkerAccounts(s: State, t: State)
    requires Accounts(s) && StartWorkerStep(s, t)
    ensures Accounts(t)
  {
    hide Sum;
    SumAppend(s.workers, Enter(0, true));
  }

  lemma StartWorkerKeeps(f: Verdict, s: State, t: State)
    requires Inv(f, s) && StartWorkerStep(s, t)
    ensures Inv(f, t)
  {
    hide Accounts, Failed;
    StartWorkerAccounts(s, t);
    assert forall k :: 0 <= k < |s.workers| ==> t.workers[k] == s.workers[k];
    assert SomeFailing(t) <==> SomeFailing(s);
  }

  // --------------------------------------------------------------- the theorem

  lemma EnterKeeps(f: Verdict, s: State, t: State, w: Who, e: Event)
    requires Inv(f, s) && EnterStep(s, t, w, e)
    ensures Inv(f, t) && (e.Returned? ==> Truthful(f, s, e.result))
  {
    hide Inv, Locked, Head, HeadEvent, Truthful;
    ReportKeeps(f, s, w);
    HeadKeeps(f, SetThread(Report(s, w, ThreadOf(s, w).nNow, ThreadOf(s, w).fOk), w, Holding), w);
    SameHistory(f, s, w);
  }

  lemma SameHistory(f: Verdict, s: State, w: Who)
    requires Exists(s, w)
    ensures forall n: nat, ok, v :: Truthful(f, SetThread(Report(s, w, n, ok), w, Holding), v) <==> Truthful(f, s, v)
    ensures forall i, v :: Truthful(f, SetThread(s.(nIdle := i), w, Holding), v) <==> Truthful(f, s, v)
  {
  }

  lemma WakeKeeps(f: Verdict, s: State, t: State, w: Who, e: Event)
    requires Inv(f, s) && WakeStep(s, t, w, e)
    ensures Inv(f, t) && (e.Returned? ==> Truthful(f, s, e.result))
  {
    hide Inv, Locked, Head, HeadEvent, Truthful;
    WokenKeeps(f, s, w);
    HeadKeeps(f, SetThread(s.(nIdle := s.nIdle - 1), w, Holding), w);
    SameHistory(f, s, w);
  }

  lemma NextKeeps(f: Verdict, s: State, t: State, e: Event)
    requires Inv(f, s) && Next(f, s, t, e)
    ensures Inv(f, t) && (e.Returned? ==> Truthful(f, s, e.result))
  {
    hide Inv, EnterStep, WakeStep, SpuriousStep, ExecuteStep, AddStep, Truthful;
    if w :| EnterStep(s, t, w, e) {
      EnterKeeps(f, s, t, w, e);
    } else if w :| WakeStep(s, t, w, e) {
      WakeKeeps(f, s, t, w, e);
    } else if w :| SpuriousStep(s, t, w) {
      SpuriousKeeps(f, s, t, w);
    } else if w :| ExecuteStep(f, s, t, w) {
      ExecuteKeeps(f, s, t, w);
    } else if checks :| AddStep(s, t, checks) {
      AddKeeps(f, s, t, checks);
    } else if WaitStep(s, t) {
      WaitKeeps(f, s, t);
    } else {
      StartWorkerKeeps(f, s, t);
    }
  }

  lemma NothingPlusNothing()
    ensures Plus(NOTHING, NOTHING) == NOTHING
  {
    var none: multiset<Check> := multiset{};
    assert none + none == none;
  }

  lemma InitialAccounts(s: State)
    requires s.queue == [] && s.workers == [] && s.master == Out && s.nTodo == s.nTotal == s.nIdle == 0
    requires s.added == s.passed == multiset{}
    ensures Accounts(s)
  {
    hide Plus;
    NothingPlusNothing();
    var none: multiset<Check> := multiset(s.queue);
    assert none + none + none == none;
  }

  lemma InitialVerdicts(f: Verdict, s: State)
    requires s.workers == [] && s.master == Out && s.fAllOk && s.passed == s.ran == multiset{}
    ensures Verdicts(f, s)
  {
    assert !SomeFailing(s);
    assert !Failed(f, s.ran);
  }

  lemma InitialInv(f: Verdict, nBatchSize: nat)
    ensures Inv(f, Initial(nBatchSize))
  {
    hide Accounts, Verdicts;
    InitialAccounts(Initial(nBatchSize));
    InitialVerdicts(f, Initial(nBatchSize));
  }

  /** A run: states joined by steps, from a new queue. */
  ghost predicate IsRun(f: Verdict, nBatchSize: nat, states: seq<State>, events: seq<Event>) {
    && |states| == |events| + 1
    && states[0] == Initial(nBatchSize)
    && forall i :: 0 <= i < |events| ==> Next(f, states[i], states[i + 1], events[i])
  }

  /** In every state of every run the counters and flags are exact, and every Wait told the truth. */
  lemma {:induction false} RunSafe(f: Verdict, nBatchSize: nat, states: seq<State>, events: seq<Event>)
    requires IsRun(f, nBatchSize, states, events)
    ensures forall i :: 0 <= i < |states| ==> Inv(f, states[i])
    ensures forall i :: 0 <= i < |events| && events[i].Returned? ==> Truthful(f, states[i], events[i].result)
    decreases |events|
  {
    hide Inv, Next, Truthful, Initial;
    if |events| == 0 {
      InitialInv(f, nBatchSize);
    } else {
      var n := |events| - 1;
      assert IsRun(f, nBatchSize, states[..n + 1], events[..n]);
      RunSafe(f, nBatchSize, states[..n + 1], events[..n]);
      assert Inv(f, states[..n + 1][n]);
      NextKeeps(f, states[n], states[n + 1], events[n]);
    }
  }

  /** No lost wake-up: while the master sleeps unnotified, some worker holds work not yet reported. */
  lemma SomebodyWorks(f: Verdict, s: State)
    requires Inv(f, s) && s.master == Blocked
    ensures exists k :: 0 <= k < |s.workers| &&
              (s.workers[k].Busy? || (s.workers[k].Enter? && s.workers[k].nNow > 0))
  {
    SumBounds(s.workers);
    var k :| 0 <= k < |s.workers| && LoadOf(s.workers[k]).inFlight > 0;
  }
}
