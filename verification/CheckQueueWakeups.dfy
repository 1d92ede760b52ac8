/**
  No worker sleeps through work: over all interleavings, while checks are queued and some worker is
  blocked, another worker is already awake.  And how much a worker takes, and when it takes none up.
 */
module CheckQueueWakeups {
  import opened CheckQueue
  import opened CheckQueueSafety

  predicate IsAwake(t: Thread) {
    t.Woken? || t.Enter? || t.Busy?
  }

  ghost predicate SomeAwake(ts: seq<Thread>) {
    exists k :: 0 <= k < |ts| && IsAwake(ts[k])
  }

  ghost predicate SomeBlocked(ts: seq<Thread>) {
    exists k :: 0 <= k < |ts| && ts[k].Blocked?
  }

  ghost predicate Attended(s: State) {
    s.queue != [] && SomeBlocked(s.workers) ==> SomeAwake(s.workers)
  }

  /** A worker at the loop head takes work and is awake, or has found the queue empty; the master changes no worker. */
  lemma HeadAttended(s: State, w: Who)
    requires CanHead(s, w) && !s.fQuit && (w == Master ==> Attended(s))
    ensures Attended(Head(s, w))
  {
    hide TakeBack, BatchSize;
    var t := Head(s, w);
    if w.Worker? && s.queue != [] { assert IsAwake(t.workers[w.k]); }
  }

  lemma EnterAttended(s: State, t: State, w: Who, e: Event)
    requires Attended(s) && !s.fQuit && EnterStep(s, t, w, e)
    ensures Attended(t)
  {
    hide Head, HeadEvent, BatchSize;
    HeadAttended(SetThread(Report(s, w, ThreadOf(s, w).nNow, ThreadOf(s, w).fOk), w, Holding), w);
  }

  lemma WakeAttended(s: State, t: State, w: Who, e: Event)
    requires Attended(s) && !s.fQuit && WakeStep(s, t, w, e)
    ensures Attended(t)
  {
    hide Head, HeadEvent, BatchSize;
    HeadAttended(SetThread(s.(nIdle := s.nIdle - 1), w, Holding), w);
  }

  lemma SpuriousAttended(s: State, t: State, w: Who)
    requires Attended(s) && SpuriousStep(s, t, w)
    ensures Attended(t)
  {
    if w.Worker? { assert IsAwake(t.workers[w.k]); }
  }

  lemma ExecuteAttended(f: Verdict, s: State, t: State, w: Who)
    requires Attended(s) && ExecuteStep(f, s, t, w)
    ensures Attended(t)
  {
    if w.Worker? { assert IsAwake(t.workers[w.k]); }
  }

  /** One new check wakes one blocked worker if there is one, more than one wake them all. */
  lemma AddAttended(s: State, t: State, checks: seq<Check>)
    requires Attended(s) && AddStep(s, t, checks)
    ensures Attended(t)
  {
    if |checks| == 1 && t.workers != s.workers {
      var k :| 0 <= k < |s.workers| && s.workers[k] == Blocked && t.workers == s.workers[k := Woken];
      assert IsAwake(t.workers[k]);
    }
  }

  lemma StartAttended(s: State, t: State)
    requires StartWorkerStep(s, t)
    ensures Attended(t)
  {
    assert IsAwake(t.workers[|s.workers|]);
  }

  lemma NextAttended(f: Verdict, s: State, t: State, e: Event)
    requires Attended(s) && !s.fQuit && Next(f, s, t, e)
    ensures Attended(t)
  {
    hide EnterStep, WakeStep, SpuriousStep, ExecuteStep, AddStep, StartWorkerStep, Attended;
    if w :| EnterStep(s, t, w, e) {
      EnterAttended(s, t, w, e);
    } else if w :| WakeStep(s, t, w, e) {
      WakeAttended(s, t, w, e);
    } else if w :| SpuriousStep(s, t, w) {
      SpuriousAttended(s, t, w);
    } else if w :| ExecuteStep(f, s, t, w) {
      ExecuteAttended(f, s, t, w);
    } else if checks :| AddStep(s, t, checks) {
      AddAttended(s, t, checks);
    } else if StartWorkerStep(s, t) {
      StartAttended(s, t);
    } else {
      WaitAttended(s, t);
    }
  }

  lemma WaitAttended(s: State, t: State)
    requires Attended(s) && WaitStep(s, t)
    ensures Attended(t)
  {
  }

  /** In every state of every run: while the queue is nonempty and some worker is blocked, some worker is awake. */
  lemma {:induction false} RunAttended(f: Verdict, nBatchSize: nat, states: seq<State>, events: seq<Event>)
    requires IsRun(f, nBatchSize, states, events)
    ensures forall i :: 0 <= i < |states| ==> Attended(states[i])
    decreases |events|
  {
    hide Next, Attended, Inv;
    if |events| == 0 {
      InitialAttended(nBatchSize);
    } else {
      var n := |events| - 1;
      assert IsRun(f, nBatchSize, states[..n + 1], events[..n]);
      RunAttended(f, nBatchSize, states[..n + 1], events[..n]);
      RunSafe(f, nBatchSize, states[..n + 1], events[..n]);
      assert Attended(states[..n + 1][n]) && Inv(f, states[..n + 1][n]);
      NoQuit(f, states[n]);
      NextAttended(f, states[n], states[n + 1], events[n]);
    }
  }

  lemma InitialAttended(nBatchSize: nat)
    ensures Attended(Initial(nBatchSize))
  {
  }

  lemma NoQuit(f: Verdict, s: State)
    requires Inv(f, s)
    ensures !s.fQuit
  {
  }

  // --------------------------------------------------------- how much is taken

  /**
    A thread takes one check, or no more than a batch and than its share among the threads that may
    help: itself and the idle ones counted once more, and one besides.  Of these numbers it takes the largest.
   */
  lemma BatchIsShare(s: State)
    requires s.nTotal >= 0 && s.nIdle >= 0
    ensures var n, k := BatchSize(s), s.nTotal + s.nIdle + 1;
      forall m: int :: m <= n <==> m <= 1 || (m <= s.nBatchSize && m * k <= |s.queue|)
  {
    var n, k := BatchSize(s), s.nTotal + s.nIdle + 1;
    var share := |s.queue| / k;
    forall m: int ensures m <= share <==> m * k <= |s.queue| {
      ShareIs(m, k, |s.queue|);
    }
  }

  lemma ShareIs(m: int, k: int, q: nat)
    requires k > 0
    ensures m <= q / k <==> m * k <= q
  {
    var d := q / k;
    assert d * k <= q < d * k + k;
    if m <= d { assert m * k <= d * k; } else { assert m * k >= (d + 1) * k; }
  }

  /** Once a failure is recorded, a batch is taken with a verdict that already failed. */
  lemma FailureIsPassedOn(s: State, w: Who)
    requires CanHead(s, w) && !s.fAllOk && s.queue != []
    ensures ThreadOf(Head(s, w), w).Busy? && Failing(ThreadOf(Head(s, w), w))
  {
    hide TakeBack, BatchSize;
  }

  /** Then its checks are not executed any more, only passed over, and the failure is reported again. */
  lemma FailureStopsWork(f: Verdict, s: State, w: Who)
    requires Exists(s, w) && ThreadOf(s, w).Busy? && !ThreadOf(s, w).fOk
    ensures Executed(f, s, w).ran == s.ran && Failing(ThreadOf(Executed(f, s, w), w))
  {
  }
}
