/**
  Progress of the check queue: while the master is in Wait some thread can take a step of its own,
  and only so many of these steps fit between spurious wake-ups and new workers.
 */
module CheckQueueProgress {
  import opened CheckQueue
  import opened CheckQueueSafety

  /** A step that a thread takes on its own: a critical section, or one check of its batch. */
  ghost predicate WorkStep(f: Verdict, s: State, t: State, e: Event) {
    || (exists w :: EnterStep(s, t, w, e))
    || (exists w :: WakeStep(s, t, w, e))
    || (e == Silent && exists w :: ExecuteStep(f, s, t, w))
  }

  // ------------------------------------------------------------- the steps left

  /** What a thread can still do before it sleeps, including the wake-up of a sleeping master. */
  function Effort(t: Thread): nat {
    match t
    case Out => 0
    case Enter(_, _) => 3
    case Blocked => 0
    case Woken => 1
    case Holding => 0
    case Busy(batch, next, _) => 4 + if next <= |batch| then |batch| - next else 0
  }

  function Efforts(ts: seq<Thread>): nat {
    if ts == [] then 0 else Effort(ts[0]) + Efforts(ts[1..])
  }

  /** A queued check costs what handing it out and running it can cost. */
  function Measure(s: State): nat {
    5 * |s.queue| + Effort(s.master) + Efforts(s.workers)
  }

  lemma {:induction false} EffortsUpdate(ts: seq<Thread>, k: nat, t: Thread)
    requires k < |ts|
    ensures Efforts(ts[k := t]) + Effort(ts[k]) == Efforts(ts) + Effort(t)
    decreases |ts|
  {
    hide Effort;
    if k == 0 {
      assert ts[k := t][1..] == ts[1..];
    } else {
      assert ts[k := t][1..] == ts[1..][k - 1 := t];
      EffortsUpdate(ts[1..], k - 1, t);
    }
  }

  lemma {:induction false} EffortsAppend(ts: seq<Thread>, t: Thread)
    ensures Efforts(ts + [t]) == Efforts(ts) + Effort(t)
    decreases |ts|
  {
    hide Effort;
    if ts == [] {
      assert [t][1..] == [];
    } else {
      assert (ts + [t])[1..] == ts[1..] + [t];
      EffortsAppend(ts[1..], t);
    }
  }

  lemma MeasureSet(s: State, w: Who, t: Thread)
    requires Exists(s, w)
    ensures Measure(SetThread(s, w, t)) + Effort(ThreadOf(s, w)) == Measure(s) + Effort(t)
  {
    hide Effort, Efforts;
    if w.Worker? { EffortsUpdate(s.workers, w.k, t); }
  }

  /** The loop head costs nothing beyond what the queue has set aside for it. */
  lemma HeadMeasure(s: State, w: Who)
    requires CanHead(s, w) && ThreadOf(s, w) == Holding
    ensures Measure(Head(s, w)) <= Measure(s)
  {
    hide Efforts, TakeBack, BatchSize;
    if s.queue != [] {
      BatchFits(s);
      var n := BatchSize(s);
      TakeBackAll(s.queue, n);
      MeasureSet(s.(queue := s.queue[..|s.queue| - n]), w, Busy(TakeBack(s.queue, n), 0, s.fAllOk));
    } else {
      MeasureSet(s, w, Out);
      MeasureSet(s, w, Blocked);
    }
  }

  /** Reporting may wake the master. */
  lemma ReportMeasure(s: State, w: Who)
    requires Exists(s, w) && ThreadOf(s, w).Enter?
    ensures var r := SetThread(Report(s, w, ThreadOf(s, w).nNow, ThreadOf(s, w).fOk), w, Holding);
            Measure(r) < Measure(s)
  {
    hide Efforts;
    var r := Report(s, w, ThreadOf(s, w).nNow, ThreadOf(s, w).fOk);
    assert Measure(r) <= Measure(s) + 1;
    assert ThreadOf(r, w) == ThreadOf(s, w);
    MeasureSet(r, w, Holding);
  }

  lemma EnterLowers(s: State, t: State, w: Who, e: Event)
    requires EnterStep(s, t, w, e)
    ensures Measure(t) < Measure(s)
  {
    hide Measure, Head, HeadEvent;
    ReportMeasure(s, w);
    HeadMeasure(SetThread(Report(s, w, ThreadOf(s, w).nNow, ThreadOf(s, w).fOk), w, Holding), w);
  }

  lemma WakeLowers(s: State, t: State, w: Who, e: Event)
    requires WakeStep(s, t, w, e)
    ensures Measure(t) < Measure(s)
  {
    hide Measure, Head, HeadEvent;
    var r := SetThread(s.(nIdle := s.nIdle - 1), w, Holding);
    MeasureSet(s, w, Holding);
    SameMeasure(SetThread(s, w, Holding), r);
    HeadMeasure(r, w);
  }

  lemma ExecuteLowers(f: Verdict, s: State, t: State, w: Who)
    requires ExecuteStep(f, s, t, w)
    ensures Measure(t) < Measure(s)
  {
    hide Measure;
    MeasureSet(s, w, ThreadOf(t, w));
    SameMeasure(SetThread(s, w, ThreadOf(t, w)), t);
  }

  /** Every step of a thread lowers the measure. */
  lemma WorkLowers(f: Verdict, s: State, t: State, e: Event)
    requires WorkStep(f, s, t, e)
    ensures Measure(t) < Measure(s)
  {
    hide Measure, EnterStep, WakeStep, ExecuteStep;
    if w :| EnterStep(s, t, w, e) {
      EnterLowers(s, t, w, e);
    } else if w :| WakeStep(s, t, w, e) {
      WakeLowers(s, t, w, e);
    } else {
      var w :| ExecuteStep(f, s, t, w);
      ExecuteLowers(f, s, t, w);
    }
  }

  lemma SameMeasure(s: State, t: State)
    requires s.queue == t.queue && s.master == t.master && s.workers == t.workers
    ensures Measure(s) == Measure(t)
  {
  }

  // ------------------------------------------------------------------ every Wait

  /** What can happen while the master is in Wait; adding checks is not among it. */
  datatype Kind = Work | Spurious | Start

  ghost predicate StepOf(f: Verdict, s: State, t: State, kind: Kind) {
    match kind
    case Work => exists e :: WorkStep(f, s, t, e)
    case Spurious => exists w :: SpuriousStep(s, t, w)
    case Start => StartWorkerStep(s, t)
  }

  function Works(kinds: seq<Kind>): nat {
    if kinds == [] then 0 else Works(kinds[..|kinds| - 1]) + if kinds[|kinds| - 1] == Work then 1 else 0
  }

  /** What spurious wake-ups and new workers add. */
  function Allowance(kinds: seq<Kind>): nat {
    if kinds == [] then 0
    else Allowance(kinds[..|kinds| - 1]) + match kinds[|kinds| - 1] case Work => 0 case Spurious => 1 case Start => 3
  }

  lemma StepMeasure(f: Verdict, s: State, t: State, kind: Kind)
    requires StepOf(f, s, t, kind)
    ensures Measure(t) <= Measure(s) + match kind case Work => -1 case Spurious => 1 case Start => 3
  {
    hide WorkStep, Efforts;
    match kind
    case Work =>
      var e :| WorkStep(f, s, t, e);
      WorkLowers(f, s, t, e);
    case Spurious =>
      var w :| SpuriousStep(s, t, w);
      MeasureSet(s, w, Woken);
    case Start =>
      EffortsAppend(s.workers, Enter(0, true));
  }

  /** Over any run, however it is interleaved, the steps of threads are bounded. */
  lemma {:induction false} WorkBounded(f: Verdict, states: seq<State>, kinds: seq<Kind>)
    requires |states| == |kinds| + 1
    requires forall i :: 0 <= i < |kinds| ==> StepOf(f, states[i], states[i + 1], kinds[i])
    ensures Works(kinds) + Measure(states[|kinds|]) <= Measure(states[0]) + Allowance(kinds)
    decreases |kinds|
  {
    hide StepOf, Measure;
    if kinds != [] {
      var n := |kinds| - 1;
      WorkBounded(f, states[..n + 1], kinds[..n]);
      StepMeasure(f, states[n], states[n + 1], kinds[n]);
    }
  }

  // ------------------------------------------------------------ no state is stuck

  /** Between steps nobody holds the lock. */
  ghost predicate Settled(s: State) {
    s.master != Holding && forall k :: 0 <= k < |s.workers| ==> s.workers[k] != Holding
  }

  lemma HeadSettles(s: State, w: Who)
    requires CanHead(s, w)
    requires w != Master ==> s.master != Holding
    requires forall k :: 0 <= k < |s.workers| && w != Worker(k) ==> s.workers[k] != Holding
    ensures Settled(Head(s, w))
  {
    hide TakeBack, BatchSize;
  }

  lemma EnterSettled(s: State, t: State, w: Who, e: Event)
    requires Settled(s) && EnterStep(s, t, w, e)
    ensures Settled(t)
  {
    hide Head, HeadEvent;
    HeadSettles(SetThread(Report(s, w, ThreadOf(s, w).nNow, ThreadOf(s, w).fOk), w, Holding), w);
  }

  lemma WakeSettled(s: State, t: State, w: Who, e: Event)
    requires Settled(s) && WakeStep(s, t, w, e)
    ensures Settled(t)
  {
    hide Head, HeadEvent;
    HeadSettles(SetThread(s.(nIdle := s.nIdle - 1), w, Holding), w);
  }

  lemma ExecuteSettled(f: Verdict, s: State, t: State, w: Who)
    requires Settled(s) && ExecuteStep(f, s, t, w)
    ensures Settled(t)
  {
  }

  lemma AddSettled(s: State, t: State, checks: seq<Check>)
    requires Settled(s) && AddStep(s, t, checks)
    ensures Settled(t)
  {
  }

  lemma NextSettled(f: Verdict, s: State, t: State, e: Event)
    requires Settled(s) && Next(f, s, t, e)
    ensures Settled(t)
  {
    hide EnterStep, WakeStep, ExecuteStep, AddStep;
    if w :| EnterStep(s, t, w, e) {
      EnterSettled(s, t, w, e);
    } else if w :| WakeStep(s, t, w, e) {
      WakeSettled(s, t, w, e);
    } else if w :| SpuriousStep(s, t, w) {
    } else if w :| ExecuteStep(f, s, t, w) {
      ExecuteSettled(f, s, t, w);
    } else if checks :| AddStep(s, t, checks) {
      AddSettled(s, t, checks);
    }
  }

  /** In every state of every run nobody holds the lock. */
  lemma {:induction false} RunSettled(f: Verdict, nBatchSize: nat, states: seq<State>, events: seq<Event>)
    requires IsRun(f, nBatchSize, states, events)
    ensures forall i :: 0 <= i < |states| ==> Settled(states[i])
    decreases |events|
  {
    hide Settled, Next, Initial;
    if |events| == 0 {
      InitialSettled(nBatchSize);
    } else {
      var n := |events| - 1;
      assert IsRun(f, nBatchSize, states[..n + 1], events[..n]);
      RunSettled(f, nBatchSize, states[..n + 1], events[..n]);
      assert Settled(states[..n + 1][n]);
      NextSettled(f, states[n], states[n + 1], events[n]);
    }
  }

  lemma InitialSettled(nBatchSize: nat)
    ensures Settled(Initial(nBatchSize))
  {
  }

  lemma EnterEnabled(f: Verdict, s: State, w: Who)
    requires Inv(f, s) && Exists(s, w) && ThreadOf(s, w).Enter?
    ensures exists t, e :: WorkStep(f, s, t, e)
  {
    hide Inv, Locked, Head, HeadEvent, Truthful;
    var r := SetThread(Report(s, w, ThreadOf(s, w).nNow, ThreadOf(s, w).fOk), w, Holding);
    ReportKeeps(f, s, w);
    HeadKeeps(f, r, w);
    assert EnterStep(s, Head(r, w), w, HeadEvent(r, w));
    assert WorkStep(f, s, Head(r, w), HeadEvent(r, w));
  }

  lemma WakeEnabled(f: Verdict, s: State, w: Who)
    requires Inv(f, s) && Exists(s, w) && ThreadOf(s, w).Woken?
    ensures exists t, e :: WorkStep(f, s, t, e)
  {
    hide Inv, Locked, Head, HeadEvent, Truthful;
    var r := SetThread(s.(nIdle := s.nIdle - 1), w, Holding);
    WokenKeeps(f, s, w);
    HeadKeeps(f, r, w);
    assert WakeStep(s, Head(r, w), w, HeadEvent(r, w));
    assert WorkStep(f, s, Head(r, w), HeadEvent(r, w));
  }

  lemma ExecuteEnabled(f: Verdict, s: State, w: Who)
    requires Exists(s, w) && ThreadOf(s, w).Busy?
    ensures exists t, e :: WorkStep(f, s, t, e)
  {
    var t := Executed(f, s, w);
    assert ExecuteStep(f, s, t, w);
    assert WorkStep(f, s, t, Silent);
  }

  /** While the master is in Wait, some thread can take a step: no state is stuck. */
  lemma NeverStuck(f: Verdict, s: State)
    requires Inv(f, s) && Settled(s) && s.master != Out
    ensures exists t, e :: WorkStep(f, s, t, e)
  {
    hide Inv, WorkStep;
    match s.master
    case Enter(_, _) => EnterEnabled(f, s, Master);
    case Woken => WakeEnabled(f, s, Master);
    case Busy(_, _, _) => ExecuteEnabled(f, s, Master);
    case Blocked =>
      SomebodyWorks(f, s);
      var k :| 0 <= k < |s.workers| && (s.workers[k].Busy? || (s.workers[k].Enter? && s.workers[k].nNow > 0));
      if s.workers[k].Busy? { ExecuteEnabled(f, s, Worker(k)); } else { EnterEnabled(f, s, Worker(k)); }
  }

  /**
    Wait returns: a run of the threads' own steps from a state in Wait that cannot be continued has
    ended it, and it is no longer than the measure.
   */
  lemma WaitReturns(f: Verdict, states: seq<State>, kinds: seq<Kind>)
    requires |states| == |kinds| + 1
    requires forall i :: 0 <= i < |kinds| ==> kinds[i] == Work && StepOf(f, states[i], states[i + 1], Work)
    requires Inv(f, states[0]) && Settled(states[0])
    ensures |kinds| <= Measure(states[0])
    ensures (!exists t, e :: WorkStep(f, states[|kinds|], t, e)) ==> states[|kinds|].master == Out
  {
    hide Inv, Settled, Measure, WorkStep;
    WorkBounded(f, states, kinds);
    AllWork(kinds);
    WorkKeeps(f, states, kinds);
    var last := states[|kinds|];
    if last.master != Out { NeverStuck(f, last); }
  }

  lemma {:induction false} AllWork(kinds: seq<Kind>)
    requires forall i :: 0 <= i < |kinds| ==> kinds[i] == Work
    ensures Works(kinds) == |kinds| && Allowance(kinds) == 0
    decreases |kinds|
  {
    if kinds != [] { AllWork(kinds[..|kinds| - 1]); }
  }

  lemma {:induction false} WorkKeeps(f: Verdict, states: seq<State>, kinds: seq<Kind>)
    requires |states| == |kinds| + 1
    requires forall i :: 0 <= i < |kinds| ==> kinds[i] == Work && StepOf(f, states[i], states[i + 1], Work)
    requires Inv(f, states[0]) && Settled(states[0])
    ensures Inv(f, states[|kinds|]) && Settled(states[|kinds|])
    decreases |kinds|
  {
    hide Inv, Settled, WorkStep, Next;
    if kinds != [] {
      var n := |kinds| - 1;
      WorkKeeps(f, states[..n + 1], kinds[..n]);
      var e :| WorkStep(f, states[n], states[n + 1], e);
      WorkIsNext(f, states[n], states[n + 1], e);
      NextKeeps(f, states[n], states[n + 1], e);
      NextSettled(f, states[n], states[n + 1], e);
    }
  }

  lemma WorkIsNext(f: Verdict, s: State, t: State, e: Event)
    requires WorkStep(f, s, t, e)
    ensures Next(f, s, t, e)
  {
  }
}
