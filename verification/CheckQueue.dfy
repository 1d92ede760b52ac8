/**
  The parallel check queue of src/checkqueue.h as a state machine: any number of workers and
  one master, interleaved at the granularity of the mutex.  A thread's step is either one
  whole critical section or the execution of one check outside the lock.

  `added`, `passed` and `ran` are history: the checks handed to Add since the last Wait
  returned, those whose turn has come, and those that were actually executed.
 */
module CheckQueue {

  type Check = nat
  /** The verdict of executing a check. */
  type Verdict = Check -> bool

  datatype Thread =
    | Out                                              // not inside Loop
    | Enter(nNow: nat, fOk: bool)                      // about to take the lock, nNow checks to report
    | Blocked                                          // in cond.wait, not notified
    | Woken                                            // notified, or woken spuriously
    | Holding                                          // holds the lock, between report and loop head
    | Busy(batch: seq<Check>, next: nat, fOk: bool)    // executing its batch outside the lock

  datatype State = State(
    queue: seq<Check>, nIdle: int, nTotal: int, fAllOk: bool, nTodo: int, fQuit: bool, nBatchSize: nat,
    master: Thread, workers: seq<Thread>,
    added: multiset<Check>, passed: multiset<Check>, ran: multiset<Check>)

  function Initial(nBatchSize: nat): State {
    State([], 0, 0, true, 0, false, nBatchSize, Out, [], multiset{}, multiset{}, multiset{})
  }

  // ------------------------------------------------------- one critical section

  /** nNow: not more than fits a batch, fewer when more threads share the work, at least one. */
  function BatchSize(s: State): int
    requires s.nTotal + s.nIdle + 1 > 0
  {
    var share := |s.queue| / (s.nTotal + s.nIdle + 1);
    var n := if s.nBatchSize < share then s.nBatchSize else share;
    if n > 1 then n else 1
  }

  /** The batch swapped out of the back of the queue, last element first. */
  function TakeBack(q: seq<Check>, n: nat): seq<Check>
    requires n <= |q|
  {
    if n == 0 then [] else [q[|q| - 1]] + TakeBack(q[..|q| - 1], n - 1)
  }

  /** Where a thread stands: the master, or a worker by index. */
  datatype Who = Master | Worker(k: nat)

  predicate Exists(s: State, w: Who) {
    w.Worker? ==> w.k < |s.workers|
  }

  function ThreadOf(s: State, w: Who): Thread
    requires Exists(s, w)
  {
    match w
    case Master => s.master
    case Worker(k) => s.workers[k]
  }

  function SetThread(s: State, w: Who, t: Thread): State
    requires Exists(s, w)
  {
    match w
    case Master => s.(master := t)
    case Worker(k) => s.(workers := s.workers[k := t])
  }

  /** Clean-up of the previous round, or joining the pool. */
  function Report(s: State, w: Who, nNow: nat, fOk: bool): State {
    if nNow == 0 then s.(nTotal := s.nTotal + 1)
    else
      var t := s.(fAllOk := s.fAllOk && fOk, nTodo := s.nTodo - nNow);
      if t.nTodo == 0 && w != Master && t.master == Blocked then t.(master := Woken) else t
  }

  /** The loop head: take work, go to sleep, or return. */
  function Head(s: State, w: Who): State
    requires Exists(s, w) && s.nTotal + s.nIdle + 1 > 0 && (s.queue != [] ==> BatchSize(s) <= |s.queue|)
  {
    if s.queue != [] then
      var n := BatchSize(s);
      SetThread(s.(queue := s.queue[..|s.queue| - n]), w, Busy(TakeBack(s.queue, n), 0, s.fAllOk))
    else if (w == Master || s.fQuit) && s.nTodo == 0 then
      SetThread(if w == Master
                then s.(nTotal := s.nTotal - 1, fAllOk := true,
                        added := multiset{}, passed := multiset{}, ran := multiset{})
                else s.(nTotal := s.nTotal - 1), w, Out)
    else SetThread(s.(nIdle := s.nIdle + 1), w, Blocked)
  }

  // -------------------------------------------------------------------- steps

  datatype Event = Silent | Returned(result: bool)

  ghost predicate CanHead(s: State, w: Who) {
    Exists(s, w) && s.nTotal + s.nIdle + 1 > 0 && (s.queue != [] ==> BatchSize(s) <= |s.queue|)
  }

  /** The event of a loop head: the master's Wait returns the accumulated verdict. */
  function HeadEvent(s: State, w: Who): Event {
    if s.queue == [] && w == Master && s.nTodo == 0 then Returned(s.fAllOk) else Silent
  }

  /** A thread takes the lock at the top of its loop. */
  ghost predicate EnterStep(s: State, t: State, w: Who, e: Event) {
    && Exists(s, w) && ThreadOf(s, w).Enter?
    && var r := SetThread(Report(s, w, ThreadOf(s, w).nNow, ThreadOf(s, w).fOk), w, Holding);
       CanHead(r, w) && t == Head(r, w) && e == HeadEvent(r, w)
  }

  /** A woken thread has the lock again and goes back to the loop head. */
  ghost predicate WakeStep(s: State, t: State, w: Who, e: Event) {
    && Exists(s, w) && ThreadOf(s, w).Woken?
    && var r := SetThread(s.(nIdle := s.nIdle - 1), w, Holding);
       CanHead(r, w) && t == Head(r, w) && e == HeadEvent(r, w)
  }

  ghost predicate SpuriousStep(s: State, t: State, w: Who) {
    Exists(s, w) && ThreadOf(s, w).Blocked? && t == SetThread(s, w, Woken)
  }

  /** One check of the batch: executed while nothing has failed, passed over afterwards. */
  function Executed(f: Verdict, s: State, w: Who): State
    requires Exists(s, w) && ThreadOf(s, w).Busy?
  {
    var b := ThreadOf(s, w);
    if b.next < |b.batch| then
      var c := b.batch[b.next];
      var r := s.(passed := s.passed + multiset{c});
      if b.fOk then SetThread(r.(ran := s.ran + multiset{c}), w, b.(next := b.next + 1, fOk := f(c)))
      else SetThread(r, w, b.(next := b.next + 1))
    else SetThread(s, w, Enter(|b.batch|, b.fOk))
  }

  ghost predicate ExecuteStep(f: Verdict, s: State, t: State, w: Who) {
    Exists(s, w) && ThreadOf(s, w).Busy? && t == Executed(f, s, w)
  }

  /** Notifying may wake threads that are blocked; which one notify_one picks is up to the system. */
  ghost predicate Notified(s: seq<Thread>, t: seq<Thread>, n: nat) {
    && |s| == |t|
    && (forall k :: 0 <= k < |s| ==> t[k] == s[k] || (s[k] == Blocked && t[k] == Woken))
    && (n == 0 ==> t == s)
    && (n == 1 ==> (t == s && forall k :: 0 <= k < |s| ==> s[k] != Blocked)
                   || exists k :: 0 <= k < |s| && s[k] == Blocked && t == s[k := Woken])
    && (n > 1 ==> forall k :: 0 <= k < |s| ==> t[k] != Blocked)
  }

  /** The master adds a batch of checks; it does so outside Wait. */
  ghost predicate AddStep(s: State, t: State, checks: seq<Check>) {
    && s.master == Out
    && Notified(s.workers, t.workers, |checks|)
    && t == s.(queue := s.queue + checks, nTodo := s.nTodo + |checks|, workers := t.workers,
               added := s.added + multiset(checks))
  }

  ghost predicate WaitStep(s: State, t: State) {
    s.master == Out && t == s.(master := Enter(0, true))
  }

  ghost predicate StartWorkerStep(s: State, t: State) {
    t == s.(workers := s.workers + [Enter(0, true)])
  }

  ghost predicate Next(f: Verdict, s: State, t: State, e: Event) {
    || (exists w :: EnterStep(s, t, w, e))
    || (exists w :: WakeStep(s, t, w, e))
    || (e == Silent && exists w :: SpuriousStep(s, t, w))
    || (e == Silent && exists w :: ExecuteStep(f, s, t, w))
    || (e == Silent && exists checks :: AddStep(s, t, checks))
    || (e == Silent && WaitStep(s, t))
    || (e == Silent && StartWorkerStep(s, t))
  }

  // ----------------------------------------------------------------- invariant

  /** What a thread contributes to the totals. */
  datatype Load = Load(inFlight: int, active: int, idle: int, pending: multiset<Check>)

  const NOTHING := Load(0, 0, 0, multiset{})

  function LoadOf(t: Thread): Load {
    match t
    case Out => NOTHING
    case Enter(n, _) => Load(n, if n > 0 then 1 else 0, 0, multiset{})
    case Blocked => Load(0, 1, 1, multiset{})
    case Woken => Load(0, 1, 1, multiset{})
    case Holding => Load(0, 1, 0, multiset{})
    case Busy(batch, next, _) => Load(|batch|, 1, 0, if next <= |batch| then multiset(batch[next..]) else multiset{})
  }

  function Plus(a: Load, b: Load): Load {
    Load(a.inFlight + b.inFlight, a.active + b.active, a.idle + b.idle, a.pending + b.pending)
  }

  function Sum(ts: seq<Thread>): Load {
    if ts == [] then NOTHING else Plus(LoadOf(ts[0]), Sum(ts[1..]))
  }

  function Total(s: State): Load {
    Plus(LoadOf(s.master), Sum(s.workers))
  }

  predicate Failing(t: Thread) {
    (t.Enter? || t.Busy?) && !t.fOk
  }

  ghost predicate SomeFailing(s: State) {
    !s.fAllOk || Failing(s.master) || exists k :: 0 <= k < |s.workers| && Failing(s.workers[k])
  }

  ghost predicate Failed(f: Verdict, ran: multiset<Check>) {
    exists c :: c in ran && !f(c)
  }

  predicate ThreadOk(t: Thread) {
    && (t.Busy? ==> 1 <= |t.batch| && t.next <= |t.batch|)
    && (t.Enter? && t.nNow == 0 ==> t.fOk)
  }

  ghost predicate Threads(s: State) {
    ThreadOk(s.master) && forall k :: 0 <= k < |s.workers| ==> ThreadOk(s.workers[k])
  }

  ghost predicate Accounts(s: State) {
    var l := Total(s);
    && s.nTodo == |s.queue| + l.inFlight
    && s.nTotal == l.active && s.nIdle == l.idle
    && s.added == multiset(s.queue) + l.pending + s.passed
  }

  ghost predicate Verdicts(f: Verdict, s: State) {
    && s.ran <= s.passed
    && (s.ran != s.passed ==> Failed(f, s.ran))
    && (SomeFailing(s) <==> Failed(f, s.ran))
  }

  /** A master that sleeps unnotified still has somebody to wait for. */
  predicate MasterWaits(s: State) {
    s.master == Blocked ==> s.queue == [] && s.nTodo > 0
  }

  ghost predicate Inv(f: Verdict, s: State) {
    !s.fQuit && Threads(s) && Accounts(s) && Verdicts(f, s) && MasterWaits(s)
  }
}
