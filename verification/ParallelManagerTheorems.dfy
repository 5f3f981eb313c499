/** What holds of every run of the worker pool: barriers run alone, results arrive once, nothing gets stuck. */
module ParallelManagerTheorems {
  import opened Counting
  import opened ParallelManager
  import opened ParallelManagerInvariant

  // ---------- the constructor ----------

  /** newParallelManager: one addWorker per CPU, each subject to the cap. */
  method NewParallelManager(numCPU: nat, maxWorkers: int, plans: seq<seq<Item>>) returns (s: State)
    requires numCPU >= 1
    ensures Init(s, plans)
    ensures s.cap == if maxWorkers > 0 then maxWorkers else 128
    ensures |s.workers| == if numCPU <= s.cap then numCPU else s.cap
  {
    var cap := Cap(maxWorkers);
    var workersNum, waitGroup: nat := 0, 0;
    var workers: seq<Worker> := [];
    for i := 0 to numCPU
      invariant workersNum == waitGroup == |workers| == if i <= cap then i else cap
      invariant forall w | 0 <= w < |workers| :: workers[w] == Idle
    {
      if workersNum < cap {
        workersNum, waitGroup, workers := workersNum + 1, waitGroup + 1, workers + [Idle];
      }
    }
    s := State(cap, seq(|plans|, e requires 0 <= e < |plans| => Planning(plans[e])), workers, 0, false, false,
               workersNum, waitGroup, Ticking, Receiving, AwaitEnqueuers, 0, []);
  }

  // ---------- reading a disciplined log ----------

  function Occurrences(log: seq<Event>, ev: Event): nat {
    Count(log, x => x == ev)
  }

  lemma {:induction false} EachEventOnce(log: seq<Event>, k: Kind, t: Task)
    requires Disciplined(log)
    ensures Occurrences(log, Event(k, t)) == Bit(Stage(log, t) > Rank(k))
    ensures Stage(log, t) <= 4
  {
    if log == [] {
    } else {
      var last := |log| - 1;
      DisciplinedPrefix(log, last);
      EachEventOnce(log[..last], k, t);
      assert Follows(log[..last], log[last]);
    }
  }

  lemma DisciplinedPrefix(log: seq<Event>, n: nat)
    requires Disciplined(log) && n <= |log|
    ensures Disciplined(log[..n])
  {
    forall i | 0 <= i < n ensures Follows(log[..n][..i], log[..n][i]) {
      assert log[..n][..i] == log[..i];
    }
  }

  /** While a barrier is in flight nothing else is. */
  lemma {:induction false} BarrierInFlightIsAlone(log: seq<Event>, b: Task, t: Task)
    requires Disciplined(log)
    requires b.barrier && InFlight(log, b) && InFlight(log, t)
    ensures t == b
  {
    var last := |log| - 1;
    var pre, ev := log[..last], log[last];
    DisciplinedPrefix(log, last);
    assert Follows(pre, ev);
    if t == b {
    } else {
      var moved := ev.Event?;
      assert Stage(log, b) == Stage(pre, b) + Bit(moved && ev.task == b);
      assert Stage(log, t) == Stage(pre, t) + Bit(moved && ev.task == t);
      if moved && ev.task == b && ev.kind.Accept? {
        assert InFlight(pre, t);
      } else if moved && ev.task == t && ev.kind.Accept? {
        assert InFlight(pre, b);
      } else {
        BarrierInFlightIsAlone(pre, b, t);
      }
    }
  }

  lemma {:induction false} OccursMeansIndex(log: seq<Event>, ev: Event)
    ensures Occurrences(log, ev) > 0 <==> ev in log
  {
    var p := x => x == ev;
    CountZero(log, p);
    if ev in log {
      var i :| 0 <= i < |log| && log[i] == ev;
      assert p(log[i]);
    }
  }

  lemma StageOfAccepted(log: seq<Event>, i: nat, j: nat, t: Task)
    requires Disciplined(log) && i < j <= |log| && log[i] == Event(Accept, t)
    ensures Stage(log[..j], t) >= 1
  {
    DisciplinedPrefix(log, j);
    EachEventOnce(log[..j], Accept, t);
    assert log[..j][i] == Event(Accept, t);
    OccursMeansIndex(log[..j], Event(Accept, t));
  }

  // ---------- barriers ----------

  lemma AloneUntilReleased(log: seq<Event>, i: nat, j: nat, b: Task)
    requires Disciplined(log) && i < j < |log|
    requires log[i] == Event(Accept, b) && b.barrier && Event(Release, b) !in log[..j] && log[j].Event?
    ensures log[j].task == b
  {
    var pre := log[..j];
    DisciplinedPrefix(log, j);
    StageOfAccepted(log, i, j, b);
    EachEventOnce(pre, Release, b);
    OccursMeansIndex(pre, Event(Release, b));
    assert InFlight(pre, b);
    assert Follows(pre, log[j]);
    if !log[j].kind.Accept? {
      BarrierInFlightIsAlone(pre, b, log[j].task);
    }
  }

  lemma SettledBefore(log: seq<Event>, i: nat, j: nat, t: Task, u: Task)
    requires Disciplined(log) && i < j < |log|
    requires log[i] == Event(Accept, t) && log[j] == Event(Accept, u) && (t.barrier || u.barrier)
    ensures Event(Deliver, t) in log[..j] && Event(Release, t) in log[..j]
  {
    var pre := log[..j];
    DisciplinedPrefix(log, j);
    StageOfAccepted(log, i, j, t);
    assert Follows(pre, log[j]);
    assert !InFlight(pre, t);
    EachEventOnce(pre, Deliver, t);
    EachEventOnce(pre, Release, t);
    OccursMeansIndex(pre, Event(Deliver, t));
    OccursMeansIndex(pre, Event(Release, t));
  }

  function LogAfter(s0: State, run: seq<Action>): seq<Event>
    requires Legal(s0, run)
  {
    After(s0, run).log
  }

  lemma RunIsDisciplined(s0: State, plans: seq<seq<Item>>, run: seq<Action>)
    requires Init(s0, plans) && Legal(s0, run)
    ensures Disciplined(LogAfter(s0, run))
  {
    InitInv(s0, plans);
    RunInv(s0, run, plans);
  }

  /**
    In any run, from the acceptance of a barrier to the release of its lock, no other task is
    accepted, started, delivered or released.
   */
  lemma BarrierRunsAlone(s0: State, plans: seq<seq<Item>>, run: seq<Action>, i: nat, j: nat, b: Task)
    requires Init(s0, plans) && Legal(s0, run)
    requires i < j < |LogAfter(s0, run)| && LogAfter(s0, run)[i] == Event(Accept, b) && b.barrier
    requires Event(Release, b) !in LogAfter(s0, run)[..j] && LogAfter(s0, run)[j].Event?
    ensures LogAfter(s0, run)[j].task == b
  {
    RunIsDisciplined(s0, plans, run);
    AloneUntilReleased(LogAfter(s0, run), i, j, b);
  }

  /**
    In any run, of two accepted tasks of which at least one is a barrier, the one accepted first has
    had its result received and its lock released before the other is accepted.
   */
  lemma BarrierSeparates(s0: State, plans: seq<seq<Item>>, run: seq<Action>, i: nat, j: nat, t: Task, u: Task)
    requires Init(s0, plans) && Legal(s0, run)
    requires i < j < |LogAfter(s0, run)|
    requires LogAfter(s0, run)[i] == Event(Accept, t) && LogAfter(s0, run)[j] == Event(Accept, u)
    requires t.barrier || u.barrier
    ensures Event(Deliver, t) in LogAfter(s0, run)[..j]
    ensures Event(Release, t) in LogAfter(s0, run)[..j]
  {
    RunIsDisciplined(s0, plans, run);
    SettledBefore(LogAfter(s0, run), i, j, t, u);
  }

  /** The lock's state counts the accepted, unfinished tasks: readers the ordinary ones, the writer flag the barrier. */
  lemma LockCountsTasks(s0: State, plans: seq<seq<Item>>, run: seq<Action>)
    requires Init(s0, plans) && Legal(s0, run)
    ensures
      var s := After(s0, run);
      && s.readers == SharedHolders(s)
      && Bit(s.writer) == ExclusiveHolders(s)
      && (s.writer ==> SharedHolders(s) == 0)
      && (forall t: Task :: InFlight(s.log, t) <==> Placed(s, t))
  {
    InitInv(s0, plans);
    RunInv(s0, run, plans);
    var s := After(s0, run);
    forall t: Task | Placed(s, t) ensures InFlight(s.log, t) {
      if e: nat :| EnqHolds(s, e, t) {
        assert Stage(s.log, t) == 1;
      } else {
        var w: nat :| WorkHolds(s, w, t);
        assert Stage(s.log, t) == WorkerRank(s.workers[w]);
      }
    }
  }

  // ---------- the pool ----------

  /** The check in addWorker and the increment after it are separate operations, yet the cap holds. */
  lemma WorkersNeverExceedCap(s0: State, plans: seq<seq<Item>>, run: seq<Action>)
    requires Init(s0, plans) && Legal(s0, run)
    ensures
      var s := After(s0, run);
      && s.cap == s0.cap
      && 1 <= |s0.workers| <= |s.workers| <= s.workersNum <= s.cap
      && s.workersNum <= |s.workers| + 1
  {
    InitInv(s0, plans);
    RunInv(s0, run, plans);
    PoolGrows(s0, run);
  }

  lemma {:induction false} PoolGrows(s: State, run: seq<Action>)
    requires Legal(s, run)
    ensures After(s, run).cap == s.cap
    ensures |After(s, run).workers| >= |s.workers|
    decreases |run|
  {
    if run == [] {
    } else {
      StepGrows(s, run[0]);
      PoolGrows(Step(s, run[0]), run[1..]);
    }
  }

  lemma StepGrows(s: State, a: Action)
    requires Enabled(s, a)
    ensures Step(s, a).cap == s.cap && |Step(s, a).workers| >= |s.workers|
  {
  }

  predicate StopReturned(s: State) { !s.closer.AwaitEnqueuers? && !s.closer.AwaitWorkers? }

  /** Once stopAndWait's wait is over nothing is accepted, started, delivered or released any more, late workers included. */
  lemma NothingHappensAfterStop(s0: State, plans: seq<seq<Item>>, run: seq<Action>, later: seq<Action>)
    requires Init(s0, plans) && Legal(s0, run) && StopReturned(After(s0, run)) && Legal(After(s0, run), later)
    ensures After(After(s0, run), later).log == After(s0, run).log
    ensures forall t: Task :: !InFlight(After(s0, run).log, t)
  {
    InitInv(s0, plans);
    RunInv(s0, run, plans);
    var s := After(s0, run);
    SilentAfterStop(s, later, plans);
    NoneInFlightAfterStop(s);
  }

  lemma NoneInFlightAfterStop(s: State)
    requires ShutdownInv(s) && PlaceInv(s) && StopReturned(s)
    ensures forall t: Task :: !InFlight(s.log, t)
  {
    forall t: Task ensures !InFlight(s.log, t) {
      assert forall e: nat :: !EnqHolds(s, e, t);
      assert forall w: nat :: !WorkHolds(s, w, t);
      assert !Placed(s, t);
    }
  }

  lemma SilentStep(s: State, a: Action)
    requires ShutdownInv(s) && StopReturned(s) && Enabled(s, a)
    ensures StopReturned(Step(s, a)) && Step(s, a).log == s.log
  {
  }

  lemma {:induction false} SilentAfterStop(s: State, run: seq<Action>, plans: seq<seq<Item>>)
    requires Inv(s, plans) && StopReturned(s) && Legal(s, run)
    ensures After(s, run).log == s.log
    decreases |run|
  {
    if run == [] {
    } else {
      StepInv(s, run[0], plans);
      SilentStep(s, run[0]);
      SilentAfterStop(Step(s, run[0]), run[1..], plans);
    }
  }

  // ---------- delivery ----------

  /**
    When the consumer has seen the result channel closed: every accepted task has been delivered
    exactly once, no lock is held, and each enqueuer has handed over a prefix of its plan, in order,
    the rest being what it dropped when it stopped.
   */
  lemma EveryResultOnce(s0: State, plans: seq<seq<Item>>, run: seq<Action>, t: Task, e: nat)
    requires Init(s0, plans) && Legal(s0, run) && e < |plans|
    ensures
      var s := After(s0, run);
      && Occurrences(s.log, Event(Deliver, t)) <= 1
      && Occurrences(s.log, Event(Deliver, t)) <= Occurrences(s.log, Event(Accept, t)) <= 1
      && |s.enqs| == |plans|
      && (s.consumer.Drained? ==>
            && Occurrences(s.log, Event(Deliver, t)) == Occurrences(s.log, Event(Accept, t))
            && s.readers == 0 && !s.writer && !s.pending
            && s.enqs[e].Stopped?
            && plans[e] == Served(s.log, e) + s.enqs[e].dropped)
  {
    InitInv(s0, plans);
    RunInv(s0, run, plans);
    var s := After(s0, run);
    if s.consumer.Drained? {
      NothingHappensAfterStop(s0, plans, run, []);
    }
    hide Legal, After, Init;
    ResultsOf(s, plans, t, e);
  }

  /** The same of one state which keeps the invariant. */
  lemma ResultsOf(s: State, plans: seq<seq<Item>>, t: Task, e: nat)
    requires Inv(s, plans) && e < |plans| && (s.consumer.Drained? ==> !InFlight(s.log, t))
    ensures
      && Occurrences(s.log, Event(Deliver, t)) <= 1
      && Occurrences(s.log, Event(Deliver, t)) <= Occurrences(s.log, Event(Accept, t)) <= 1
      && |s.enqs| == |plans|
      && (s.consumer.Drained? ==>
            && Occurrences(s.log, Event(Deliver, t)) == Occurrences(s.log, Event(Accept, t))
            && s.readers == 0 && !s.writer && !s.pending
            && s.enqs[e].Stopped?
            && plans[e] == Served(s.log, e) + s.enqs[e].dropped)
  {
    EachEventOnce(s.log, Deliver, t);
    EachEventOnce(s.log, Accept, t);
    hide Occurrences, PlaceInv, Disciplined, LockInv;
    if s.consumer.Drained? {
      NothingHeldOnceStopped(s);
      assert Served(s.log, e) + Unserved(s.enqs[e]) == plans[e];
    }
  }

  lemma NothingHeldOnceStopped(s: State)
    requires LockInv(s) && ShutdownInv(s) && StopReturned(s)
    ensures s.readers == 0 && !s.writer && !s.pending
  {
    CountZero(s.enqs, EnqShared);
    CountZero(s.enqs, EnqExclusive);
    CountZero(s.enqs, IsDraining);
    CountZero(s.workers, WorkShared);
    CountZero(s.workers, WorkExclusive);
  }

  /** A job queued with queueTaskWithBarrier is accepted as a barrier; the memory check can only add barriers. */
  lemma RequestedBarriersAreKept(s0: State, plans: seq<seq<Item>>, run: seq<Action>, i: nat)
    requires Init(s0, plans) && Legal(s0, run) && i < |After(s0, run).log|
    requires After(s0, run).log[i].Event?
    ensures
      var t := After(s0, run).log[i].task;
      t.item.Queue? && t.item.barrier ==> t.barrier
  {
    InitInv(s0, plans);
    RunInv(s0, run, plans);
  }

  // ---------- progress ----------

  /** Everything but the monitor has come to its end. */
  predicate Quiescent(s: State) {
    && s.consumer.Drained? && s.closer.Finished?
    && (forall e | 0 <= e < |s.enqs| :: s.enqs[e].Stopped?)
    && (forall w | 0 <= w < |s.workers| :: s.workers[w].Quit?)
  }

  /** An enqueuer stops though it has work left. */
  predicate GivesUp(s: State, a: Action) {
    a.Stop? && a.e < |s.enqs| && s.enqs[a.e].Planning? && s.enqs[a.e].todo != []
  }

  /** Some process other than the monitor can move, and not only by giving up. */
  ghost predicate CanProgress(s: State) { exists a: Action :: Enabled(s, a) && !a.Monitoring() && !GivesUp(s, a) }

  lemma Progresses(s: State, a: Action)
    requires Enabled(s, a) && !a.Monitoring() && !GivesUp(s, a)
    ensures CanProgress(s)
  {
  }

  lemma BusyWorkerProgresses(s: State, w: nat)
    requires LockInv(s) && ShutdownInv(s) && !s.consumer.Handling?
    requires w < |s.workers| && Busy(s.workers[w])
    ensures CanProgress(s)
  {
    CountZero(s.workers, WorkShared);
    CountZero(s.workers, WorkExclusive);
    assert if s.workers[w].task.barrier then WorkExclusive(s.workers[w]) else WorkShared(s.workers[w]);
    if s.workers[w].Executing? {
      Progresses(s, Return(w));
    } else if s.workers[w].Sending? {
      Progresses(s, SendResult(w));
    } else {
      Progresses(s, Unlock(w));
    }
  }

  lemma PlanProgresses(s: State, e: nat)
    requires s.consumer.Receiving? && e < |s.enqs| && s.enqs[e].Planning?
    ensures CanProgress(s)
  {
    var todo := s.enqs[e].todo;
    Progresses(s, if todo == [] then Stop(e) else if todo[0].Queue? then Take(e, false) else SendReport(e));
  }

  lemma EnqueuerProgresses(s: State, e: nat)
    requires LockInv(s) && PoolInv(s) && ShutdownInv(s) && !s.consumer.Handling?
    requires forall w | 0 <= w < |s.workers| :: !Busy(s.workers[w])
    requires e < |s.enqs| && !s.enqs[e].Stopped?
    ensures CanProgress(s)
  {
    if o :| 0 <= o < |s.enqs| && s.enqs[o].Offering? {
      assert !s.workers[0].Quit?;
      Progresses(s, Handoff(o, 0));
    } else {
      CountZero(s.enqs, EnqShared);
      CountZero(s.enqs, EnqExclusive);
      CountZero(s.workers, WorkShared);
      CountZero(s.workers, WorkExclusive);
      CountZero(s.enqs, IsDraining);
      if s.pending {
        var d :| 0 <= d < |s.enqs| && IsDraining(s.enqs[d]);
        Progresses(s, Lock(d));
      } else if s.enqs[e].Planning? {
        PlanProgresses(s, e);
      } else {
        assert !IsDraining(s.enqs[e]);
        Progresses(s, if s.enqs[e].exclusive then Announce(e) else RLock(e));
      }
    }
  }

  lemma ShutdownProgresses(s: State)
    requires LockInv(s) && PoolInv(s) && ShutdownInv(s)
    requires forall e | 0 <= e < |s.enqs| :: s.enqs[e].Stopped?
    requires forall w | 0 <= w < |s.workers| :: !Busy(s.workers[w])
    requires !s.consumer.Handling? && !Quiescent(s)
    ensures CanProgress(s)
  {
    if s.closer.AwaitEnqueuers? {
      Progresses(s, CloseQueue);
    } else if w :| 0 <= w < |s.workers| && s.workers[w].Idle? {
      CountZero(s.workers, Alive);
      assert Alive(s.workers[w]);
      Progresses(s, QuitWorker(w));
    } else {
      CountZero(s.workers, Alive);
      assert s.waitGroup == 0;
      match s.closer
      case AwaitWorkers => Progresses(s, WorkersDone);
      case StopMonitor => Progresses(s, CloseStopChannel);
      case CloseResults => Progresses(s, CloseResultChannel);
      case Finished => Progresses(s, ConsumerEnds);
    }
  }

  /**
    No reachable state is stuck: unless everything has come to its end, some process other than the
    monitor can move, whatever the monitor does, and without an enqueuer giving up work it has left.
   */
  lemma NoDeadlock(s0: State, plans: seq<seq<Item>>, run: seq<Action>)
    requires Init(s0, plans) && Legal(s0, run)
    ensures CanProgress(After(s0, run)) <==> !Quiescent(After(s0, run))
    ensures Quiescent(After(s0, run)) ==> forall a: Action | Enabled(After(s0, run), a) :: a.Monitoring()
  {
    InitInv(s0, plans);
    RunInv(s0, run, plans);
    NothingWhenQuiescent(After(s0, run));
    hide Legal, After, Init, Inv, CanProgress, Quiescent;
    CanProgressOrDone(After(s0, run), plans);
  }

  lemma NothingWhenQuiescent(s: State)
    ensures Quiescent(s) ==> forall a: Action | Enabled(s, a) :: a.Monitoring()
  {
  }

  lemma CanProgressOrDone(s: State, plans: seq<seq<Item>>)
    requires Inv(s, plans)
    ensures CanProgress(s) <==> !Quiescent(s)
  {
    if !Quiescent(s) {
      hide LockInv, PoolInv, ShutdownInv, LogInv, PlanInv, CanProgress;
      if s.consumer.Handling? {
        Progresses(s, Handled);
      } else if w: nat :| w < |s.workers| && Busy(s.workers[w]) {
        BusyWorkerProgresses(s, w);
      } else if e: nat :| e < |s.enqs| && !s.enqs[e].Stopped? {
        EnqueuerProgresses(s, e);
      } else {
        ShutdownProgresses(s);
      }
    }
  }

  // ---------- termination ----------

  function EnqWork(q: Enqueuer): nat {
    match q
    case Planning(todo) => 1 + 10 * |todo|
    case AtLock(_, _, todo) => 10 + 10 * |todo|
    case Draining(_, todo) => 9 + 10 * |todo|
    case Offering(_, todo) => 8 + 10 * |todo|
    case Stopped(_) => 0
  }

  function WorkerWork(w: Worker): nat {
    match w
    case Quit => 0
    case Idle => 1
    case Releasing(_) => 4
    case Sending(_) => 6
    case Executing(_) => 7
  }

  function Sum<T>(xs: seq<T>, f: T -> nat): nat {
    if xs == [] then 0 else Sum(xs[..|xs| - 1], f) + f(xs[|xs| - 1])
  }

  lemma {:induction false} SumUpdate<T>(xs: seq<T>, i: nat, x: T, f: T -> nat)
    requires i < |xs|
    ensures Sum(xs[i := x], f) + f(xs[i]) == Sum(xs, f) + f(x)
  {
    var last := |xs| - 1;
    if i == last {
      assert xs[i := x][..last] == xs[..last];
    } else {
      assert xs[i := x][..last] == xs[..last][i := x];
      SumUpdate(xs[..last], i, x, f);
    }
  }

  /** The work left in a state: an upper bound on the actions still possible outside the monitor. */
  function WorkLeft(s: State): int {
    Sum(s.enqs, EnqWork) + Sum(s.workers, WorkerWork) + (s.cap - |s.workers|)
    + (match s.consumer case Drained => 0 case Receiving => 1 case Handling => 2)
    + (match s.closer case AwaitEnqueuers => 4 case AwaitWorkers => 3 case StopMonitor => 2 case CloseResults => 1 case Finished => 0)
  }

  lemma EnqueuerStepWorks(s: State, a: Action)
    requires EnqueuerEnabled(s, a)
    ensures WorkLeft(EnqueuerStep(s, a)) < WorkLeft(s)
  {
    var s' := EnqueuerStep(s, a);
    assert s'.enqs == s.enqs[a.e := s'.enqs[a.e]];
    SumUpdate(s.enqs, a.e, s'.enqs[a.e], EnqWork);
  }

  lemma WorkerStepWorks(s: State, a: Action)
    requires WorkerEnabled(s, a)
    ensures WorkLeft(WorkerStep(s, a)) < WorkLeft(s)
  {
    var s' := WorkerStep(s, a);
    assert s'.workers == s.workers[a.w := s'.workers[a.w]];
    SumUpdate(s.workers, a.w, s'.workers[a.w], WorkerWork);
    if a.Handoff? {
      assert s'.enqs == s.enqs[a.e := s'.enqs[a.e]];
      SumUpdate(s.enqs, a.e, s'.enqs[a.e], EnqWork);
    }
  }

  lemma ControlStepWorks(s: State, a: Action)
    requires ControlEnabled(s, a)
    ensures WorkLeft(ControlStep(s, a)) <= WorkLeft(s)
    ensures !a.Monitoring() ==> WorkLeft(ControlStep(s, a)) < WorkLeft(s)
  {
    hide Sum, EnqWork;
    if a.Spawn? {
      SumSnoc(s.workers, Idle, WorkerWork);
    }
  }

  lemma SumSnoc<T>(xs: seq<T>, x: T, f: T -> nat)
    ensures Sum(xs + [x], f) == Sum(xs, f) + f(x)
  {
    assert (xs + [x])[..|xs|] == xs;
  }

  lemma StepWorks(s: State, a: Action)
    requires Enabled(s, a)
    ensures WorkLeft(Step(s, a)) <= WorkLeft(s)
    ensures !a.Monitoring() ==> WorkLeft(Step(s, a)) < WorkLeft(s)
  {
    if EnqueuerEnabled(s, a) {
      EnqueuerStepWorks(s, a);
    } else if WorkerEnabled(s, a) {
      WorkerStepWorks(s, a);
    } else {
      ControlStepWorks(s, a);
    }
  }

  function WorkDone(run: seq<Action>): nat
    decreases |run|
  {
    if run == [] then 0 else (if run[0].Monitoring() then 0 else 1) + WorkDone(run[1..])
  }

  lemma {:induction false} RunWorks(s: State, run: seq<Action>)
    requires Legal(s, run)
    ensures WorkDone(run) + WorkLeft(After(s, run)) <= WorkLeft(s)
    decreases |run|
  {
    if run == [] {
    } else {
      StepWorks(s, run[0]);
      RunWorks(Step(s, run[0]), run[1..]);
    }
  }

  /**
    However the processes interleave, a run holds at most `WorkLeft(s0)` actions outside the monitor,
    and a run that cannot be extended by one has delivered every result and closed everything.
   */
  lemma RunsEnd(s0: State, plans: seq<seq<Item>>, run: seq<Action>)
    requires Init(s0, plans) && Legal(s0, run)
    ensures WorkDone(run) <= WorkLeft(s0)
    ensures !CanProgress(After(s0, run)) ==> Quiescent(After(s0, run))
  {
    RunWorks(s0, run);
    WorkersNeverExceedCap(s0, plans, run);
    NoDeadlock(s0, plans, run);
  }
}
