/** What the calls of each enqueuer become, that plans are carried out in full, and how much can go on at once. */
module ParallelManagerRuns {
  import opened Counting
  import opened ParallelManager
  import opened ParallelManagerInvariant
  import opened ParallelManagerTheorems

  // ---------- which tasks are barriers ----------

  /** For each call of an enqueuer, in order, whether the memory check made a barrier of it. */
  function Promotions(run: seq<Action>, e: nat): seq<bool>
    decreases |run|
  {
    if run == [] then []
    else (if run[0].Take? && run[0].e == e then [run[0].promote] else []) + Promotions(run[1..], e)
  }

  /** The accepted tasks of an enqueuer, in order. */
  function AcceptedOf(log: seq<Event>, e: nat): seq<Task> {
    if log == [] then []
    else
      var last := log[|log| - 1];
      AcceptedOf(log[..|log| - 1], e)
      + if last.Event? && last.kind.Accept? && last.task.owner == e then [last.task] else []
  }

  predicate AsAsked(t: Task, promoted: bool) { t.item.Queue? && t.barrier == (t.item.barrier || promoted) }

  /** The call an enqueuer has begun, while its lock is not yet taken. */
  predicate CallAsAsked(q: Enqueuer, promoted: bool) {
    match q
    case AtLock(item, exclusive, _) => item.Queue? && exclusive == (item.barrier || promoted)
    case Draining(item, _) => item.Queue? && (item.barrier || promoted)
    case _ => false
  }

  /** The calls so far are the accepted tasks of the enqueuer, and the one it is waiting with. */
  ghost predicate Tied(s: State, e: nat, promotions: seq<bool>) {
    var tasks := AcceptedOf(s.log, e);
    if e >= |s.enqs| then tasks == [] && promotions == [] else
    var q := s.enqs[e];
    && |promotions| == |tasks| + (if q.AtLock? || q.Draining? then 1 else 0)
    && (forall k | 0 <= k < |tasks| :: AsAsked(tasks[k], promotions[k]))
    && (q.AtLock? || q.Draining? ==> CallAsAsked(q, promotions[|tasks|]))
  }

  lemma AcceptedSnoc(log: seq<Event>, ev: Event, e: nat)
    ensures AcceptedOf(log + [ev], e)
         == AcceptedOf(log, e) + if ev.Event? && ev.kind.Accept? && ev.task.owner == e then [ev.task] else []
  {
    assert (log + [ev])[..|log|] == log;
  }

  lemma TiedByEnqueuer(s: State, a: Action, e: nat, promotions: seq<bool>)
    requires EnqueuerEnabled(s, a) && Tied(s, e, promotions)
    ensures Tied(EnqueuerStep(s, a), e, promotions + if a.Take? && a.e == e then [a.promote] else [])
  {
    var s' := EnqueuerStep(s, a);
    if s'.log != s.log {
      AcceptedSnoc(s.log, s'.log[|s.log|], e);
    }
    hide AcceptedOf;
  }

  lemma TiedByWorker(s: State, a: Action, e: nat, promotions: seq<bool>)
    requires WorkerEnabled(s, a) && Tied(s, e, promotions)
    ensures Tied(WorkerStep(s, a), e, promotions)
  {
    WorkersAcceptNothing(s, a, e);
    WorkersTakeTasks(s, a, e);
    hide AcceptedOf, AsAsked, CallAsAsked, WorkerStep, WorkerEnabled;
  }

  lemma WorkersTakeTasks(s: State, a: Action, e: nat)
    requires WorkerEnabled(s, a)
    ensures var s' := WorkerStep(s, a);
      && |s'.enqs| == |s.enqs|
      && (e < |s.enqs| ==> s'.enqs[e] == s.enqs[e] || (s.enqs[e].Offering? && s'.enqs[e].Planning?))
  {
  }

  lemma WorkersAcceptNothing(s: State, a: Action, e: nat)
    requires WorkerEnabled(s, a)
    ensures AcceptedOf(WorkerStep(s, a).log, e) == AcceptedOf(s.log, e)
  {
    var s' := WorkerStep(s, a);
    if s'.log != s.log {
      AcceptedSnoc(s.log, s'.log[|s.log|], e);
    }
    hide AcceptedOf;
    assert AcceptedOf(s.log, e) + [] == AcceptedOf(s.log, e);
  }

  lemma TiedByControl(s: State, a: Action, e: nat, promotions: seq<bool>)
    requires ControlEnabled(s, a) && Tied(s, e, promotions)
    ensures Tied(ControlStep(s, a), e, promotions)
  {
    hide AcceptedOf;
  }

  lemma TiedByStep(s: State, a: Action, e: nat, promotions: seq<bool>)
    requires Enabled(s, a) && Tied(s, e, promotions)
    ensures Tied(Step(s, a), e, promotions + if a.Take? && a.e == e then [a.promote] else [])
  {
    assert promotions + [] == promotions;
    hide Tied, EnqueuerStep, WorkerStep, ControlStep;
    if EnqueuerEnabled(s, a) {
      TiedByEnqueuer(s, a, e, promotions);
    } else if WorkerEnabled(s, a) {
      TiedByWorker(s, a, e, promotions);
    } else {
      TiedByControl(s, a, e, promotions);
    }
  }

  lemma {:induction false} RunIsTied(s: State, run: seq<Action>, e: nat, promotions: seq<bool>)
    requires Legal(s, run) && Tied(s, e, promotions)
    ensures Tied(After(s, run), e, promotions + Promotions(run, e))
    decreases |run|
  {
    if run == [] {
      assert promotions + [] == promotions;
    } else {
      var now := promotions + if run[0].Take? && run[0].e == e then [run[0].promote] else [];
      assert promotions + Promotions(run, e) == now + Promotions(run[1..], e);
      hide *;
      TiedByStep(s, run[0], e, promotions);
      RunIsTied(Step(s, run[0]), run[1..], e, now);
    }
  }

  /**
    In any run, the k-th accepted task of an enqueuer is the k-th of its calls, and is a barrier exactly
    if its job asks for one or the memory check of that very call made it one.
   */
  lemma BarriersExactlyAsAsked(s0: State, plans: seq<seq<Item>>, run: seq<Action>, e: nat, k: nat)
    requires Init(s0, plans) && Legal(s0, run)
    requires k < |AcceptedOf(After(s0, run).log, e)|
    ensures var t := AcceptedOf(After(s0, run).log, e)[k];
      t.item.Queue? && k < |Promotions(run, e)| && (t.barrier <==> t.item.barrier || Promotions(run, e)[k])
  {
    assert Tied(s0, e, []);
    RunIsTied(s0, run, e, []);
    assert [] + Promotions(run, e) == Promotions(run, e);
  }

  lemma {:induction false} NoPromotion(run: seq<Action>, e: nat)
    requires forall i | 0 <= i < |run| :: run[i].Take? ==> !run[i].promote
    ensures forall k | 0 <= k < |Promotions(run, e)| :: !Promotions(run, e)[k]
    decreases |run|
  {
    if run == [] {
    } else {
      NoPromotion(run[1..], e);
    }
  }

  lemma {:induction false} AcceptedAt(log: seq<Event>, t: Task) returns (k: nat)
    requires Event(Accept, t) in log
    ensures k < |AcceptedOf(log, t.owner)| && AcceptedOf(log, t.owner)[k] == t
    decreases |log|
  {
    var last := |log| - 1;
    if log[last] == Event(Accept, t) {
      k := |AcceptedOf(log[..last], t.owner)|;
    } else {
      assert log == log[..last] + [log[last]];
      k := AcceptedAt(log[..last], t);
    }
  }

  /** With enough memory throughout, ordinary jobs stay ordinary and only what was asked for runs alone. */
  lemma EnoughMemoryKeepsJobs(s0: State, plans: seq<seq<Item>>, run: seq<Action>, t: Task)
    requires Init(s0, plans) && Legal(s0, run) && Event(Accept, t) in After(s0, run).log
    requires forall i | 0 <= i < |run| :: run[i].Take? ==> !run[i].promote
    ensures t.item.Queue? && t.barrier == t.item.barrier
  {
    var k := AcceptedAt(After(s0, run).log, t);
    NoPromotion(run, t.owner);
    BarriersExactlyAsAsked(s0, plans, run, t.owner, k);
  }

  // ---------- jobs are run and reports passed on ----------

  /** Tasks are made of jobs, and only reports are sent straight to the result channel. */
  predicate Typed(s: State) {
    && (forall i | 0 <= i < |s.log| ::
          match s.log[i] case Event(_, task) => task.item.Queue? case Reported(_, item) => item.Report?)
    && (forall e | 0 <= e < |s.enqs| ::
          match s.enqs[e]
          case AtLock(item, _, _) => item.Queue?
          case Draining(item, _) => item.Queue?
          case Offering(task, _) => task.item.Queue?
          case _ => true)
    && (forall w | 0 <= w < |s.workers| :: Busy(s.workers[w]) ==> s.workers[w].task.item.Queue?)
  }

  lemma TypedByEnqueuer(s: State, a: Action)
    requires Typed(s) && EnqueuerEnabled(s, a)
    ensures Typed(EnqueuerStep(s, a))
  {
  }

  lemma TypedByWorker(s: State, a: Action)
    requires Typed(s) && WorkerEnabled(s, a)
    ensures Typed(WorkerStep(s, a))
  {
  }

  lemma TypedByControl(s: State, a: Action)
    requires Typed(s) && ControlEnabled(s, a)
    ensures Typed(ControlStep(s, a))
  {
  }

  lemma TypedStep(s: State, a: Action)
    requires Typed(s) && Enabled(s, a)
    ensures Typed(Step(s, a))
  {
    hide Typed, EnqueuerStep, WorkerStep, ControlStep, EnqueuerEnabled, WorkerEnabled, ControlEnabled;
    if EnqueuerEnabled(s, a) {
      TypedByEnqueuer(s, a);
    } else if WorkerEnabled(s, a) {
      TypedByWorker(s, a);
    } else {
      TypedByControl(s, a);
    }
  }

  lemma {:induction false} TypedRun(s: State, run: seq<Action>)
    requires Typed(s) && Legal(s, run)
    ensures Typed(After(s, run))
    decreases |run|
  {
    if run == [] {
    } else {
      TypedStep(s, run[0]);
      hide Typed, Enabled, Step;
      TypedRun(Step(s, run[0]), run[1..]);
    }
  }

  /** In every run what is accepted, started, delivered or released is a job, and what is sent past the pool is a report. */
  lemma JobsAreRun(s0: State, plans: seq<seq<Item>>, run: seq<Action>, i: nat)
    requires Init(s0, plans) && Legal(s0, run) && i < |After(s0, run).log|
    ensures match After(s0, run).log[i] case Event(_, task) => task.item.Queue? case Reported(_, item) => item.Report?
  {
    TypedRun(s0, run);
  }

  /** Nobody sends on a closed channel: who offers a task finds the queue open, and who has a result the result channel. */
  lemma NothingIsSentAfterClose(s0: State, plans: seq<seq<Item>>, run: seq<Action>)
    requires Init(s0, plans) && Legal(s0, run)
    ensures var s := After(s0, run);
      && (forall e | 0 <= e < |s.enqs| :: s.enqs[e].Offering? ==> s.closer.AwaitEnqueuers?)
      && (forall e | 0 <= e < |s.enqs| :: s.enqs[e].Planning? ==> !s.closer.Finished?)
      && (forall w | 0 <= w < |s.workers| :: s.workers[w].Sending? ==> !s.closer.Finished?)
  {
    InitInv(s0, plans);
    RunInv(s0, run, plans);
    hide After, Legal, Init, LogInv, LockInv, PoolInv, PlanInv;
  }

  // ---------- tickets and results, one by one ----------

  predicate IsAccept(ev: Event) { ev.Event? && ev.kind.Accept? }

  predicate IsResult(ev: Event) { ev.Reported? || ev.kind.Deliver? }

  /** How often the consumer has finished with a result. */
  function HandledIn(run: seq<Action>): nat
    decreases |run|
  {
    if run == [] then 0 else (if run[0].Handled? then 1 else 0) + HandledIn(run[1..])
  }

  predicate TicketsInv(s: State) {
    && s.tickets == Count(s.log, IsAccept)
    && forall i | 0 <= i < |s.log| && IsAccept(s.log[i]) :: s.log[i].task.ticket == Count(s.log[..i], IsAccept)
  }

  lemma TicketsSnoc(log: seq<Event>, ev: Event)
    requires forall i | 0 <= i < |log| && IsAccept(log[i]) :: log[i].task.ticket == Count(log[..i], IsAccept)
    requires IsAccept(ev) ==> ev.task.ticket == Count(log, IsAccept)
    ensures var now := log + [ev];
      && Count(now, IsAccept) == Count(log, IsAccept) + Bit(IsAccept(ev))
      && Count(now, IsResult) == Count(log, IsResult) + Bit(IsResult(ev))
      && forall i | 0 <= i < |now| && IsAccept(now[i]) :: now[i].task.ticket == Count(now[..i], IsAccept)
  {
    CountSnoc(log, ev, IsAccept);
    CountSnoc(log, ev, IsResult);
    hide Count;
    forall i | 0 <= i <= |log| ensures (log + [ev])[..i] == log[..i] {
    }
  }

  /** What one action adds to the log, and what it does to tickets and consumer. */
  ghost predicate Logged(s: State, s': State, handled: bool) {
    if s'.log == s.log then s'.tickets == s.tickets && Bit(s'.consumer.Handling?) + Bit(handled) == Bit(s.consumer.Handling?)
    else
      && |s'.log| == |s.log| + 1 && s'.log == s.log + [s'.log[|s.log|]]
      && var ev := s'.log[|s.log|];
         && s'.tickets == s.tickets + Bit(IsAccept(ev))
         && (IsAccept(ev) ==> ev.task.ticket == s.tickets)
         && !handled && Bit(s'.consumer.Handling?) == Bit(s.consumer.Handling?) + Bit(IsResult(ev))
  }

  lemma EnqueuerLogs(s: State, a: Action)
    requires EnqueuerEnabled(s, a)
    ensures Logged(s, EnqueuerStep(s, a), false) && !a.Handled?
  {
  }

  lemma WorkerLogs(s: State, a: Action)
    requires WorkerEnabled(s, a)
    ensures Logged(s, WorkerStep(s, a), false) && !a.Handled?
  {
  }

  lemma ControlLogs(s: State, a: Action)
    requires ControlEnabled(s, a)
    ensures Logged(s, ControlStep(s, a), a.Handled?)
  {
  }

  lemma StepLogs(s: State, a: Action)
    requires Enabled(s, a)
    ensures Logged(s, Step(s, a), a.Handled?)
  {
    hide Logged, EnqueuerStep, WorkerStep, ControlStep, EnqueuerEnabled, WorkerEnabled, ControlEnabled;
    if EnqueuerEnabled(s, a) {
      EnqueuerLogs(s, a);
    } else if WorkerEnabled(s, a) {
      WorkerLogs(s, a);
    } else {
      ControlLogs(s, a);
    }
  }

  lemma CountsInStep(s: State, s': State, handled: bool)
    requires TicketsInv(s) && Logged(s, s', handled)
    ensures TicketsInv(s')
    ensures Count(s'.log, IsResult) + Bit(s.consumer.Handling?)
         == Count(s.log, IsResult) + Bit(handled) + Bit(s'.consumer.Handling?)
  {
    hide IsAccept, IsResult, Count;
    if s'.log != s.log {
      TicketsSnoc(s.log, s'.log[|s.log|]);
    }
  }

  lemma {:induction false} CountsInRun(s: State, run: seq<Action>)
    requires TicketsInv(s) && Legal(s, run)
    ensures TicketsInv(After(s, run))
    ensures Count(After(s, run).log, IsResult) + Bit(s.consumer.Handling?)
         == Count(s.log, IsResult) + HandledIn(run) + Bit(After(s, run).consumer.Handling?)
    decreases |run|
  {
    if run == [] {
    } else {
      hide Step, Enabled, TicketsInv, Logged, Count;
      StepLogs(s, run[0]);
      CountsInStep(s, Step(s, run[0]), run[0].Handled?);
      CountsInRun(Step(s, run[0]), run[1..]);
    }
  }

  /**
    In every run a task's ticket is its rank in the order of acceptance, and the consumer takes one result
    at a time: it has finished with all it received but the one it may be handling.
   */
  lemma OneByOne(s0: State, plans: seq<seq<Item>>, run: seq<Action>)
    requires Init(s0, plans) && Legal(s0, run)
    ensures var s := After(s0, run);
      && (forall i | 0 <= i < |s.log| && IsAccept(s.log[i]) :: s.log[i].task.ticket == Count(s.log[..i], IsAccept))
      && Count(s.log, IsResult) == HandledIn(run) + Bit(s.consumer.Handling?)
  {
    CountsInRun(s0, run);
  }

  // ---------- plans are carried out in full ----------

  /** No enqueuer stops with work left. */
  predicate Diligent(s: State, run: seq<Action>)
    requires Legal(s, run)
    decreases |run|
  {
    run == [] || (!GivesUp(s, run[0]) && Diligent(Step(s, run[0]), run[1..]))
  }

  predicate NothingDropped(s: State) {
    forall e | 0 <= e < |s.enqs| :: s.enqs[e].Stopped? ==> s.enqs[e].dropped == []
  }

  lemma DiligentStep(s: State, a: Action)
    requires Enabled(s, a) && !GivesUp(s, a) && NothingDropped(s)
    ensures NothingDropped(Step(s, a))
  {
  }

  lemma {:induction false} DiligentRun(s: State, run: seq<Action>)
    requires Legal(s, run) && Diligent(s, run) && NothingDropped(s)
    ensures NothingDropped(After(s, run))
    decreases |run|
  {
    if run == [] {
    } else {
      DiligentStep(s, run[0]);
      DiligentRun(Step(s, run[0]), run[1..]);
    }
  }

  lemma Cons(s: State, a: Action, run: seq<Action>)
    requires Enabled(s, a) && Legal(Step(s, a), run)
    ensures Legal(s, [a] + run) && After(s, [a] + run) == After(Step(s, a), run)
    ensures Diligent(s, [a] + run) <==> !GivesUp(s, a) && Diligent(Step(s, a), run)
  {
    assert ([a] + run)[1..] == run;
  }

  /** From every state of a run it can go on, without anyone giving up, until everything has come to its end. */
  lemma {:induction false} CanFinish(s: State, plans: seq<seq<Item>>) returns (run: seq<Action>)
    requires Inv(s, plans)
    ensures Legal(s, run) && Diligent(s, run) && Quiescent(After(s, run))
    decreases if WorkLeft(s) < 0 then 0 else WorkLeft(s)
  {
    run := [];
    CanProgressOrDone(s, plans);
    if CanProgress(s) {
      var a: Action :| Enabled(s, a) && !a.Monitoring() && !GivesUp(s, a);
      hide Inv, Quiescent, Enabled, Step, GivesUp;
      StepInv(s, a, plans);
      StepWorks(s, a);
      WorkLeftIsNat(s, plans);
      WorkLeftIsNat(Step(s, a), plans);
      var rest := CanFinish(Step(s, a), plans);
      Cons(s, a, rest);
      run := [a] + rest;
    }
  }

  lemma WorkLeftIsNat(s: State, plans: seq<seq<Item>>)
    requires Inv(s, plans)
    ensures WorkLeft(s) >= 0
  {
  }

  /**
    In a run in which nobody gives up and which has come to its end, every enqueuer has handed over its
    whole plan, in order; and every run in which nobody gives up can be continued to such an end.
   */
  lemma PlansAreServed(s0: State, plans: seq<seq<Item>>, run: seq<Action>) returns (rest: seq<Action>)
    requires Init(s0, plans) && Legal(s0, run) && Diligent(s0, run)
    ensures Legal(After(s0, run), rest) && Diligent(After(s0, run), rest) && Quiescent(After(After(s0, run), rest))
    ensures forall e | 0 <= e < |plans| :: Served(After(After(s0, run), rest).log, e) == plans[e]
    ensures Quiescent(After(s0, run)) ==> forall e | 0 <= e < |plans| :: Served(After(s0, run).log, e) == plans[e]
  {
    InitInv(s0, plans);
    DiligentRun(s0, run);
    RunInv(s0, run, plans);
    var s := After(s0, run);
    hide Inv, Init, Quiescent, NothingDropped, Legal, After, Diligent;
    rest := CanFinish(s, plans);
    DiligentRun(s, rest);
    RunInv(s, rest, plans);
    ServedWhenDone(s, plans);
    ServedWhenDone(After(s, rest), plans);
  }

  lemma ServedWhenDone(s: State, plans: seq<seq<Item>>)
    requires Inv(s, plans) && NothingDropped(s)
    ensures Quiescent(s) ==> forall e | 0 <= e < |plans| :: Served(s.log, e) == plans[e]
  {
    hide LockInv, PoolInv, ShutdownInv, LogInv, Served;
    if Quiescent(s) {
      forall e | 0 <= e < |plans| ensures Served(s.log, e) == plans[e] {
        assert Served(s.log, e) + Unserved(s.enqs[e]) == plans[e];
        assert Unserved(s.enqs[e]) == [];
      }
    }
  }

  // ---------- how much goes on at once ----------

  /** The pool is being filled: nothing else has happened, and the monitor still has workers to add. */
  predicate Filling(s: State) {
    && s.monitor.Checking? && s.workersNum == |s.workers| <= s.cap && s.monitor.left >= s.cap - |s.workers|
  }

  lemma {:induction false} FillPool(s: State) returns (run: seq<Action>)
    requires Filling(s)
    ensures Legal(s, run) && |After(s, run).workers| == s.cap
    ensures After(s, run).(workers := s.workers, workersNum := s.workersNum, waitGroup := s.waitGroup, monitor := s.monitor)
         == s
    ensures s.workers <= After(s, run).workers
    ensures forall w | |s.workers| <= w < s.cap :: After(s, run).workers[w] == Idle
    decreases s.cap - |s.workers|
  {
    if |s.workers| == s.cap {
      run := [];
    } else {
      var s1 := Step(s, CheckCap);
      var s2 := Step(s1, Increment);
      var s3 := Step(s2, Spawn);
      var rest := FillPool(s3);
      Cons(s2, Spawn, rest);
      Cons(s1, Increment, [Spawn] + rest);
      Cons(s, CheckCap, [Increment] + ([Spawn] + rest));
      run := [CheckCap] + ([Increment] + ([Spawn] + rest));
    }
  }

  /** The next item of the plan is an ordinary job. */
  predicate OrdinaryNext(q: Enqueuer) { q.Planning? && q.todo != [] && q.todo[0].Queue? && !q.todo[0].barrier }

  /** The first `i` enqueuers have their jobs executing, the others have ordinary jobs next, and workers are free for them. */
  predicate Started(s: State, i: nat) {
    && i <= |s.enqs| <= |s.workers| && !s.writer && !s.pending && s.closer.AwaitEnqueuers?
    && (forall e | 0 <= e < i :: s.workers[e].Executing? && s.workers[e].task.owner == e)
    && (forall e | i <= e < |s.enqs| :: OrdinaryNext(s.enqs[e]))
    && (forall w | i <= w < |s.workers| :: s.workers[w].Idle?)
  }

  lemma StartOne(s: State, i: nat)
    requires Started(s, i) && i < |s.enqs|
    ensures Enabled(s, Take(i, false))
    ensures Enabled(Step(s, Take(i, false)), RLock(i))
    ensures Enabled(Step(Step(s, Take(i, false)), RLock(i)), Handoff(i, i))
    ensures Started(Step(Step(Step(s, Take(i, false)), RLock(i)), Handoff(i, i)), i + 1)
    ensures |Step(Step(Step(s, Take(i, false)), RLock(i)), Handoff(i, i)).enqs| == |s.enqs|
  {
  }

  lemma {:induction false} StartAll(s: State, i: nat) returns (run: seq<Action>)
    requires Started(s, i)
    ensures Legal(s, run) && |After(s, run).enqs| == |s.enqs| && Started(After(s, run), |s.enqs|)
    decreases |s.enqs| - i
  {
    if i == |s.enqs| {
      run := [];
    } else {
      StartOne(s, i);
      hide Started, Enabled, Step;
      var s1 := Step(s, Take(i, false));
      var s2 := Step(s1, RLock(i));
      var rest := StartAll(Step(s2, Handoff(i, i)), i + 1);
      Cons(s2, Handoff(i, i), rest);
      Cons(s1, RLock(i), [Handoff(i, i)] + rest);
      Cons(s, Take(i, false), [RLock(i)] + ([Handoff(i, i)] + rest));
      run := [Take(i, false)] + ([RLock(i)] + ([Handoff(i, i)] + rest));
    }
  }

  lemma {:induction false} Append(s: State, run: seq<Action>, more: seq<Action>)
    requires Legal(s, run) && Legal(After(s, run), more)
    ensures Legal(s, run + more) && After(s, run + more) == After(After(s, run), more)
    decreases |run|
  {
    if run == [] {
      assert run + more == more;
    } else {
      assert (run + more)[1..] == run[1..] + more;
      hide Enabled, Step;
      Append(Step(s, run[0]), run[1..], more);
    }
  }

  /**
    Ordinary jobs do run in parallel, up to the cap: if that many enqueuers begin with one, in some run
    a job of each of them is being executed at the same time.
   */
  lemma AllRunTogether(s0: State, plans: seq<seq<Item>>) returns (run: seq<Action>)
    requires Init(s0, plans) && |plans| <= s0.cap
    requires forall e | 0 <= e < |plans| :: plans[e] != [] && plans[e][0].Queue? && !plans[e][0].barrier
    ensures Legal(s0, run)
    ensures var s := After(s0, run);
      |plans| <= |s.workers| && forall e | 0 <= e < |plans| :: s.workers[e].Executing? && s.workers[e].task.owner == e
  {
    var s1 := Step(s0, Tick(s0.cap));
    var fill := FillPool(s1);
    var s2 := After(s1, fill);
    assert Started(s2, 0) by {
      forall w | 0 <= w < |s2.workers| ensures s2.workers[w].Idle? {
        assert w < |s0.workers| ==> s2.workers[w] == s0.workers[w];
      }
      assert s2.enqs == s0.enqs;
    }
    var start := StartAll(s2, 0);
    hide Enabled, Step;
    Append(s1, fill, start);
    Cons(s0, Tick(s0.cap), fill + start);
    run := [Tick(s0.cap)] + (fill + start);
  }

  // ---------- the monitor ----------

  function MonitorWork(m: Monitor): nat {
    match m
    case Ticking => 1
    case Checking(left) => 3 * left + 2
    case Admitted(left) => 3 * left + 1
    case Counted(left) => 3 * left
    case Ended => 0
  }

  /** Once its stop channel is closed the monitor can end at its next turn, after at most adding the workers it began with. */
  lemma {:induction false} MonitorStops(s: State) returns (run: seq<Action>)
    requires PoolInv(s) && (s.closer.CloseResults? || s.closer.Finished?)
    ensures Legal(s, run) && After(s, run).monitor.Ended?
    ensures forall a | a in run :: a == CheckCap || a == Increment || a == Spawn || a == MonitorEnds
    decreases MonitorWork(s.monitor)
  {
    run := [];
    if s.monitor.Ended? {
    } else {
      var a: Action := match s.monitor
        case Ticking => MonitorEnds
        case Checking(_) => CheckCap
        case Admitted(_) => Increment
        case _ => Spawn;
      PoolKeptByControl(s, a);
      var rest := MonitorStops(Step(s, a));
      Cons(s, a, rest);
      run := [a] + rest;
    }
  }

  lemma RunStopsMonitor(s0: State, plans: seq<seq<Item>>, run: seq<Action>) returns (rest: seq<Action>)
    requires Init(s0, plans) && Legal(s0, run)
    requires After(s0, run).closer.CloseResults? || After(s0, run).closer.Finished?
    ensures Legal(After(s0, run), rest) && After(After(s0, run), rest).monitor.Ended?
    ensures forall a | a in rest :: a == CheckCap || a == Increment || a == Spawn || a == MonitorEnds
  {
    InitInv(s0, plans);
    RunInv(s0, run, plans);
    hide Legal, After, Init;
    rest := MonitorStops(After(s0, run));
  }
}
