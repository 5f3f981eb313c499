/** Every action keeps the invariant of the worker pool. */
module ParallelManagerInvariant {
  import opened Counting
  import opened ParallelManager

  // ---------- locks ----------

  lemma EnqCounts(enqs: seq<Enqueuer>, e: nat, q: Enqueuer)
    requires e < |enqs|
    ensures Count(enqs[e := q], EnqShared) + Bit(EnqShared(enqs[e])) == Count(enqs, EnqShared) + Bit(EnqShared(q))
    ensures Count(enqs[e := q], EnqExclusive) + Bit(EnqExclusive(enqs[e]))
         == Count(enqs, EnqExclusive) + Bit(EnqExclusive(q))
    ensures Count(enqs[e := q], IsDraining) + Bit(IsDraining(enqs[e])) == Count(enqs, IsDraining) + Bit(IsDraining(q))
  {
    CountUpdate(enqs, e, q, EnqShared);
    CountUpdate(enqs, e, q, EnqExclusive);
    CountUpdate(enqs, e, q, IsDraining);
  }

  lemma WorkCounts(workers: seq<Worker>, w: nat, x: Worker)
    requires w < |workers|
    ensures Count(workers[w := x], WorkShared) + Bit(WorkShared(workers[w]))
         == Count(workers, WorkShared) + Bit(WorkShared(x))
    ensures Count(workers[w := x], WorkExclusive) + Bit(WorkExclusive(workers[w]))
         == Count(workers, WorkExclusive) + Bit(WorkExclusive(x))
    ensures Count(workers[w := x], Alive) + Bit(Alive(workers[w])) == Count(workers, Alive) + Bit(Alive(x))
  {
    CountUpdate(workers, w, x, WorkShared);
    CountUpdate(workers, w, x, WorkExclusive);
    CountUpdate(workers, w, x, Alive);
  }

  lemma LockKeptByEnqueuer(s: State, a: Action)
    requires LockInv(s) && EnqueuerEnabled(s, a)
    ensures LockInv(EnqueuerStep(s, a))
  {
    var s' := EnqueuerStep(s, a);
    assert s'.enqs == s.enqs[a.e := s'.enqs[a.e]];
    EnqCounts(s.enqs, a.e, s'.enqs[a.e]);
    if s.enqs[a.e].Draining? {
      CountZero(s.enqs, IsDraining);
    }
  }

  lemma LockKeptByWorker(s: State, a: Action)
    requires LockInv(s) && WorkerEnabled(s, a)
    ensures LockInv(WorkerStep(s, a))
  {
    var s' := WorkerStep(s, a);
    assert s'.workers == s.workers[a.w := s'.workers[a.w]];
    WorkCounts(s.workers, a.w, s'.workers[a.w]);
    if a.Handoff? {
      assert s'.enqs == s.enqs[a.e := s'.enqs[a.e]];
      EnqCounts(s.enqs, a.e, s'.enqs[a.e]);
    }
  }

  lemma SameLock(s: State, s': State)
    requires LockInv(s) && s'.enqs == s.enqs && s'.readers == s.readers && s'.writer == s.writer && s'.pending == s.pending
    requires s'.workers == s.workers || s'.workers == s.workers + [Idle]
    ensures LockInv(s')
  {
    CountSnoc(s.workers, Idle, WorkShared);
    CountSnoc(s.workers, Idle, WorkExclusive);
  }

  lemma LockKeptByControl(s: State, a: Action)
    requires LockInv(s) && ControlEnabled(s, a)
    ensures LockInv(ControlStep(s, a))
  {
    SameLock(s, ControlStep(s, a));
  }

  // ---------- pool ----------

  lemma PoolKeptByEnqueuer(s: State, a: Action)
    requires PoolInv(s) && EnqueuerEnabled(s, a)
    ensures PoolInv(EnqueuerStep(s, a))
  {
  }

  lemma PoolKeptByWorker(s: State, a: Action)
    requires PoolInv(s) && WorkerEnabled(s, a)
    ensures PoolInv(WorkerStep(s, a))
  {
    WorkCounts(s.workers, a.w, WorkerStep(s, a).workers[a.w]);
  }

  lemma PoolKeptByControl(s: State, a: Action)
    requires PoolInv(s) && ControlEnabled(s, a)
    ensures PoolInv(ControlStep(s, a))
  {
    if a.Spawn? {
      CountSnoc(s.workers, Idle, Alive);
    }
  }

  lemma ShutdownKeptByEnqueuer(s: State, a: Action)
    requires ShutdownInv(s) && EnqueuerEnabled(s, a)
    ensures ShutdownInv(EnqueuerStep(s, a))
  {
  }

  lemma ShutdownKeptByWorker(s: State, a: Action)
    requires ShutdownInv(s) && WorkerEnabled(s, a)
    ensures ShutdownInv(WorkerStep(s, a))
  {
  }

  lemma ShutdownKeptByControl(s: State, a: Action)
    requires PoolInv(s) && ShutdownInv(s) && ControlEnabled(s, a)
    ensures ShutdownInv(ControlStep(s, a))
  {
    if a.WorkersDone? {
      CountZero(s.workers, Alive);
      assert forall w | 0 <= w < |s.workers| :: !Alive(s.workers[w]);
    }
  }

  // ---------- log ----------

  lemma StageSnoc(log: seq<Event>, ev: Event, t: Task)
    ensures Stage(log + [ev], t) == Stage(log, t) + Bit(ev.Event? && ev.task == t)
  {
    assert (log + [ev])[..|log|] == log;
  }

  lemma StagesSnoc(log: seq<Event>, ev: Event)
    ensures forall t :: Stage(log + [ev], t) == Stage(log, t) + Bit(ev.Event? && ev.task == t)
  {
    forall t ensures Stage(log + [ev], t) == Stage(log, t) + Bit(ev.Event? && ev.task == t) {
      StageSnoc(log, ev, t);
    }
  }

  lemma DisciplinedSnoc(log: seq<Event>, ev: Event)
    requires Disciplined(log) && Follows(log, ev)
    ensures Disciplined(log + [ev])
  {
    var log' := log + [ev];
    forall i | 0 <= i < |log'| ensures Follows(log'[..i], log'[i]) {
      if i < |log| {
        assert log'[..i] == log[..i];
      } else {
        assert log'[..i] == log;
      }
    }
  }

  /** With no reader counted and no writer recorded, nothing is in flight; with no writer, no barrier is. */
  lemma LocksTellWhatIsInFlight(s: State)
    requires LockInv(s) && PlaceInv(s)
    ensures !s.writer ==> forall t: Task | t.barrier :: !InFlight(s.log, t)
    ensures !s.writer && s.readers == 0 ==> forall t: Task :: !InFlight(s.log, t)
  {
    CountZero(s.enqs, EnqShared);
    CountZero(s.enqs, EnqExclusive);
    CountZero(s.workers, WorkShared);
    CountZero(s.workers, WorkExclusive);
    forall t: Task | InFlight(s.log, t)
      ensures t.barrier ==> s.writer
      ensures !t.barrier ==> s.readers > 0
    {
      assert Placed(s, t);
      if e: nat :| EnqHolds(s, e, t) {
        assert if t.barrier then EnqExclusive(s.enqs[e]) else EnqShared(s.enqs[e]);
      } else {
        var w: nat :| WorkHolds(s, w, t);
        assert if t.barrier then WorkExclusive(s.workers[w]) else WorkShared(s.workers[w]);
      }
    }
  }

  /** What a step that logs at most one event does to the places. */
  lemma PlaceKept(s: State, s': State, t0: Task)
    requires PlaceInv(s)
    requires forall t: Task | t != t0 :: Stage(s'.log, t) == Stage(s.log, t)
    requires forall e: nat, t: Task | t != t0 :: EnqHolds(s', e, t) == EnqHolds(s, e, t)
    requires forall w: nat, t: Task | t != t0 :: WorkHolds(s', w, t) == WorkHolds(s, w, t)
    requires forall w: nat, t: Task | t != t0 && WorkHolds(s, w, t) && WorkHolds(s', w, t) ::
        WorkerRank(s'.workers[w]) == WorkerRank(s.workers[w])
    requires forall e: nat | EnqHolds(s', e, t0) :: Stage(s'.log, t0) == 1
    requires forall w: nat | WorkHolds(s', w, t0) :: Stage(s'.log, t0) == WorkerRank(s'.workers[w])
    requires InFlight(s'.log, t0) ==> Placed(s', t0)
    ensures PlaceInv(s')
  {
    forall t: Task | InFlight(s'.log, t)
      ensures Placed(s', t)
    {
      if t != t0 {
        assert Placed(s, t);
        if e: nat :| EnqHolds(s, e, t) {
          assert EnqHolds(s', e, t);
        } else {
          var w: nat :| WorkHolds(s, w, t);
          assert WorkHolds(s', w, t);
        }
      }
    }
  }

  lemma HistoryKept(s: State, s': State, ev: Event)
    requires HistoryInv(s) && s'.log == s.log + [ev] && Follows(s.log, ev)
    requires s'.tickets >= s.tickets && (ev.Event? ==> ev.task.ticket < s'.tickets)
    ensures HistoryInv(s')
    ensures forall t: Task :: Stage(s'.log, t) == Stage(s.log, t) + Bit(ev.Event? && ev.task == t)
  {
    DisciplinedSnoc(s.log, ev);
    StagesSnoc(s.log, ev);
  }

  /** The lock which was just taken says that the new task may be accepted. */
  lemma AcceptFollows(s: State, a: Action)
    requires LockInv(s) && LogInv(s) && EnqueuerEnabled(s, a) && (a.RLock? || a.Lock?)
    ensures Follows(s.log, Event(Accept, EnqueuerStep(s, a).enqs[a.e].task))
  {
    LocksTellWhatIsInFlight(s);
    hide PlaceInv, UniqueInv, Disciplined;
    if a.Lock? {
      CountZero(s.enqs, IsDraining);
    }
  }

  lemma LogKeptByAccept(s: State, a: Action)
    requires LockInv(s) && LogInv(s) && EnqueuerEnabled(s, a) && (a.RLock? || a.Lock?)
    ensures LogInv(EnqueuerStep(s, a))
  {
    var s' := EnqueuerStep(s, a);
    AcceptFollows(s, a);
    var t := s'.enqs[a.e].task;
    hide Follows, Disciplined, Stage, LockInv;
    HistoryKept(s, s', Event(Accept, t));
    assert EnqHolds(s', a.e, t);
    assert forall e: nat | EnqHolds(s, e, t) :: false;
    assert forall w: nat | WorkHolds(s, w, t) :: false;
    PlaceKept(s, s', t);
    assert forall e: nat, u: Task | e != a.e :: EnqHolds(s', e, u) == EnqHolds(s, e, u);
    assert forall w: nat, u: Task :: WorkHolds(s', w, u) == WorkHolds(s, w, u);
  }

  lemma LogKeptByReport(s: State, a: Action)
    requires LogInv(s) && EnqueuerEnabled(s, a) && a.SendReport?
    ensures LogInv(EnqueuerStep(s, a))
  {
    var s' := EnqueuerStep(s, a);
    HistoryKept(s, s', Reported(a.e, s.enqs[a.e].todo[0]));
    hide Stage, HistoryInv, PlaceInv, UniqueInv;
    assert forall e: nat, u: Task :: EnqHolds(s', e, u) == EnqHolds(s, e, u);
    assert forall w: nat, u: Task :: WorkHolds(s', w, u) == WorkHolds(s, w, u);
    SamePlaces(s, s');
  }

  lemma LogKeptByPlanning(s: State, a: Action)
    requires LogInv(s) && EnqueuerEnabled(s, a) && !a.SendReport? && !a.RLock? && !a.Lock?
    ensures LogInv(EnqueuerStep(s, a))
  {
    var s' := EnqueuerStep(s, a);
    assert HistoryInv(s');
    hide Stage, HistoryInv, PlaceInv, UniqueInv;
    assert forall e: nat, u: Task :: EnqHolds(s', e, u) == EnqHolds(s, e, u);
    assert forall w: nat, u: Task :: WorkHolds(s', w, u) == WorkHolds(s, w, u);
    SamePlaces(s, s');
  }

  lemma LogKeptByEnqueuer(s: State, a: Action)
    requires LockInv(s) && LogInv(s) && EnqueuerEnabled(s, a)
    ensures LogInv(EnqueuerStep(s, a))
  {
    hide LockInv, LogInv, EnqueuerStep;
    if a.RLock? || a.Lock? {
      LogKeptByAccept(s, a);
    } else if a.SendReport? {
      LogKeptByReport(s, a);
    } else {
      LogKeptByPlanning(s, a);
    }
  }

  lemma SamePlaces(s: State, s': State)
    requires PlaceInv(s) && UniqueInv(s)
    requires forall t: Task :: Stage(s'.log, t) == Stage(s.log, t)
    requires forall e: nat, t: Task :: EnqHolds(s', e, t) == EnqHolds(s, e, t)
    requires forall w: nat, t: Task :: WorkHolds(s', w, t) == WorkHolds(s, w, t)
    requires forall w: nat, t: Task | WorkHolds(s, w, t) && WorkHolds(s', w, t) ::
        WorkerRank(s'.workers[w]) == WorkerRank(s.workers[w])
    ensures PlaceInv(s') && UniqueInv(s')
  {
    forall t: Task | InFlight(s'.log, t)
      ensures Placed(s', t)
    {
      assert Placed(s, t);
      if e: nat :| EnqHolds(s, e, t) {
        assert EnqHolds(s', e, t);
      } else {
        var w: nat :| WorkHolds(s, w, t);
        assert WorkHolds(s', w, t);
      }
    }
  }

  lemma LogKeptByHandoff(s: State, a: Action)
    requires LogInv(s) && WorkerEnabled(s, a) && a.Handoff?
    ensures LogInv(WorkerStep(s, a))
  {
    var s' := WorkerStep(s, a);
    var t := s.enqs[a.e].task;
    assert EnqHolds(s, a.e, t);
    assert t.ticket < s.tickets;
    HistoryKept(s, s', Event(Start, t));
    assert WorkHolds(s', a.w, t);
    assert forall e: nat, u: Task | e != a.e :: EnqHolds(s', e, u) == EnqHolds(s, e, u);
    assert forall w: nat, u: Task | w != a.w :: WorkHolds(s', w, u) == WorkHolds(s, w, u);
    assert forall w: nat | WorkHolds(s, w, t) :: false;
    PlaceKept(s, s', t);
  }

  lemma LogKeptByBusyWorker(s: State, a: Action)
    requires LogInv(s) && WorkerEnabled(s, a) && (a.SendResult? || a.Unlock?)
    ensures LogInv(WorkerStep(s, a))
  {
    var s' := WorkerStep(s, a);
    var t := s.workers[a.w].task;
    assert WorkHolds(s, a.w, t);
    assert t.ticket < s.tickets;
    HistoryKept(s, s', Event(if a.SendResult? then Deliver else Release, t));
    hide HistoryInv;
    assert a.SendResult? ==> WorkHolds(s', a.w, t);
    assert forall e: nat, u: Task :: EnqHolds(s', e, u) == EnqHolds(s, e, u);
    assert forall w: nat, u: Task | w != a.w :: WorkHolds(s', w, u) == WorkHolds(s, w, u);
    PlaceKept(s, s', t);
  }

  lemma LogKeptByWorker(s: State, a: Action)
    requires LogInv(s) && WorkerEnabled(s, a)
    ensures LogInv(WorkerStep(s, a))
  {
    if a.Handoff? {
      LogKeptByHandoff(s, a);
    } else if a.SendResult? || a.Unlock? {
      LogKeptByBusyWorker(s, a);
    } else {
      var s' := WorkerStep(s, a);
      assert forall e: nat, u: Task :: EnqHolds(s', e, u) == EnqHolds(s, e, u);
      assert forall w: nat, u: Task :: WorkHolds(s', w, u) == WorkHolds(s, w, u);
      SamePlaces(s, s');
    }
  }

  lemma LogKeptByControl(s: State, a: Action)
    requires LogInv(s) && ControlEnabled(s, a)
    ensures LogInv(ControlStep(s, a))
  {
    var s' := ControlStep(s, a);
    assert forall e: nat, t: Task :: EnqHolds(s', e, t) == EnqHolds(s, e, t);
    assert forall w: nat, t: Task :: WorkHolds(s', w, t) == WorkHolds(s, w, t);
    SamePlaces(s, s');
  }

  // ---------- plans ----------

  lemma ServedSnoc(log: seq<Event>, ev: Event, e: nat)
    ensures Served(log + [ev], e) == Served(log, e) +
            if ev.Reported? && ev.owner == e then [ev.item]
            else if ev.Event? && ev.kind.Accept? && ev.task.owner == e then [ev.task.item]
            else []
  {
    assert (log + [ev])[..|log|] == log;
  }

  lemma ServedKept(s: State, s': State, ev: Event, plans: seq<seq<Item>>)
    requires PlanInv(s, plans) && s'.log == s.log + [ev] && |s'.enqs| == |s.enqs|
    requires forall e | 0 <= e < |plans| ::
      Unserved(s.enqs[e]) ==
        (if ev.Reported? && ev.owner == e then [ev.item]
         else if ev.Event? && ev.kind.Accept? && ev.task.owner == e then [ev.task.item]
         else []) + Unserved(s'.enqs[e])
    ensures forall e | 0 <= e < |plans| :: Served(s'.log, e) + Unserved(s'.enqs[e]) == plans[e]
  {
    forall e | 0 <= e < |plans|
      ensures Served(s'.log, e) + Unserved(s'.enqs[e]) == plans[e]
    {
      assert Served(s.log, e) + Unserved(s.enqs[e]) == plans[e];
      ServedSnoc(s.log, ev, e);
    }
  }

  lemma PlanKeptByAccept(s: State, a: Action, plans: seq<seq<Item>>)
    requires PlanInv(s, plans) && EnqueuerEnabled(s, a) && (a.RLock? || a.Lock?)
    ensures PlanInv(EnqueuerStep(s, a), plans)
  {
    var s' := EnqueuerStep(s, a);
    ServedKept(s, s', Event(Accept, s'.enqs[a.e].task), plans);
  }

  lemma PlanKeptByReport(s: State, a: Action, plans: seq<seq<Item>>)
    requires PlanInv(s, plans) && EnqueuerEnabled(s, a) && a.SendReport?
    ensures PlanInv(EnqueuerStep(s, a), plans)
  {
    ServedKept(s, EnqueuerStep(s, a), Reported(a.e, s.enqs[a.e].todo[0]), plans);
  }

  lemma PlanKeptByEnqueuer(s: State, a: Action, plans: seq<seq<Item>>)
    requires PlanInv(s, plans) && EnqueuerEnabled(s, a)
    ensures PlanInv(EnqueuerStep(s, a), plans)
  {
    if a.RLock? || a.Lock? {
      PlanKeptByAccept(s, a, plans);
    } else if a.SendReport? {
      PlanKeptByReport(s, a, plans);
    } else {
      hide Served, BarriersKept;
      assert Unserved(EnqueuerStep(s, a).enqs[a.e]) == Unserved(s.enqs[a.e]);
    }
  }

  lemma PlanKeptByWorker(s: State, a: Action, plans: seq<seq<Item>>)
    requires PlanInv(s, plans) && WorkerEnabled(s, a)
    ensures PlanInv(WorkerStep(s, a), plans)
  {
    var s' := WorkerStep(s, a);
    if s'.log != s.log {
      ServedKept(s, s', s'.log[|s.log|], plans);
    }
  }

  // ---------- the whole invariant, over whole runs ----------

  lemma InitInv(s: State, plans: seq<seq<Item>>)
    requires Init(s, plans)
    ensures Inv(s, plans)
  {
    CountZero(s.enqs, EnqShared);
    CountZero(s.enqs, EnqExclusive);
    CountZero(s.enqs, IsDraining);
    CountZero(s.workers, WorkShared);
    CountZero(s.workers, WorkExclusive);
    AllAlive(s.workers);
  }

  lemma {:induction false} AllAlive(workers: seq<Worker>)
    requires forall w | 0 <= w < |workers| :: !workers[w].Quit?
    ensures Count(workers, Alive) == |workers|
  {
    if workers == [] {
    } else {
      AllAlive(workers[..|workers| - 1]);
    }
  }

  lemma StepInv(s: State, a: Action, plans: seq<seq<Item>>)
    requires Inv(s, plans) && Enabled(s, a)
    ensures Inv(Step(s, a), plans)
  {
    hide EnqueuerStep, WorkerStep, ControlStep, EnqueuerEnabled, WorkerEnabled, ControlEnabled;
    hide PoolInv, ShutdownInv, LockInv, PlanInv;
    if EnqueuerEnabled(s, a) {
      PoolKeptByEnqueuer(s, a);
      ShutdownKeptByEnqueuer(s, a);
      LockKeptByEnqueuer(s, a);
      LogKeptByEnqueuer(s, a);
      PlanKeptByEnqueuer(s, a, plans);
    } else if WorkerEnabled(s, a) {
      PoolKeptByWorker(s, a);
      ShutdownKeptByWorker(s, a);
      LockKeptByWorker(s, a);
      LogKeptByWorker(s, a);
      PlanKeptByWorker(s, a, plans);
    } else {
      PoolKeptByControl(s, a);
      ShutdownKeptByControl(s, a);
      LockKeptByControl(s, a);
      LogKeptByControl(s, a);
      PlanKeptByControl(s, a, plans);
    }
  }

  lemma PlanKeptByControl(s: State, a: Action, plans: seq<seq<Item>>)
    requires PlanInv(s, plans) && ControlEnabled(s, a)
    ensures PlanInv(ControlStep(s, a), plans)
  {
    SamePlan(s, ControlStep(s, a), plans);
  }

  lemma SamePlan(s: State, s': State, plans: seq<seq<Item>>)
    requires PlanInv(s, plans) && s'.enqs == s.enqs && s'.log == s.log
    requires s'.workers == s.workers || s'.workers == s.workers + [Idle]
    ensures PlanInv(s', plans)
  {
  }

  lemma {:induction false} RunInv(s: State, run: seq<Action>, plans: seq<seq<Item>>)
    requires Inv(s, plans) && Legal(s, run)
    ensures Inv(After(s, run), plans)
    decreases |run|
  {
    if run == [] {
    } else {
      StepInv(s, run[0], plans);
      RunInv(Step(s, run[0]), run[1..], plans);
    }
  }
}
