/**
  The worker pool of the mirror command as a state machine.

  Processes: the enqueuers (one goroutine per caller of queueTask), the workers, the bandwidth
  monitor that adds workers, the consumer of the result channel, and the goroutine that shuts
  everything down. Every action is one atomic operation on shared state: a lock operation, a
  rendezvous on an unbuffered channel, an atomic counter access, closing a channel. Any
  interleaving of enabled actions is a run.
 */
module ParallelManager {
  import opened Counting

  /** What an enqueuer still has to do: queue a job, or send an error straight to the result channel. */
  datatype Item = Queue(job: nat, barrier: bool) | Report(error: nat)

  /** An accepted call of doQueueTask. The ticket is the call's rank in the order of acceptance. */
  datatype Task = Task(ticket: nat, owner: nat, item: Item, barrier: bool)

  datatype Enqueuer =
    | Planning(todo: seq<Item>)                          // between two calls
    | AtLock(item: Item, exclusive: bool, todo: seq<Item>) // about to take the lock
    | Draining(item: Item, todo: seq<Item>)              // announced as writer, waits for the readers
    | Offering(task: Task, todo: seq<Item>)              // holds the lock, blocked on the task queue
    | Stopped(dropped: seq<Item>)                        // finished, or cancelled with work left

  datatype Worker =
    | Idle
    | Executing(task: Task)
    | Sending(task: Task)   // blocked on the result channel
    | Releasing(task: Task) // result taken, lock not yet released
    | Quit

  datatype Monitor =
    | Ticking
    | Checking(left: nat) // addWorker: before the load of workersNum
    | Admitted(left: nat) // load was below the cap, increment still to come
    | Counted(left: nat)  // incremented, worker not yet started
    | Ended

  datatype Consumer = Receiving | Handling | Drained

  datatype Closer = AwaitEnqueuers | AwaitWorkers | StopMonitor | CloseResults | Finished

  datatype Kind = Accept | Start | Deliver | Release

  datatype Event = Event(kind: Kind, task: Task) | Reported(owner: nat, item: Item)

  datatype State = State(
    cap: nat,
    enqs: seq<Enqueuer>,
    workers: seq<Worker>,
    readers: nat,
    writer: bool,
    pending: bool, // a writer has announced itself: no new reader gets in
    workersNum: nat,
    waitGroup: nat,
    monitor: Monitor,
    consumer: Consumer,
    closer: Closer,
    tickets: nat,
    log: seq<Event>)
  {
    predicate QueueClosed() { !closer.AwaitEnqueuers? }

    predicate MonitorStopped() { closer.CloseResults? || closer.Finished? }

    predicate ResultsClosed() { closer.Finished? }
  }

  const MAX_PARALLEL_WORKERS := 128

  /** The cap addWorker uses: the default unless a positive limit was given. */
  function Cap(maxWorkers: int): (cap: nat)
    ensures cap >= 1
  {
    if maxWorkers > 0 then maxWorkers else MAX_PARALLEL_WORKERS
  }

  // ---------- actions ----------

  datatype Action =
    | Take(e: nat, promote: bool) // promote: not enough memory, run as a barrier
    | SendReport(e: nat)
    | Stop(e: nat)
    | RLock(e: nat)
    | Announce(e: nat)
    | Lock(e: nat)
    | Handoff(e: nat, w: nat)
    | Return(w: nat)
    | SendResult(w: nat)
    | Unlock(w: nat)
    | QuitWorker(w: nat)
    | Handled
    | ConsumerEnds
    | CloseQueue
    | WorkersDone
    | CloseStopChannel
    | CloseResultChannel
    | Tick(add: nat)
    | GiveUp
    | MonitorEnds
    | CheckCap
    | Increment
    | Spawn
  {
    predicate Monitoring() {
      Tick? || GiveUp? || MonitorEnds? || CheckCap? || Increment? || Spawn?
    }
  }

  predicate EnqueuerEnabled(s: State, a: Action) {
    match a
    case Take(e, _) => e < |s.enqs| && s.enqs[e].Planning? && s.enqs[e].todo != [] && s.enqs[e].todo[0].Queue?
    case SendReport(e) =>
      e < |s.enqs| && s.enqs[e].Planning? && s.enqs[e].todo != [] && s.enqs[e].todo[0].Report? && s.consumer.Receiving?
    case Stop(e) => e < |s.enqs| && s.enqs[e].Planning?
    case RLock(e) => e < |s.enqs| && s.enqs[e].AtLock? && !s.enqs[e].exclusive && !s.writer && !s.pending
    case Announce(e) => e < |s.enqs| && s.enqs[e].AtLock? && s.enqs[e].exclusive && !s.writer && !s.pending
    case Lock(e) => e < |s.enqs| && s.enqs[e].Draining? && s.readers == 0
    case _ => false
  }

  predicate WorkerEnabled(s: State, a: Action) {
    match a
    case Handoff(e, w) =>
      e < |s.enqs| && w < |s.workers| && s.enqs[e].Offering? && s.workers[w].Idle? && !s.QueueClosed()
    case Return(w) => w < |s.workers| && s.workers[w].Executing?
    case SendResult(w) => w < |s.workers| && s.workers[w].Sending? && s.consumer.Receiving? && !s.ResultsClosed()
    case Unlock(w) =>
      && w < |s.workers| && s.workers[w].Releasing?
      && (if s.workers[w].task.barrier then s.writer else s.readers > 0)
    case QuitWorker(w) => w < |s.workers| && s.workers[w].Idle? && s.QueueClosed() && s.waitGroup > 0
    case _ => false
  }

  predicate ControlEnabled(s: State, a: Action) {
    match a
    case Handled => s.consumer.Handling?
    case ConsumerEnds => s.consumer.Receiving? && s.ResultsClosed()
    case CloseQueue => s.closer.AwaitEnqueuers? && forall e | 0 <= e < |s.enqs| :: s.enqs[e].Stopped?
    case WorkersDone => s.closer.AwaitWorkers? && s.waitGroup == 0
    case CloseStopChannel => s.closer.StopMonitor?
    case CloseResultChannel => s.closer.CloseResults?
    case Tick(_) => s.monitor.Ticking?
    case GiveUp => s.monitor.Ticking?
    case MonitorEnds => s.monitor.Ticking? && s.MonitorStopped()
    case CheckCap => s.monitor.Checking?
    case Increment => s.monitor.Admitted?
    case Spawn => s.monitor.Counted? && s.monitor.left > 0
    case _ => false
  }

  predicate Enabled(s: State, a: Action) {
    EnqueuerEnabled(s, a) || WorkerEnabled(s, a) || ControlEnabled(s, a)
  }

  function EnqueuerStep(s: State, a: Action): State
    requires EnqueuerEnabled(s, a)
  {
    var q := s.enqs[a.e];
    match a
    case Take(e, promote) =>
      s.(enqs := s.enqs[e := AtLock(q.todo[0], q.todo[0].barrier || promote, q.todo[1..])])
    case SendReport(e) =>
      s.(enqs := s.enqs[e := Planning(q.todo[1..])], consumer := Handling, log := s.log + [Reported(e, q.todo[0])])
    case Stop(e) =>
      s.(enqs := s.enqs[e := Stopped(q.todo)])
    case RLock(e) =>
      var t := Task(s.tickets, e, q.item, false);
      s.(enqs := s.enqs[e := Offering(t, q.todo)], readers := s.readers + 1,
      tickets := s.tickets + 1, log := s.log + [Event(Accept, t)])
    case Announce(e) =>
      s.(enqs := s.enqs[e := Draining(q.item, q.todo)], pending := true)
    case Lock(e) =>
      var t := Task(s.tickets, e, q.item, true);
      s.(enqs := s.enqs[e := Offering(t, q.todo)], writer := true, pending := false,
      tickets := s.tickets + 1, log := s.log + [Event(Accept, t)])
  }

  function WorkerStep(s: State, a: Action): State
    requires WorkerEnabled(s, a)
  {
    match a
    case Handoff(e, w) =>
      var t := s.enqs[e].task;
      s.(enqs := s.enqs[e := Planning(s.enqs[e].todo)], workers := s.workers[w := Executing(t)],
      log := s.log + [Event(Start, t)])
    case Return(w) =>
      s.(workers := s.workers[w := Sending(s.workers[w].task)])
    case SendResult(w) =>
      var t := s.workers[w].task;
      s.(workers := s.workers[w := Releasing(t)], consumer := Handling, log := s.log + [Event(Deliver, t)])
    case Unlock(w) =>
      var t := s.workers[w].task;
      var s' := s.(workers := s.workers[w := Idle], log := s.log + [Event(Release, t)]);
      if t.barrier then s'.(writer := false) else s'.(readers := s.readers - 1)
    case QuitWorker(w) =>
      s.(workers := s.workers[w := Quit], waitGroup := s.waitGroup - 1)
  }

  function ControlStep(s: State, a: Action): State
    requires ControlEnabled(s, a)
  {
    match a
    case Handled => s.(consumer := Receiving)
    case ConsumerEnds => s.(consumer := Drained)
    case CloseQueue => s.(closer := AwaitWorkers)
    case WorkersDone => s.(closer := StopMonitor)
    case CloseStopChannel => s.(closer := CloseResults)
    case CloseResultChannel => s.(closer := Finished)
    case Tick(add) => s.(monitor := Checking(add))
    case GiveUp => s.(monitor := Ended)
    case MonitorEnds => s.(monitor := Ended)
    case CheckCap =>
      if s.monitor.left == 0 then s.(monitor := Ticking)
      else if s.workersNum >= s.cap then s.(monitor := Checking(s.monitor.left - 1))
      else s.(monitor := Admitted(s.monitor.left))
    case Increment => s.(workersNum := s.workersNum + 1, monitor := Counted(s.monitor.left))
    case Spawn =>
      s.(workers := s.workers + [Idle], waitGroup := s.waitGroup + 1, monitor := Checking(s.monitor.left - 1))
  }

  function Step(s: State, a: Action): State
    requires Enabled(s, a)
  {
    if EnqueuerEnabled(s, a) then EnqueuerStep(s, a)
    else if WorkerEnabled(s, a) then WorkerStep(s, a)
    else ControlStep(s, a)
  }

  // ---------- runs ----------

  /** The state newParallelManager leaves behind, with the plans of the goroutines that will queue work. */
  ghost predicate Init(s: State, plans: seq<seq<Item>>) {
    && 1 <= |s.workers| <= s.cap
    && (forall w | 0 <= w < |s.workers| :: s.workers[w] == Idle)
    && s.workersNum == s.waitGroup == |s.workers|
    && |s.enqs| == |plans|
    && (forall e | 0 <= e < |plans| :: s.enqs[e] == Planning(plans[e]))
    && s.readers == 0 && !s.writer && !s.pending
    && s.monitor == Ticking && s.consumer == Receiving && s.closer == AwaitEnqueuers
    && s.tickets == 0 && s.log == []
  }

  predicate Legal(s: State, run: seq<Action>)
    decreases |run|
  {
    run == [] || (Enabled(s, run[0]) && Legal(Step(s, run[0]), run[1..]))
  }

  function After(s: State, run: seq<Action>): State
    requires Legal(s, run)
    decreases |run|
  {
    if run == [] then s else After(Step(s, run[0]), run[1..])
  }

  // ---------- the invariant ----------

  predicate EnqShared(q: Enqueuer) { q.Offering? && !q.task.barrier }
  predicate EnqExclusive(q: Enqueuer) { q.Offering? && q.task.barrier }
  predicate IsDraining(q: Enqueuer) { q.Draining? }
  predicate Busy(w: Worker) { w.Executing? || w.Sending? || w.Releasing? }
  predicate WorkShared(w: Worker) { Busy(w) && !w.task.barrier }
  predicate WorkExclusive(w: Worker) { Busy(w) && w.task.barrier }
  predicate Alive(w: Worker) { !w.Quit? }

  /** Accepted, unfinished tasks that are not barriers. */
  function SharedHolders(s: State): nat { Count(s.enqs, EnqShared) + Count(s.workers, WorkShared) }

  /** Accepted, unfinished barriers. */
  function ExclusiveHolders(s: State): nat { Count(s.enqs, EnqExclusive) + Count(s.workers, WorkExclusive) }

  predicate LockInv(s: State) {
    && s.readers == SharedHolders(s)
    && Bit(s.writer) == ExclusiveHolders(s)
    && Bit(s.pending) == Count(s.enqs, IsDraining)
    && !(s.writer && s.pending)
    && (s.writer ==> s.readers == 0)
  }

  predicate PoolInv(s: State) {
    && s.workersNum == |s.workers| + Bit(s.monitor.Counted?)
    && 1 <= |s.workers| && s.workersNum <= s.cap
    && (s.monitor.Admitted? ==> s.workersNum < s.cap)
    && (s.monitor.Admitted? || s.monitor.Counted? ==> s.monitor.left > 0)
    && s.waitGroup == Count(s.workers, Alive)
  }

  predicate ShutdownInv(s: State) {
    && (s.QueueClosed() ==> forall e | 0 <= e < |s.enqs| :: s.enqs[e].Stopped?)
    && (!s.QueueClosed() ==> forall w | 0 <= w < |s.workers| :: !s.workers[w].Quit?)
    && (s.QueueClosed() && !s.closer.AwaitWorkers? ==> forall w | 0 <= w < |s.workers| :: !Busy(s.workers[w]))
    && (s.consumer.Drained? ==> s.ResultsClosed())
  }

  /** How many of a task's four events the log holds. */
  function Stage(log: seq<Event>, t: Task): nat {
    if log == [] then 0
    else
      var last := log[|log| - 1];
      Stage(log[..|log| - 1], t) + Bit(last.Event? && last.task == t)
  }

  function Rank(k: Kind): nat {
    match k
    case Accept => 0
    case Start => 1
    case Deliver => 2
    case Release => 3
  }

  /** The task has been accepted and its lock not yet released. */
  predicate InFlight(log: seq<Event>, t: Task) { 1 <= Stage(log, t) <= 3 }

  /** May `ev` happen after `log`? Every task goes through its four events once, in order, and barriers run alone. */
  ghost predicate Follows(log: seq<Event>, ev: Event) {
    ev.Event? ==>
      && Stage(log, ev.task) == Rank(ev.kind)
      && (ev.kind.Accept? ==>
            && (ev.task.barrier ==> forall t: Task :: !InFlight(log, t))
            && (forall t: Task | t.barrier :: !InFlight(log, t)))
  }

  ghost predicate Disciplined(log: seq<Event>) {
    forall i | 0 <= i < |log| :: Follows(log[..i], log[i])
  }

  predicate EnqHolds(s: State, e: nat, t: Task) { e < |s.enqs| && s.enqs[e].Offering? && s.enqs[e].task == t }
  predicate WorkHolds(s: State, w: nat, t: Task) { w < |s.workers| && Busy(s.workers[w]) && s.workers[w].task == t }

  function WorkerRank(w: Worker): nat
    requires Busy(w)
  {
    if w.Releasing? then 3 else 2
  }

  ghost predicate Placed(s: State, t: Task) {
    (exists e: nat :: EnqHolds(s, e, t)) || (exists w: nat :: WorkHolds(s, w, t))
  }

  /** The log is disciplined and knows only tickets already given out. */
  ghost predicate HistoryInv(s: State) {
    && Disciplined(s.log)
    && (forall t: Task :: Stage(s.log, t) <= 4)
    && (forall t: Task | t.ticket >= s.tickets :: Stage(s.log, t) == 0)
  }

  /** The log and the places where tasks sit tell the same story. */
  ghost predicate PlaceInv(s: State) {
    && (forall e: nat, t: Task | EnqHolds(s, e, t) :: Stage(s.log, t) == 1)
    && (forall w: nat, t: Task | WorkHolds(s, w, t) :: Stage(s.log, t) == WorkerRank(s.workers[w]))
    && (forall t: Task | InFlight(s.log, t) :: Placed(s, t))
  }

  /** A task sits in one place. */
  ghost predicate UniqueInv(s: State) {
    && (forall e: nat, e': nat, t: Task | EnqHolds(s, e, t) && EnqHolds(s, e', t) :: e == e')
    && (forall w: nat, w': nat, t: Task | WorkHolds(s, w, t) && WorkHolds(s, w', t) :: w == w')
  }

  ghost predicate LogInv(s: State) { HistoryInv(s) && PlaceInv(s) && UniqueInv(s) }

  /** Everything enqueuer `e` has handed over, in order. */
  function Served(log: seq<Event>, e: nat): seq<Item> {
    if log == [] then []
    else
      var last := log[|log| - 1];
      Served(log[..|log| - 1], e) +
      if last.Reported? && last.owner == e then [last.item]
      else if last.Event? && last.kind.Accept? && last.task.owner == e then [last.task.item]
      else []
  }

  function Unserved(q: Enqueuer): seq<Item> {
    match q
    case Planning(todo) => todo
    case AtLock(item, _, todo) => [item] + todo
    case Draining(item, todo) => [item] + todo
    case Offering(_, todo) => todo
    case Stopped(dropped) => dropped
  }

  /** A task requested as a barrier is accepted as one. */
  predicate BarriersKept(log: seq<Event>) {
    forall i | 0 <= i < |log| :: log[i].Event? && log[i].task.item.Queue? && log[i].task.item.barrier ==> log[i].task.barrier
  }

  ghost predicate PlanInv(s: State, plans: seq<seq<Item>>) {
    && |s.enqs| == |plans|
    && (forall e | 0 <= e < |plans| :: Served(s.log, e) + Unserved(s.enqs[e]) == plans[e])
    && (forall e | 0 <= e < |s.enqs| ::
         s.enqs[e].AtLock? && s.enqs[e].item.Queue? && s.enqs[e].item.barrier ==> s.enqs[e].exclusive)
    && (forall e | 0 <= e < |s.enqs| ::
         s.enqs[e].Offering? && s.enqs[e].task.item.Queue? && s.enqs[e].task.item.barrier ==> s.enqs[e].task.barrier)
    && (forall w | 0 <= w < |s.workers| ::
         Busy(s.workers[w]) && s.workers[w].task.item.Queue? && s.workers[w].task.item.barrier ==> s.workers[w].task.barrier)
    && BarriersKept(s.log)
  }

  ghost predicate Inv(s: State, plans: seq<seq<Item>>) {
    LockInv(s) && PoolInv(s) && ShutdownInv(s) && LogInv(s) && PlanInv(s, plans)
  }
}
