/** When the pipe refuses an element: only when it is all but full, and then it does. */
module PipeChanBlocking {
  import opened PipeChan
  import opened PipeChanTheorems

  // ---------- channels that wait are filled ----------

  /**
    A channel the consumer has not come to was left for the next one only when it held at least c
    elements; the first channel, which is left earlier, never waits while later ones do.
   */
  ghost predicate WaitInv<T>(s: State<T>) {
    && (forall i | 1 <= i < |s.chans| - 1 && s.taken <= i :: |s.chans[i].buf| >= s.capacity)
    && (s.producer.PublishFirst? ==> |s.chans| == 1)
    && (s.producer.CheckQuarter? && s.taken < |s.chans| ==> |s.Curr().buf| >= s.capacity)
  }

  lemma WaitKeptByReplacing<T>(s: State<T>)
    requires ChainInv(s) && SizeInv(s) && WaitInv(s) && ProducerEnabled(s)
    requires s.producer.CheckGrow? || s.producer.CheckQuarter?
    ensures WaitInv(ProducerStep(s))
  {
    var s' := ProducerStep(s);
    hide ChainInv;
    assert s.Curr().cap == SizeOf(s.capacity, |s.chans| - 1);
    assert forall i | 0 <= i < |s.chans| :: s'.chans[i].buf == s.chans[i].buf;
  }

  lemma WaitKeptByProducer<T>(s: State<T>)
    requires ChainInv(s) && WaitInv(s) && ProducerEnabled(s) && !s.producer.CheckGrow? && !s.producer.CheckQuarter?
    ensures WaitInv(ProducerStep(s))
  {
    var s' := ProducerStep(s);
    assert forall i | 0 <= i < |s.chans| - 1 :: s'.chans[i] == s.chans[i];
  }

  lemma WaitKeptByConsumer<T>(s: State<T>)
    requires WaitInv(s) && ConsumerEnabled(s)
    ensures WaitInv(ConsumerStep(s))
  {
    var s' := ConsumerStep(s);
    assert forall i | s.taken <= i < |s.chans| :: s'.chans[i] == s.chans[i];
  }

  lemma WaitKept<T>(s: State<T>, a: Action<T>)
    requires ChainInv(s) && SizeInv(s) && WaitInv(s) && Enabled(s, a)
    ensures WaitInv(Step(s, a))
  {
    hide ChainInv, SizeInv, ProducerStep, ConsumerStep, ProducerEnabled, ConsumerEnabled;
    if a.Produce? {
      if s.producer.CheckGrow? || s.producer.CheckQuarter? {
        WaitKeptByReplacing(s);
      } else {
        WaitKeptByProducer(s);
      }
    } else if a.Consume? {
      WaitKeptByConsumer(s);
    }
  }

  lemma {:induction false} RunWaits<T>(s: State<T>, run: seq<Action<T>>)
    requires Inv(s) && WaitInv(s) && Legal(s, run)
    ensures WaitInv(After(s, run))
    decreases |run|
  {
    if run == [] {
    } else {
      hide Step, Enabled, FifoInv, ChainInv, SizeInv, FillInv, WaitInv;
      FifoKept(s, run[0]);
      ChainKept(s, run[0]);
      FillKept(s, run[0]);
      WaitKept(s, run[0]);
      RunWaits(Step(s, run[0]), run[1..]);
    }
  }

  // ---------- a refusal means a full pipe ----------

  /** How much waits in a chain whose channels from `from` to `n` are filled, the later ones empty, the earlier drained. */
  lemma {:induction false} FlattenFilled<T>(chans: seq<Chan<T>>, from: nat, n: nat, capacity: nat)
    requires 0 < from <= n <= |chans|
    requires forall i | 0 <= i < |chans| && i != from - 1 :: |chans[i].buf| == if from <= i < n then capacity else 0
    ensures |Flatten(chans)| == |chans[from - 1].buf| + (n - from) * capacity
    decreases |chans|
  {
    var last := |chans| - 1;
    hide *;
    FlattenLast(chans);
    if last == from - 1 {
      FlattenEmpty(chans[..last]);
    } else if n <= last {
      FlattenFilled(chans[..last], from, n, capacity);
    } else {
      FlattenFilled(chans[..last], from, last, capacity);
      OneMore(last - from, capacity);
    }
  }

  lemma FlattenLast<T>(chans: seq<Chan<T>>)
    requires chans != []
    ensures |Flatten(chans)| == |Flatten(chans[..|chans| - 1])| + |chans[|chans| - 1].buf|
  {
  }

  lemma OneMore(n: nat, capacity: nat)
    ensures (n + 1) * capacity == n * capacity + capacity
  {
  }

  /** At rest with a full input both goroutines hold an element: one before a full output, one before a full chain. */
  lemma RestMeansFull<T>(s: State<T>)
    requires Inv(s) && WaitInv(s) && s.capacity > 0 && !PipeCanMove(s) && !s.input.closed && |s.input.buf| == s.capacity
    ensures s.consumer.Forward? && |s.output.buf| == s.capacity
    ensures s.producer.PublishGrown? || s.producer.PublishShrunk?
    ensures 0 < s.taken && s.published == s.taken + MAX_WAITING && |s.chans| == s.published + 1
  {
    assert s.chans != [] ==> s.Curr().cap == SizeOf(s.capacity, |s.chans| - 1);
    hide FifoInv;
  }

  /** A pipe at rest, with its input open, takes no more. */
  predicate Refuses<T>(s: State<T>) {
    !PipeCanMove(s) && !s.input.closed && |s.input.buf| >= s.input.cap
  }

  lemma FullPipe<T>(s: State<T>)
    requires Inv(s) && WaitInv(s) && s.capacity > 0 && Refuses(s)
    ensures 0 < s.taken < |s.chans|
    ensures |s.sent| == |s.delivered| + (MAX_WAITING + 2) * s.capacity + 2 + |s.chans[s.taken - 1].buf|
  {
    RestMeansFull(s);
    assert |s.Curr().buf| == 0;
    FlattenFilled(s.chans, s.taken, s.published, s.capacity);
    hide Flatten, ChainInv, WaitInv, SizeInv, FillInv;
    assert (MAX_WAITING + 2) * s.capacity == MAX_WAITING * s.capacity + s.capacity + s.capacity;
  }

  /**
    The sender is made to wait by a pipe at rest only when exactly this many elements are on their way:
    c in the output, c in the input, c in each of 1000 waiting channels, one in either hand, and what
    is left in the channel the consumer works on.
   */
  lemma RefusesOnlyWhenFull<T>(capacity: nat, run: seq<Action<T>>)
    requires capacity > 0 && Legal(Init(capacity), run) && Refuses(After(Init(capacity), run))
    ensures
      var s := After(Init(capacity), run);
      && 0 < s.taken < |s.chans|
      && |s.sent| == |s.delivered| + 1002 * capacity + 2 + |s.chans[s.taken - 1].buf|
  {
    ReachInv(capacity, run);
    RunWaits(Init<T>(capacity), run);
    FullPipe(After(Init<T>(capacity), run));
  }

  // ---------- states a run can get to ----------

  ghost predicate Reachable<T(!new)>(capacity: nat, s: State<T>) {
    exists run: seq<Action<T>> :: Legal(Init(capacity), run) && After(Init(capacity), run) == s
  }

  lemma {:induction false} AfterSnoc<T>(s: State<T>, run: seq<Action<T>>, a: Action<T>)
    requires Legal(s, run) && Enabled(After(s, run), a)
    ensures Legal(s, run + [a]) && After(s, run + [a]) == Step(After(s, run), a)
    decreases |run|
  {
    if run == [] {
      assert run + [a] == [a] && [a][1..] == [];
    } else {
      assert (run + [a])[1..] == run[1..] + [a];
      hide Step, Enabled;
      AfterSnoc(Step(s, run[0]), run[1..], a);
    }
  }

  lemma ReachStart<T(!new)>(capacity: nat)
    ensures Reachable<T>(capacity, Init(capacity))
  {
    assert Legal(Init<T>(capacity), []);
  }

  lemma ReachStep<T(!new)>(capacity: nat, s: State<T>, a: Action<T>)
    requires Reachable(capacity, s) && Enabled(s, a)
    ensures Reachable(capacity, Step(s, a))
  {
    hide Enabled, Step;
    var run: seq<Action<T>> :| Legal(Init(capacity), run) && After(Init(capacity), run) == s;
    AfterSnoc(Init(capacity), run, a);
  }

  lemma ReachHolds<T(!new)>(capacity: nat, s: State<T>)
    requires Reachable(capacity, s)
    ensures Inv(s) && WaitInv(s) && s.capacity == capacity
    ensures |s.sent| <= |s.delivered| + (MAX_WAITING + 3) * capacity + 2
    ensures Room(s) == WorkLeft(s)
  {
    var run: seq<Action<T>> :| Legal(Init(capacity), run) && After(Init(capacity), run) == s;
    ReachInv(capacity, run);
    RunWaits(Init<T>(capacity), run);
    PipeIsBounded(capacity, run);
  }

  /** The work left, as a bound: it is never negative in a state that can be reached. */
  function Room<T>(s: State<T>): nat { if WorkLeft(s) < 0 then 0 else WorkLeft(s) }

  /** How many more elements can be sent before one has to be received. */
  function SpaceFor<T>(s: State<T>): nat {
    var most := |s.delivered| + (MAX_WAITING + 3) * s.capacity + 2;
    if most < |s.sent| then 0 else most - |s.sent|
  }

  lemma HistoryOf<T>(s: State<T>, a: Action<T>)
    requires Enabled(s, a) && (a.Produce? || a.HandOver? || a.Consume? || a.OutsideSend? || a.OutsideHand?)
    ensures var s' := Step(s, a);
      && s'.delivered == s.delivered && s'.input.closed == s.input.closed && s'.capacity == s.capacity
      && |s'.sent| == |s.sent| + if a.OutsideSend? || a.OutsideHand? then 1 else 0
  {
    hide ProducerStep, ConsumerStep, ProducerEnabled, ConsumerEnabled;
    if a.Produce? {
      HistoryOfProducer(s);
    } else if a.Consume? {
      HistoryOfConsumer(s);
    }
  }

  lemma HistoryOfProducer<T>(s: State<T>)
    requires ProducerEnabled(s)
    ensures var s' := ProducerStep(s);
      && s'.delivered == s.delivered && s'.input.closed == s.input.closed && s'.capacity == s.capacity
      && s'.sent == s.sent
  {
  }

  lemma HistoryOfConsumer<T>(s: State<T>)
    requires ConsumerEnabled(s)
    ensures var s' := ConsumerStep(s);
      && s'.delivered == s.delivered && s'.input.closed == s.input.closed && s'.capacity == s.capacity
      && s'.sent == s.sent
  {
  }

  /** One move of the pipe or one send, towards the state where nothing more is possible without a receiver. */
  lemma Onward<T(!new)>(capacity: nat, s: State<T>, a: Action<T>)
    requires Reachable(capacity, s) && Enabled(s, a)
    requires a.Produce? || a.HandOver? || a.Consume? || a.OutsideSend? || a.OutsideHand?
    ensures Reachable(capacity, Step(s, a))
    ensures Step(s, a).delivered == s.delivered && Step(s, a).input.closed == s.input.closed
    ensures
      || SpaceFor(Step(s, a)) < SpaceFor(s)
      || (SpaceFor(Step(s, a)) == SpaceFor(s) && Room(Step(s, a)) < Room(s))
  {
    ReachStep(capacity, s, a);
    ReachHolds(capacity, s);
    ReachHolds(capacity, Step(s, a));
    HistoryOf(s, a);
    ReachWorks(s, a);
    hide Reachable, Step, Enabled, WorkLeft, Inv, WaitInv, Room;
  }

  lemma ReachWorks<T>(s: State<T>, a: Action<T>)
    requires Inv(s) && Enabled(s, a)
    ensures a.Produce? || a.HandOver? || a.Consume? ==> WorkLeft(Step(s, a)) < WorkLeft(s)
  {
    hide Step, Enabled, WorkLeft, FifoInv, SizeInv, FillInv;
    StepWorks(s, a);
  }

  // ---------- a sender nobody reads for is refused ----------

  /**
    The consumer is stuck in front of a full output. If the producer has left the consumer's channel,
    it did so with `n` elements in it; if not, it will do so with as many as the capacity.
   */
  ghost predicate Stuck<T>(s: State<T>, n: nat) {
    && s.consumer.Forward? && |s.output.buf| >= s.output.cap && 0 < s.taken <= |s.chans|
    && (s.taken < |s.chans| ==> |s.chans[s.taken - 1].buf| == n)
    && (s.taken == |s.chans| ==>
          n == s.capacity && s.taken > 1 && (s.producer.CheckQuarter? ==> |s.Curr().buf| >= s.capacity))
  }

  lemma StuckWhileProducing<T>(s: State<T>, n: nat)
    requires Inv(s) && s.capacity > 0 && Stuck(s, n) && ProducerEnabled(s)
    ensures Stuck(ProducerStep(s), n)
  {
    var s' := ProducerStep(s);
    assert s.Curr().cap == SizeOf(s.capacity, |s.chans| - 1);
    assert forall i | 0 <= i < |s.chans| - 1 :: s'.chans[i] == s.chans[i];
    hide FifoInv;
  }

  /** A move of the goroutines, or a send, leaves the consumer stuck. */
  lemma StaysStuck<T>(s: State<T>, a: Action<T>, n: nat)
    requires Inv(s) && s.capacity > 0 && Enabled(s, a) && (a.Produce? || a.HandOver? || a.Consume? || a.OutsideSend?)
    ensures Stuck(s, n) ==> Stuck(Step(s, a), n)
  {
    if Stuck(s, n) {
      hide Inv, ProducerStep, ProducerEnabled;
      if a.Produce? {
        StuckWhileProducing(s, n);
      }
    }
  }

  /** Let the pipe move as long as it can, then send, until it takes no more. */
  lemma {:induction false} FillUp<T(!new)>(capacity: nat, s: State<T>, v: T, n: nat) returns (full: State<T>)
    requires capacity > 0 && Reachable(capacity, s) && !s.input.closed
    ensures Reachable(capacity, full) && Refuses(full) && full.delivered == s.delivered
    ensures Stuck(s, n) ==> Stuck(full, n)
    decreases SpaceFor(s), Room(s)
  {
    ReachHolds(capacity, s);
    hide Reachable, Inv, WaitInv, SpaceFor, Room, Step, Stuck;
    if PipeCanMove(s) {
      var a: Action<T> := if Enabled(s, Produce) then Produce else if Enabled(s, HandOver) then HandOver else Consume;
      Onward(capacity, s, a);
      StaysStuck(s, a, n);
      full := FillUp(capacity, Step(s, a), v, n);
    } else if Enabled(s, OutsideSend(v)) {
      Onward(capacity, s, OutsideSend(v));
      StaysStuck(s, OutsideSend(v), n);
      full := FillUp(capacity, Step(s, OutsideSend(v)), v, n);
    } else {
      full := s;
    }
  }

  lemma RefusingRun<T(!new)>(capacity: nat, s: State<T>) returns (run: seq<Action<T>>)
    requires Reachable(capacity, s)
    ensures Legal(Init(capacity), run) && After(Init(capacity), run) == s
  {
    run :| Legal(Init(capacity), run) && After(Init(capacity), run) == s;
  }

  // ---------- both bounds are met ----------

  /** Nothing has come out, the consumer has not begun, and the producer has made at most `n` channels. */
  predicate Filling<T>(s: State<T>, n: nat) {
    && s.consumer.NextChannel? && s.taken == 0 && s.output.buf == [] && s.delivered == []
    && !s.input.closed && s.input.buf == [] && |s.chans| <= n
  }

  function ProducerAction<T>(s: State<T>, v: T): Action<T> {
    if s.producer.Receive? && s.input.buf == [] then OutsideHand(v) else Produce
  }

  lemma FillingGoesOn<T>(s: State<T>, v: T, n: nat)
    requires Inv(s) && s.capacity > 0 && Filling(s, n) && |s.chans| < n <= MAX_WAITING
    ensures Enabled(s, ProducerAction(s, v)) && Filling(Step(s, ProducerAction(s, v)), n)
  {
    hide FifoInv;
    assert s.chans != [] ==> s.Curr().cap == SizeOf(s.capacity, |s.chans| - 1);
  }

  /** The producer alone, fed one element at a time, makes as many channels as are asked for. */
  lemma {:induction false} Fill<T(!new)>(capacity: nat, s: State<T>, v: T, n: nat) returns (filled: State<T>)
    requires capacity > 0 && Reachable(capacity, s) && Filling(s, n) && n <= MAX_WAITING
    ensures Reachable(capacity, filled) && Filling(filled, n) && |filled.chans| == n
    decreases SpaceFor(s), Room(s)
  {
    ReachHolds(capacity, s);
    hide Reachable, Inv, WaitInv, SpaceFor, Room, Step, Filling, Enabled;
    if |s.chans| >= n {
      AllMade(s, n);
      filled := s;
    } else {
      FillingGoesOn(s, v, n);
      Onward(capacity, s, ProducerAction(s, v));
      filled := Fill(capacity, Step(s, ProducerAction(s, v)), v, n);
    }
  }

  lemma AllMade<T>(s: State<T>, n: nat)
    requires Filling(s, n) && |s.chans| >= n
    ensures |s.chans| == n
  {
  }

  /** Two channels are made; until the consumer comes to the second, what it got and the first still holds fits the output. */
  predicate Following<T>(s: State<T>) {
    && |s.chans| == 2 && s.delivered == [] && !s.input.closed && s.input.buf == []
    && (s.taken <= 1 ==> |s.output.buf| + |InConsumer(s.consumer)| + |s.chans[0].buf| <= s.capacity)
  }

  /** The consumer moves when it can, so the producer always finds its channel empty. */
  function FollowingAction<T>(s: State<T>, v: T): Action<T> {
    if ConsumerEnabled(s) then Consume else ProducerAction(s, v)
  }

  lemma EmptyWhenProducing<T>(s: State<T>)
    requires Inv(s) && s.capacity > 0 && Following(s) && !Stuck(s, s.capacity) && !ConsumerEnabled(s)
    ensures |s.Curr().buf| == 0 && s.Curr().cap == 2 * s.capacity
    ensures ProducerEnabled(s) || s.producer.Receive?
  {
    hide FifoInv;
    assert s.Curr().cap == SizeOf(s.capacity, 1);
  }

  lemma FollowingGoesOn<T>(s: State<T>, v: T)
    requires Inv(s) && s.capacity > 0 && Following(s) && !Stuck(s, s.capacity)
    ensures Enabled(s, FollowingAction(s, v)) && Following(Step(s, FollowingAction(s, v)))
  {
    if ConsumerEnabled(s) {
      hide FifoInv, SizeInv;
    } else {
      EmptyWhenProducing(s);
      hide FifoInv, SizeInv, ChainInv, FillInv, Stuck;
    }
  }

  lemma {:induction false} Follow<T(!new)>(capacity: nat, s: State<T>, v: T) returns (stuck: State<T>)
    requires capacity > 0 && Reachable(capacity, s) && Following(s)
    ensures Reachable(capacity, stuck) && Following(stuck) && Stuck(stuck, capacity)
    decreases SpaceFor(s), Room(s)
  {
    ReachHolds(capacity, s);
    hide Reachable, Inv, WaitInv, SpaceFor, Room, Step, Following, Stuck, Enabled;
    if Stuck(s, capacity) {
      stuck := s;
    } else {
      FollowingGoesOn(s, v);
      Onward(capacity, s, FollowingAction(s, v));
      stuck := Follow(capacity, Step(s, FollowingAction(s, v)), v);
    }
  }

  lemma FilledIsFollowing<T>(s: State<T>)
    requires FillInv(s) && Filling(s, 2) && |s.chans| == 2
    ensures Following(s)
  {
  }

  /** A sender nobody reads for is refused in the end, and with the largest number of elements on their way. */
  lemma BlocksInTheEnd<T(!new)>(capacity: nat, v: T) returns (run: seq<Action<T>>)
    requires capacity > 0
    ensures Legal(Init(capacity), run) && Refuses(After(Init(capacity), run))
    ensures var s := After(Init(capacity), run);
      s.delivered == [] && |s.sent| == 1003 * capacity + 2
  {
    ReachStart<T>(capacity);
    var filled := Fill(capacity, Init(capacity), v, 2);
    ReachHolds(capacity, filled);
    FilledIsFollowing(filled);
    var stuck := Follow(capacity, filled, v);
    var full := FillUp(capacity, stuck, v, capacity);
    ReachHolds(capacity, full);
    FullPipe(full);
    run := RefusingRun(capacity, full);
    hide Inv, WaitInv, Reachable, Refuses, Legal, After, Filling;
    assert (MAX_WAITING + 2) * capacity + capacity == (MAX_WAITING + 3) * capacity;
  }

  /** What the first three channels hold. */
  function InThree<T>(s: State<T>): nat
    requires |s.chans| >= 3
  {
    |s.chans[0].buf| + |s.chans[1].buf| + |s.chans[2].buf|
  }

  /** Of four channels the third is full until its turn comes, and output and consumer get what is last in the first three. */
  predicate Draining<T>(s: State<T>) {
    && |s.chans| == 4 && s.published >= 3 && s.taken <= 3 && !s.input.closed
    && (s.taken < 3 ==> |s.chans[2].buf| == s.capacity)
    && var rest := InThree(s) + |InConsumer(s.consumer)| + |s.output.buf|;
       rest > s.capacity && (s.output.buf == [] || rest == s.capacity + 1)
  }

  function DrainingAction<T>(s: State<T>): Action<T>
    requires |s.chans| >= 3
  {
    if s.consumer.Forward? && InThree(s) + |s.output.buf| > s.capacity then OutsideTake else Consume
  }

  function DrainingWork<T>(s: State<T>): int
    requires |s.chans| >= 3
  {
    3 * InThree(s) + 4 * (3 - s.taken) + ConsumerWork(s.consumer)
  }

  lemma DrainingGoesOn<T>(s: State<T>)
    requires Inv(s) && s.capacity > 0 && Draining(s) && !Stuck(s, 0)
    ensures Enabled(s, DrainingAction(s)) && Draining(Step(s, DrainingAction(s)))
    ensures 0 <= DrainingWork(Step(s, DrainingAction(s))) < DrainingWork(s)
  {
    hide FifoInv;
  }

  lemma {:induction false} Drained<T(!new)>(capacity: nat, s: State<T>) returns (stuck: State<T>)
    requires capacity > 0 && Reachable(capacity, s) && Draining(s)
    ensures Reachable(capacity, stuck) && Draining(stuck) && Stuck(stuck, 0)
    decreases DrainingWork(s)
  {
    ReachHolds(capacity, s);
    if Stuck(s, 0) {
      stuck := s;
    } else {
      DrainingGoesOn(s);
      hide Inv, WaitInv, Step, Enabled, Stuck;
      ReachStep(capacity, s, DrainingAction(s));
      stuck := Drained(capacity, Step(s, DrainingAction(s)));
    }
  }

  lemma FilledIsDraining<T>(s: State<T>)
    requires Inv(s) && WaitInv(s) && s.capacity > 0 && Filling(s, 4) && |s.chans| == 4
    ensures Draining(s)
  {
    hide FifoInv, SizeInv;
  }

  /** With a receiver who stops in time the sender is refused with the smallest number. */
  lemma BlocksWithLeast<T(!new)>(capacity: nat, v: T) returns (run: seq<Action<T>>)
    requires capacity > 0
    ensures Legal(Init(capacity), run) && Refuses(After(Init(capacity), run))
    ensures var s := After(Init(capacity), run);
      |s.sent| == |s.delivered| + 1002 * capacity + 2
  {
    ReachStart<T>(capacity);
    var filled := Fill(capacity, Init(capacity), v, 4);
    ReachHolds(capacity, filled);
    FilledIsDraining(filled);
    var stuck := Drained(capacity, filled);
    var full := FillUp(capacity, stuck, v, 0);
    ReachHolds(capacity, full);
    FullPipe(full);
    run := RefusingRun(capacity, full);
    hide Inv, WaitInv, Reachable, Refuses, Legal, After, Filling;
  }

  // ---------- and what is sent arrives ----------

  /** What the outside has to do for a pipe which cannot go on by itself: receive, or close the input. */
  function Help<T>(s: State<T>): Action<T> {
    if s.output.buf != [] then OutsideReceive else if s.consumer.Forward? then OutsideTake else OutsideClose
  }

  lemma HelpIsPossible<T>(s: State<T>)
    requires Inv(s) && !PipeCanMove(s) && !(s.output.closed && s.output.buf == [])
    ensures Enabled(s, Help(s))
    ensures Help(s).OutsideClose? ==> !s.input.closed
  {
    hide FifoInv, SizeInv, FillInv;
  }

  lemma HelpHelps<T>(s: State<T>)
    requires Enabled(s, Help(s))
    ensures var s' := Step(s, Help(s));
      && s'.sent == s.sent
      && if Help(s).OutsideClose? then s'.input.closed && s'.delivered == s.delivered
         else s'.input.closed == s.input.closed && |s'.delivered| == |s.delivered| + 1
  {
  }

  lemma {:induction false} Finish<T(!new)>(capacity: nat, s: State<T>) returns (done: State<T>, rest: seq<Action<T>>)
    requires Reachable(capacity, s)
    ensures Legal(s, rest) && After(s, rest) == done
    ensures Inv(done) && done.output.closed && done.output.buf == [] && done.sent == s.sent
    decreases !s.input.closed, |s.sent| - |s.delivered|, Room(s)
  {
    ReachHolds(capacity, s);
    DeliveredFirst(s);
    hide Reachable, WaitInv, Room, Step, Enabled, Inv;
    done, rest := s, [];
    if PipeCanMove(s) {
      var a: Action<T> := if Enabled(s, Produce) then Produce else if Enabled(s, HandOver) then HandOver else Consume;
      HistoryOf(s, a);
      MoveMakesProgress(capacity, s, a);
      done, rest := Finish(capacity, Step(s, a));
      ConsRun(s, a, rest);
      rest := [a] + rest;
    } else if !(s.output.closed && s.output.buf == []) {
      HelpIsPossible(s);
      HelpHelps(s);
      ReachStep(capacity, s, Help(s));
      ReachHolds(capacity, Step(s, Help(s)));
      DeliveredIsSent(Step(s, Help(s)));
      done, rest := Finish(capacity, Step(s, Help(s)));
      ConsRun(s, Help(s), rest);
      rest := [Help(s)] + rest;
    }
  }

  lemma DeliveredIsSent<T>(s: State<T>)
    requires Inv(s)
    ensures s.delivered <= s.sent
  {
    DeliveredFirst(s);
  }

  lemma MoveMakesProgress<T(!new)>(capacity: nat, s: State<T>, a: Action<T>)
    requires Reachable(capacity, s) && Enabled(s, a) && (a.Produce? || a.HandOver? || a.Consume?)
    ensures Reachable(capacity, Step(s, a)) && Room(Step(s, a)) < Room(s)
    ensures Step(s, a).sent == s.sent && Step(s, a).delivered == s.delivered
  {
    ReachStep(capacity, s, a);
    ReachHolds(capacity, s);
    ReachHolds(capacity, Step(s, a));
    ReachWorks(s, a);
    MoveKeepsHistory(s, a);
    hide Reachable, Step, Enabled, WorkLeft, Inv, WaitInv, Room;
  }

  /** A move of the goroutines leaves the history of the outside alone. */
  lemma MoveKeepsHistory<T>(s: State<T>, a: Action<T>)
    requires Enabled(s, a) && (a.Produce? || a.HandOver? || a.Consume?)
    ensures Step(s, a).sent == s.sent && Step(s, a).delivered == s.delivered
  {
    hide Flatten, InProducer, InConsumer;
  }

  lemma ConsRun<T>(s: State<T>, a: Action<T>, run: seq<Action<T>>)
    requires Enabled(s, a) && Legal(Step(s, a), run)
    ensures Legal(s, [a] + run) && After(s, [a] + run) == After(Step(s, a), run)
  {
    assert ([a] + run)[1..] == run;
    hide Enabled, Step;
  }

  /**
    From every state of a run, for every capacity, the outside can close the input and receive so that
    the output is closed in the end and everything that was sent has been delivered, in order.
   */
  lemma EverythingArrives<T(!new)>(capacity: nat, run: seq<Action<T>>) returns (rest: seq<Action<T>>)
    requires Legal(Init(capacity), run)
    ensures Legal(After(Init(capacity), run), rest)
    ensures var s := After(After(Init(capacity), run), rest);
      s.output.closed && s.delivered == s.sent == After(Init(capacity), run).sent
  {
    var s := After(Init<T>(capacity), run);
    assert Reachable(capacity, s);
    var done;
    done, rest := Finish(capacity, s);
    hide Legal, After, Init;
    AllDelivered(done);
  }

  lemma AllDelivered<T>(s: State<T>)
    requires Inv(s) && s.output.closed && s.output.buf == []
    ensures s.delivered == s.sent
  {
    FlattenEmpty(s.chans);
    hide SizeInv, FillInv;
  }
}
