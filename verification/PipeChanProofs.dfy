/** The pipe is a lossless queue, its channels keep to three sizes, and it never gets stuck on its own. */
module PipeChanTheorems {
  import opened PipeChan

  // ---------- contents ----------

  function Flatten<T>(chans: seq<Chan<T>>): seq<T> {
    if chans == [] then [] else Flatten(chans[..|chans| - 1]) + chans[|chans| - 1].buf
  }

  /** The element the producer has received and not yet passed on. */
  function InProducer<T>(p: Producer<T>): seq<T> {
    match p
    case CheckGrow(v) => [v]
    case PublishGrown(v) => [v]
    case CheckFilled(v) => [v]
    case CheckQuarter(v) => [v]
    case PublishShrunk(v) => [v]
    case Send(v) => [v]
    case _ => []
  }

  function InConsumer<T>(c: Consumer<T>): seq<T> {
    if c.Forward? then [c.elem] else []
  }

  /** Everything the pipe has taken in, oldest first, wherever it is now. */
  function Contents<T>(s: State<T>): seq<T> {
    s.delivered + s.output.buf + InConsumer(s.consumer) + Flatten(s.chans) + InProducer(s.producer)
  }

  ghost predicate FifoInv<T>(s: State<T>) {
    && s.consumed == Contents(s)
    && s.sent == s.consumed + s.input.buf
  }

  /** Where the channels stand: the consumer works on the oldest channel that is not empty. */
  ghost predicate ChainInv<T>(s: State<T>) {
    && s.taken <= s.published <= |s.chans|
    && s.published - s.taken <= MAX_WAITING
    && (s.producer.Create? <==> s.chans == [])
    && |s.chans| == s.published
                    + (if s.producer.PublishFirst? || s.producer.PublishGrown? || s.producer.PublishShrunk? then 1 else 0)
    && (forall i | 0 <= i < |s.chans| - 1 :: s.chans[i].closed)
    && (s.chans != [] ==> (s.Curr().closed <==> s.producer.CloseChain? || s.producer.Finished?))
    && (s.chainClosed <==> s.producer.Finished?)
    && (s.consumer.Drain? || s.consumer.Forward? ==> s.taken > 0)
    && (forall i | 0 <= i < s.taken - 1 :: s.chans[i].buf == [])
    && (s.consumer.NextChannel? && s.taken > 0 ==> s.chans[s.taken - 1].buf == [] && s.chans[s.taken - 1].closed)
    && (s.consumer.Closed? ==> s.chainClosed && s.taken == |s.chans| && s.Curr().buf == [])
    && (s.output.closed <==> s.consumer.Closed?)
    && (s.producer.CloseLast? || s.producer.CloseChain? || s.producer.Finished? ==> s.input.closed && s.input.buf == [])
  }

  /** The sizes the channels are made with: c, then 2c and 4c in turn. */
  function SizeOf(capacity: nat, i: nat): nat {
    if i == 0 then capacity else if i % 2 == 1 then 2 * capacity else 4 * capacity
  }

  ghost predicate SizeInv<T>(s: State<T>) {
    && (forall i | 0 <= i < |s.chans| :: s.chans[i].cap == SizeOf(s.capacity, i))
    && s.input.cap == s.output.cap == s.capacity
  }

  /** What the producer has established about the length of the current channel. */
  predicate CurrentFill<T>(s: State<T>)
    requires s.chans != []
  {
    var n, cap := |s.Curr().buf|, s.Curr().cap;
    match s.producer
    case PublishFirst => n == 0
    case PublishGrown(_) => n == 0 && |s.chans| > 1
    case PublishShrunk(_) => n == 0
    case CheckFilled(_) => n < cap / 2
    case CheckQuarter(_) => cap == 4 * s.capacity
    case Send(_) => n < s.capacity
    case _ => true
  }

  ghost predicate FillInv<T>(s: State<T>) {
    && (forall i | 0 <= i < |s.chans| :: |s.chans[i].buf| <= s.capacity)
    && |s.input.buf| <= s.capacity && |s.output.buf| <= s.capacity
    && (s.chans != [] && s.capacity > 0 ==> CurrentFill(s))
  }

  ghost predicate Inv<T>(s: State<T>) { FifoInv(s) && ChainInv(s) && SizeInv(s) && FillInv(s) }

  lemma FlattenSnoc<T>(chans: seq<Chan<T>>, c: Chan<T>)
    ensures Flatten(chans + [c]) == Flatten(chans) + c.buf
  {
    assert (chans + [c])[..|chans|] == chans;
  }

  lemma {:induction false} FlattenEmpty<T>(chans: seq<Chan<T>>)
    requires forall i | 0 <= i < |chans| :: chans[i].buf == []
    ensures Flatten(chans) == []
  {
    if chans == [] {
    } else {
      FlattenEmpty(chans[..|chans| - 1]);
    }
  }

  lemma FlattenSame<T>(chans: seq<Chan<T>>, c: Chan<T>)
    requires chans != [] && c.buf == chans[|chans| - 1].buf
    ensures Flatten(chans[|chans| - 1 := c]) == Flatten(chans)
  {
    assert chans[|chans| - 1 := c][..|chans| - 1] == chans[..|chans| - 1];
  }

  /** Taking the first element of the first nonempty channel takes the first element of the chain. */
  lemma {:induction false} FlattenPop<T>(chans: seq<Chan<T>>, i: nat)
    requires i < |chans| && chans[i].buf != []
    requires forall j | 0 <= j < i :: chans[j].buf == []
    ensures Flatten(chans) == [chans[i].buf[0]] + Flatten(chans[i := chans[i].(buf := chans[i].buf[1..])])
  {
    var last := |chans| - 1;
    var c := chans[i].(buf := chans[i].buf[1..]);
    if i == last {
      FlattenEmpty(chans[..last]);
      assert chans[i := c][..last] == chans[..last];
    } else {
      FlattenPop(chans[..last], i);
      assert chans[i := c][..last] == chans[..last][i := c];
    }
  }

  // ---------- each step ----------

  lemma FlattenReplaced<T>(s: State<T>, cap: nat)
    requires s.chans != []
    ensures Flatten(s.CloseCurr().NewChan(cap).chans) == Flatten(s.chans)
  {
    FlattenSame(s.chans, s.Curr().(closed := true));
    FlattenSnoc(s.CloseCurr().chans, Chan(cap, [], false));
  }

  lemma SendMoves<T>(s: State<T>)
    requires ProducerEnabled(s)
    ensures s.producer.Send? ==> Flatten(ProducerStep(s).chans) == Flatten(s.chans) + [s.producer.elem]
  {
    if s.producer.Send? {
      var last := |s.chans| - 1;
      assert ProducerStep(s).chans[..last] == s.chans[..last];
    }
  }

  /** One producer step moves nothing but the front of its own hand to the end of the chain. */
  lemma ProducerMoves<T>(s: State<T>)
    requires ProducerEnabled(s)
    ensures Flatten(ProducerStep(s).chans) == Flatten(s.chans) + if s.producer.Send? then [s.producer.elem] else []
  {
    var s' := ProducerStep(s);
    SendMoves(s);
    hide Flatten;
    if s.producer.Create? {
      FlattenSnoc(s.chans, Chan(s.capacity, [], false));
    } else if s.producer.CheckGrow? {
      FlattenReplaced(s, s.Curr().cap * 2);
    } else if s.producer.CheckQuarter? {
      FlattenReplaced(s, s.Curr().cap / 2);
    } else if s.producer.CloseLast? {
      FlattenSame(s.chans, s.Curr().(closed := true));
    }
  }

  /** A step that takes `x` from the input and appends `y` to the chain keeps the contents in order. */
  lemma FifoFrom<T>(s: State<T>, s': State<T>, x: seq<T>, y: seq<T>)
    requires FifoInv(s)
    requires s'.delivered == s.delivered && s'.output == s.output && s'.consumer == s.consumer
    requires s'.sent == s.sent && s'.consumed == s.consumed + x && s.input.buf == x + s'.input.buf
    requires Flatten(s'.chans) == Flatten(s.chans) + y
    requires InProducer(s.producer) + x == y + InProducer(s'.producer)
    ensures FifoInv(s')
  {
    hide Flatten, InConsumer, InProducer;
    var ahead := s.delivered + s.output.buf + InConsumer(s.consumer) + Flatten(s.chans);
    assert ahead + InProducer(s.producer) + x == ahead + (InProducer(s.producer) + x);
    assert ahead + (y + InProducer(s'.producer)) == ahead + y + InProducer(s'.producer);
    assert ahead + y == s.delivered + s.output.buf + InConsumer(s.consumer) + (Flatten(s.chans) + y);
    assert s.consumed + x + s'.input.buf == s.consumed + (x + s'.input.buf);
  }

  /** What a producer step takes from the input, and that it leaves the other ends alone. */
  lemma ProducerTakes<T>(s: State<T>) returns (x: seq<T>, y: seq<T>)
    requires ProducerEnabled(s)
    ensures
      var s' := ProducerStep(s);
      && s'.delivered == s.delivered && s'.output == s.output && s'.consumer == s.consumer
      && s'.sent == s.sent && s'.consumed == s.consumed + x && s.input.buf == x + s'.input.buf
      && InProducer(s.producer) + x == y + InProducer(s'.producer)
    ensures y == if s.producer.Send? then [s.producer.elem] else []
  {
    x := if s.producer.Receive? && s.input.buf != [] then [s.input.buf[0]] else [];
    y := if s.producer.Send? then [s.producer.elem] else [];
  }

  lemma FifoKeptByProducer<T>(s: State<T>, s': State<T>)
    requires FifoInv(s) && ProducerEnabled(s) && s' == ProducerStep(s)
    ensures FifoInv(s')
  {
    ProducerMoves(s);
    var x, y := ProducerTakes(s);
    FifoFrom(s, s', x, y);
  }

  lemma FifoKeptByConsumer<T>(s: State<T>)
    requires FifoInv(s) && ChainInv(s) && ConsumerEnabled(s)
    ensures FifoInv(ConsumerStep(s))
  {
    if s.consumer.Drain? && s.chans[s.taken - 1].buf != [] {
      FlattenPop(s.chans, s.taken - 1);
    }
  }

  lemma HandOverIsFifo<T>(s: State<T>)
    requires FifoInv(s) && ChainInv(s) && Enabled(s, HandOver)
    ensures FifoInv(Step(s, HandOver))
  {
    FlattenEmpty(s.chans);
    hide Flatten, ChainInv;
    var v, head := s.producer.elem, s.delivered + s.output.buf;
    assert Contents(s) == head + [v];
    assert Contents(Step(s, HandOver)) == head + [v];
  }

  lemma FifoKeptOutside<T>(s: State<T>, a: Action<T>)
    requires FifoInv(s) && Enabled(s, a) && !a.Produce? && !a.Consume? && !a.HandOver?
    ensures FifoInv(Step(s, a))
  {
    hide Flatten;
  }

  lemma FifoKept<T>(s: State<T>, a: Action<T>)
    requires FifoInv(s) && ChainInv(s) && Enabled(s, a)
    ensures FifoInv(Step(s, a))
  {
    hide FifoInv, ChainInv, ProducerStep, ConsumerStep, ProducerEnabled, ConsumerEnabled;
    match a
    case Produce => FifoKeptByProducer(s, ProducerStep(s));
    case Consume => FifoKeptByConsumer(s);
    case HandOver => HandOverIsFifo(s);
    case _ => FifoKeptOutside(s, a);
  }

  lemma ChainKeptByReplacing<T>(s: State<T>)
    requires ChainInv(s) && ProducerEnabled(s) && (s.producer.CheckGrow? || s.producer.CheckQuarter?)
    ensures ChainInv(ProducerStep(s))
  {
    var s' := ProducerStep(s);
    if s'.chans != s.chans {
      assert |s'.chans| == |s.chans| + 1;
      assert forall i | 0 <= i < |s.chans| - 1 :: s'.chans[i] == s.chans[i];
      assert s'.chans[|s.chans| - 1] == s.Curr().(closed := true);
    }
  }

  lemma ChainKeptByProducer<T>(s: State<T>)
    requires ChainInv(s) && ProducerEnabled(s) && !s.producer.CheckGrow? && !s.producer.CheckQuarter?
    ensures ChainInv(ProducerStep(s))
  {
    var s' := ProducerStep(s);
    assert forall i | 0 <= i < |s.chans| - 1 :: s'.chans[i] == s.chans[i];
  }

  lemma ChainKeptByConsumer<T>(s: State<T>)
    requires ChainInv(s) && ConsumerEnabled(s)
    ensures ChainInv(ConsumerStep(s))
  {
  }

  lemma ChainKept<T>(s: State<T>, a: Action<T>)
    requires ChainInv(s) && Enabled(s, a)
    ensures ChainInv(Step(s, a))
  {
    match a
    case Produce =>
      if s.producer.CheckGrow? || s.producer.CheckQuarter? {
        ChainKeptByReplacing(s);
      } else {
        ChainKeptByProducer(s);
      }
    case Consume => ChainKeptByConsumer(s);
    case _ =>
  }

  lemma SizesKeptByReplacing<T>(s: State<T>)
    requires ChainInv(s) && SizeInv(s) && FillInv(s) && ProducerEnabled(s)
    requires s.producer.CheckGrow? || s.producer.CheckQuarter?
    ensures SizeInv(ProducerStep(s))
  {
    var s' := ProducerStep(s);
    hide ChainInv;
    assert forall i | 0 <= i < |s.chans| :: s'.chans[i].cap == s.chans[i].cap;
  }

  lemma SizesKept<T>(s: State<T>)
    requires ChainInv(s) && SizeInv(s) && FillInv(s) && ProducerEnabled(s)
    ensures SizeInv(ProducerStep(s))
  {
    if s.producer.CheckGrow? || s.producer.CheckQuarter? {
      SizesKeptByReplacing(s);
    } else if s.chans != [] {
      hide FillInv;
      var s' := ProducerStep(s);
      assert forall i | 0 <= i < |s.chans| :: s'.chans[i].cap == s.chans[i].cap;
    }
  }

  lemma FillKeptByReplacing<T>(s: State<T>)
    requires ChainInv(s) && SizeInv(s) && FillInv(s) && ProducerEnabled(s)
    requires s.producer.CheckGrow? || s.producer.CheckQuarter?
    ensures FillInv(ProducerStep(s))
  {
    var s' := ProducerStep(s);
    assert forall i | 0 <= i < |s.chans| - 1 :: s'.chans[i].buf == s.chans[i].buf;
    assert s.Curr().cap == SizeOf(s.capacity, |s.chans| - 1);
  }

  lemma FillKeptByProducer<T>(s: State<T>)
    requires ChainInv(s) && SizeInv(s) && FillInv(s) && ProducerEnabled(s)
    requires !s.producer.CheckGrow? && !s.producer.CheckQuarter?
    ensures FillInv(ProducerStep(s))
  {
    var s' := ProducerStep(s);
    if s.chans != [] {
      assert forall i | 0 <= i < |s.chans| - 1 :: s'.chans[i].buf == s.chans[i].buf;
      assert s.Curr().cap == SizeOf(s.capacity, |s.chans| - 1);
    }
  }

  lemma SizesKeptByOthers<T>(s: State<T>, a: Action<T>)
    requires ChainInv(s) && SizeInv(s) && Enabled(s, a) && !a.Produce?
    ensures SizeInv(Step(s, a))
  {
  }

  lemma FillKeptByConsumer<T>(s: State<T>)
    requires ChainInv(s) && SizeInv(s) && FillInv(s) && ConsumerEnabled(s)
    ensures FillInv(ConsumerStep(s))
  {
  }

  lemma FillKeptOutside<T>(s: State<T>, a: Action<T>)
    requires ChainInv(s) && SizeInv(s) && FillInv(s) && Enabled(s, a) && !a.Produce? && !a.Consume?
    ensures FillInv(Step(s, a))
  {
  }

  lemma FillKept<T>(s: State<T>, a: Action<T>)
    requires ChainInv(s) && SizeInv(s) && FillInv(s) && Enabled(s, a)
    ensures SizeInv(Step(s, a)) && FillInv(Step(s, a))
  {
    hide ChainInv, SizeInv, FillInv, ProducerStep, ConsumerStep, ProducerEnabled, ConsumerEnabled;
    if a.Produce? {
      SizesKept(s);
      if s.producer.CheckGrow? || s.producer.CheckQuarter? {
        FillKeptByReplacing(s);
      } else {
        FillKeptByProducer(s);
      }
    } else {
      SizesKeptByOthers(s, a);
      if a.Consume? {
        FillKeptByConsumer(s);
      } else {
        FillKeptOutside(s, a);
      }
    }
  }

  lemma CapacityStays<T>(s: State<T>, a: Action<T>)
    requires Enabled(s, a)
    ensures Step(s, a).capacity == s.capacity
  {
  }

  lemma {:induction false} RunInv<T>(s: State<T>, run: seq<Action<T>>)
    requires Inv(s) && Legal(s, run)
    ensures Inv(After(s, run)) && After(s, run).capacity == s.capacity
    decreases |run|
  {
    if run == [] {
    } else {
      hide Step, Enabled, FifoInv, ChainInv, SizeInv, FillInv;
      FifoKept(s, run[0]);
      ChainKept(s, run[0]);
      FillKept(s, run[0]);
      CapacityStays(s, run[0]);
      RunInv(Step(s, run[0]), run[1..]);
    }
  }

  lemma ReachInv<T>(capacity: nat, run: seq<Action<T>>)
    requires Legal(Init(capacity), run)
    ensures Inv(After(Init(capacity), run)) && After(Init(capacity), run).capacity == capacity
  {
    RunInv(Init<T>(capacity), run);
  }

  // ---------- what holds of every run ----------

  /**
    Lossless queue, for every capacity and every interleaving: what has come out, followed by what is
    on its way in the order of the pipe, followed by what still waits at the input, is what was sent.
    All channels but the producer's current one are closed.
   */
  lemma LosslessQueue<T>(capacity: nat, run: seq<Action<T>>)
    requires Legal(Init(capacity), run)
    ensures
      var s := After(Init(capacity), run);
      && s.sent == Contents(s) + s.input.buf
      && s.delivered <= s.sent
      && (forall i | 0 <= i < |s.chans| - 1 :: s.chans[i].closed)
  {
    ReachInv(capacity, run);
    var s := After(Init(capacity), run);
    hide After, Legal, Init;
    DeliveredFirst(s);
  }

  lemma DeliveredFirst<T>(s: State<T>)
    requires FifoInv(s)
    ensures s.delivered <= s.sent
  {
    hide Flatten, InConsumer, InProducer;
    var rest := s.output.buf + InConsumer(s.consumer) + Flatten(s.chans) + InProducer(s.producer) + s.input.buf;
    assert s.sent == s.delivered + rest;
  }

  /** The output is closed only when the input is, and then holds or has delivered exactly what was sent. */
  lemma ClosedMeansDelivered<T>(capacity: nat, run: seq<Action<T>>)
    requires Legal(Init(capacity), run) && After(Init(capacity), run).output.closed
    ensures
      var s := After(Init(capacity), run);
      s.input.closed && s.sent == s.delivered + s.output.buf
  {
    ReachInv(capacity, run);
    var s := After(Init(capacity), run);
    FlattenEmpty(s.chans);
  }

  /** The channels are made with the sizes c, 2c, 4c, 2c, 4c, ... and no others: doubling never goes past 4c. */
  lemma ChannelSizes<T>(capacity: nat, run: seq<Action<T>>, i: nat)
    requires Legal(Init(capacity), run) && i < |After(Init(capacity), run).chans|
    ensures After(Init(capacity), run).chans[i].cap == SizeOf(capacity, i)
    ensures |After(Init(capacity), run).chans[i].buf| <= capacity
  {
    ReachInv(capacity, run);
  }

  /** For a positive capacity the send into the current channel always finds room. */
  lemma SendNeverBlocks<T>(capacity: nat, run: seq<Action<T>>)
    requires capacity > 0 && Legal(Init(capacity), run) && After(Init(capacity), run).producer.Send?
    ensures ProducerEnabled(After(Init(capacity), run))
  {
    ReachInv(capacity, run);
    var s := After(Init(capacity), run);
    assert s.Curr().cap == SizeOf(capacity, |s.chans| - 1);
  }

  // ---------- how much the pipe can hold ----------

  lemma {:induction false} FlattenLength<T>(chans: seq<Chan<T>>, from: nat, capacity: nat)
    requires from <= |chans|
    requires forall i | 0 <= i < from :: chans[i].buf == []
    requires forall i | 0 <= i < |chans| :: |chans[i].buf| <= capacity
    ensures |Flatten(chans)| <= (|chans| - from) * capacity
  {
    if from == |chans| {
      FlattenEmpty(chans);
    } else {
      var last := |chans| - 1;
      FlattenLength(chans[..last], from, capacity);
      assert (last - from) * capacity + capacity == (|chans| - from) * capacity;
    }
  }

  lemma Monotone(a: int, b: int, c: nat)
    requires a <= b
    ensures a * c <= b * c
  {
  }

  /**
    The pipe does block a sender nobody reads for: since at most 1000 channels can wait, and none
    holds more than c elements, no more than 1003c + 2 elements are ever on their way.
   */
  lemma PipeIsBounded<T>(capacity: nat, run: seq<Action<T>>)
    requires Legal(Init(capacity), run)
    ensures
      var s := After(Init(capacity), run);
      |s.sent| <= |s.delivered| + 1003 * capacity + 2
  {
    ReachInv(capacity, run);
    var s := After(Init(capacity), run);
    ChainIsBounded(s);
    assert |InConsumer(s.consumer)| <= 1 && |InProducer(s.producer)| <= 1;
    assert (MAX_WAITING + 3) * capacity == (MAX_WAITING + 1) * capacity + capacity + capacity;
  }

  lemma ChainIsBounded<T>(s: State<T>)
    requires Inv(s)
    ensures |Flatten(s.chans)| <= (MAX_WAITING + 1) * s.capacity
  {
    if s.chans == [] {
    } else {
      var from := if s.taken == 0 then 0 else s.taken - 1;
      if s.published == |s.chans| {
        FlattenLength(s.chans, from, s.capacity);
        Monotone(|s.chans| - from, MAX_WAITING + 1, s.capacity);
      } else {
        var shown := s.chans[..|s.chans| - 1];
        assert |s.Curr().buf| == 0;
        assert Flatten(s.chans) == Flatten(shown);
        FlattenLength(shown, if from <= |shown| then from else |shown|, s.capacity);
        Monotone(|shown| - (if from <= |shown| then from else |shown|), MAX_WAITING + 1, s.capacity);
      }
    }
  }

  // ---------- progress ----------

  predicate PipeCanMove<T>(s: State<T>) {
    Enabled(s, Produce) || Enabled(s, HandOver) || Enabled(s, Consume)
  }

  /**
    The pipe never gets stuck on its own. When neither goroutine can move, then either both have
    ended, or the output is full, or everything received is out and the input is open and empty.
   */
  lemma OnlyWaitsForOutside<T>(capacity: nat, run: seq<Action<T>>)
    requires Legal(Init(capacity), run) && !PipeCanMove(After(Init(capacity), run))
    ensures
      var s := After(Init(capacity), run);
      || s.output.closed
      || (s.consumer.Forward? && |s.output.buf| == capacity)
      || (!s.input.closed && s.sent == s.delivered + s.output.buf)
  {
    ReachInv(capacity, run);
    var s := After(Init(capacity), run);
    match s.consumer
    case Closed =>
    case Forward(_) =>
    case NextChannel => assert false;
    case Drain =>
      assert s.taken == |s.chans| && s.Curr().buf == [] && !s.Curr().closed;
      if s.producer.Receive? {
        FlattenEmpty(s.chans);
      }
  }

  function ProducerWork<T>(p: Producer<T>): nat {
    match p
    case Create => 7
    case PublishFirst => 4
    case Receive => 3
    case CheckGrow(_) => 16
    case PublishGrown(_) => 13
    case CheckFilled(_) => 12
    case CheckQuarter(_) => 11
    case PublishShrunk(_) => 8
    case Send(_) => 7
    case CloseLast => 2
    case CloseChain => 1
    case Finished => 0
  }

  function ConsumerWork<T>(c: Consumer<T>): nat {
    match c
    case Closed => 0
    case NextChannel => 1
    case Drain => 2
    case Forward(_) => 4
  }

  /** An upper bound on the moves the two goroutines can still make without new input. */
  function WorkLeft<T>(s: State<T>): int {
    20 * |s.input.buf| + ProducerWork(s.producer) + 3 * |Flatten(s.chans)| + 2 * (|s.chans| - s.taken) + ConsumerWork(s.consumer)
  }

  lemma StepWorks<T>(s: State<T>, a: Action<T>)
    requires ChainInv(s) && Enabled(s, a)
    ensures a.Outside() ==> WorkLeft(Step(s, a)) <= WorkLeft(s) + 20
    ensures a.OutsideReceive? || a.OutsideTake? ==> WorkLeft(Step(s, a)) <= WorkLeft(s)
    ensures a.Produce? || a.HandOver? || a.Consume? ==> WorkLeft(Step(s, a)) < WorkLeft(s)
  {
    if a.Produce? {
      ProducerMoves(s);
      ProducerWorks(s);
    } else if a.Consume? && s.consumer.Drain? && s.chans[s.taken - 1].buf != [] {
      FlattenPop(s.chans, s.taken - 1);
    }
  }

  lemma ProducerWorks<T>(s: State<T>)
    requires ProducerEnabled(s)
    ensures
      var s' := ProducerStep(s);
      && s'.taken == s.taken && s'.consumer == s.consumer
      && 20 * |s'.input.buf| + ProducerWork(s'.producer) + 2 * |s'.chans| + (if s.producer.Send? then 3 else 0)
         < 20 * |s.input.buf| + ProducerWork(s.producer) + 2 * |s.chans|
  {
  }

  function PipeMoves<T>(run: seq<Action<T>>): nat
    decreases |run|
  {
    if run == [] then 0
    else (if run[0].Produce? || run[0].HandOver? || run[0].Consume? then 1 else 0) + PipeMoves(run[1..])
  }

  function OutsideMoves<T>(run: seq<Action<T>>): nat
    decreases |run|
  {
    if run == [] then 0 else (if run[0].Outside() then 1 else 0) + OutsideMoves(run[1..])
  }

  lemma {:induction false} RunWorks<T>(s: State<T>, run: seq<Action<T>>)
    requires Inv(s) && Legal(s, run)
    ensures PipeMoves(run) + WorkLeft(After(s, run)) <= WorkLeft(s) + 20 * OutsideMoves(run)
    decreases |run|
  {
    if run == [] {
    } else {
      FifoKept(s, run[0]);
      ChainKept(s, run[0]);
      FillKept(s, run[0]);
      StepWorks(s, run[0]);
      RunWorks(Step(s, run[0]), run[1..]);
    }
  }

  /**
    The goroutines make at most 20 moves per outside send or close, plus 8. So once the input is
    closed and the output is read, they end, and by `ClosedMeansDelivered` nothing is lost.
   */
  lemma PipeEnds<T>(capacity: nat, run: seq<Action<T>>)
    requires Legal(Init(capacity), run)
    ensures PipeMoves(run) <= 8 + 20 * OutsideMoves(run)
    ensures
      var s := After(Init(capacity), run);
      !PipeCanMove(s) && s.input.closed && !(s.consumer.Forward? && |s.output.buf| == capacity) ==>
        s.output.closed && s.sent == s.delivered + s.output.buf
  {
    RunWorks(Init<T>(capacity), run);
    ReachInv(capacity, run);
    var s := After(Init(capacity), run);
    if !PipeCanMove(s) && s.input.closed && !(s.consumer.Forward? && |s.output.buf| == capacity) {
      OnlyWaitsForOutside(capacity, run);
      ClosedMeansDelivered(capacity, run);
    }
  }
}
