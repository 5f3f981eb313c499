/**
  PipeChan: a pipe of unbounded look whose elements travel through a chain of bounded channels.

  Processes: the outside sender, the producer goroutine (input to chain), the consumer goroutine
  (chain to output) and the outside receiver. Every action is one channel operation or one read
  of a channel's length. A channel operation on an empty channel may also hand the element straight
  to a waiting receiver, which is what a channel of capacity 0 does.
 */
module PipeChan {

  datatype Chan<T> = Chan(cap: nat, buf: seq<T>, closed: bool)

  /** The bound on the number of channels waiting in the channel of channels. */
  const MAX_WAITING := 1000

  datatype Producer<T> =
    | Create                  // the first channel is about to be made
    | PublishFirst
    | Receive                 // top of the loop
    | CheckGrow(elem: T)
    | PublishGrown(elem: T)
    | CheckFilled(elem: T)    // first length read of the shrink test
    | CheckQuarter(elem: T)   // second length read of the shrink test
    | PublishShrunk(elem: T)
    | Send(elem: T)
    | CloseLast               // input closed and drained
    | CloseChain
    | Finished

  datatype Consumer<T> = NextChannel | Drain | Forward(elem: T) | Closed

  /**
    `chans` are all channels ever made, in order: the producer's current one is the last, the first
    `published` have been sent to the consumer, who has taken `taken` of them and is on the last of
    those. `sent`, `consumed` and `delivered` are the histories at the two ends.
   */
  datatype State<T> = State(
    capacity: nat,
    input: Chan<T>,
    chans: seq<Chan<T>>,
    published: nat,
    taken: nat,
    chainClosed: bool,
    output: Chan<T>,
    producer: Producer<T>,
    consumer: Consumer<T>,
    sent: seq<T>,
    consumed: seq<T>,
    delivered: seq<T>)
  {
    function Curr(): Chan<T>
      requires chans != []
    {
      chans[|chans| - 1]
    }

    function SetCurr(c: Chan<T>): State<T>
      requires chans != []
    {
      this.(chans := chans[|chans| - 1 := c])
    }

    function CloseCurr(): State<T>
      requires chans != []
    {
      SetCurr(Curr().(closed := true))
    }

    function NewChan(cap: nat): State<T> {
      this.(chans := chans + [Chan(cap, [], false)])
    }

    predicate MayPublish() { published - taken < MAX_WAITING }

    function Publish(): State<T> { this.(published := published + 1) }
  }

  datatype Action<T> =
    | OutsideSend(v: T)
    | OutsideHand(v: T) // straight to the producer
    | OutsideClose
    | Produce
    | HandOver // the current channel is empty and the consumer waits on it
    | Consume
    | OutsideReceive
    | OutsideTake // straight from the consumer
  {
    predicate Outside() { OutsideSend? || OutsideHand? || OutsideClose? }
  }

  function Init<T>(capacity: nat): State<T> {
    State(capacity, Chan(capacity, [], false), [], 0, 0, false, Chan(capacity, [], false),
          Create, NextChannel, [], [], [])
  }

  // ---------- the producer ----------

  predicate ProducerEnabled<T>(s: State<T>) {
    match s.producer
    case Create => true
    case PublishFirst => s.MayPublish()
    case Receive => s.input.buf != [] || s.input.closed
    case CheckGrow(_) => s.chans != []
    case PublishGrown(_) => s.MayPublish()
    case CheckFilled(_) => s.chans != []
    case CheckQuarter(_) => s.chans != []
    case PublishShrunk(_) => s.MayPublish()
    case Send(_) => s.chans != [] && !s.Curr().closed && |s.Curr().buf| < s.Curr().cap
    case CloseLast => s.chans != []
    case CloseChain => true
    case Finished => false
  }

  function ProducerStep<T>(s: State<T>): State<T>
    requires ProducerEnabled(s)
  {
    match s.producer
    case Create => s.NewChan(s.capacity).(producer := PublishFirst)
    case PublishFirst => s.Publish().(producer := Receive)
    case Receive =>
      if s.input.buf == [] then s.(producer := CloseLast)
      else
        var v := s.input.buf[0];
        s.(input := s.input.(buf := s.input.buf[1..]), consumed := s.consumed + [v], producer := CheckGrow(v))
    case CheckGrow(v) =>
      if |s.Curr().buf| >= s.Curr().cap / 2
      then s.CloseCurr().NewChan(s.Curr().cap * 2).(producer := PublishGrown(v))
      else s.(producer := CheckFilled(v))
    case PublishGrown(v) => s.Publish().(producer := CheckFilled(v))
    case CheckFilled(v) =>
      if |s.Curr().buf| >= s.capacity then s.(producer := CheckQuarter(v)) else s.(producer := Send(v))
    case CheckQuarter(v) =>
      if |s.Curr().buf| <= s.Curr().cap / 4
      then s.CloseCurr().NewChan(s.Curr().cap / 2).(producer := PublishShrunk(v))
      else s.(producer := Send(v))
    case PublishShrunk(v) => s.Publish().(producer := Send(v))
    case Send(v) => s.SetCurr(s.Curr().(buf := s.Curr().buf + [v])).(producer := Receive)
    case CloseLast => s.CloseCurr().(producer := CloseChain)
    case CloseChain => s.(chainClosed := true, producer := Finished)
  }

  // ---------- the consumer ----------

  predicate ConsumerEnabled<T>(s: State<T>) {
    match s.consumer
    case NextChannel => s.taken < s.published || s.chainClosed
    case Drain =>
      0 < s.taken <= |s.chans| && (s.chans[s.taken - 1].buf != [] || s.chans[s.taken - 1].closed)
    case Forward(_) => |s.output.buf| < s.output.cap
    case Closed => false
  }

  function ConsumerStep<T>(s: State<T>): State<T>
    requires ConsumerEnabled(s)
  {
    match s.consumer
    case NextChannel =>
      if s.taken < s.published then s.(taken := s.taken + 1, consumer := Drain)
      else s.(consumer := Closed, output := s.output.(closed := true))
    case Drain =>
      var c := s.chans[s.taken - 1];
      if c.buf == [] then s.(consumer := NextChannel)
      else s.(chans := s.chans[s.taken - 1 := c.(buf := c.buf[1..])], consumer := Forward(c.buf[0]))
    case Forward(v) => s.(output := s.output.(buf := s.output.buf + [v]), consumer := Drain)
  }

  // ---------- all actions ----------

  predicate Enabled<T>(s: State<T>, a: Action<T>) {
    match a
    case OutsideSend(_) => !s.input.closed && |s.input.buf| < s.input.cap
    case OutsideHand(_) => !s.input.closed && s.input.buf == [] && s.producer.Receive?
    case OutsideClose => !s.input.closed
    case Produce => ProducerEnabled(s)
    case HandOver =>
      && s.producer.Send? && s.consumer.Drain? && s.taken == |s.chans| > 0
      && s.Curr().buf == [] && !s.Curr().closed
    case Consume => ConsumerEnabled(s)
    case OutsideReceive => s.output.buf != []
    case OutsideTake => s.output.buf == [] && s.consumer.Forward?
  }

  function Step<T>(s: State<T>, a: Action<T>): State<T>
    requires Enabled(s, a)
  {
    match a
    case OutsideSend(v) => s.(input := s.input.(buf := s.input.buf + [v]), sent := s.sent + [v])
    case OutsideHand(v) => s.(sent := s.sent + [v], consumed := s.consumed + [v], producer := CheckGrow(v))
    case OutsideClose => s.(input := s.input.(closed := true))
    case Produce => ProducerStep(s)
    case HandOver => s.(consumer := Forward(s.producer.elem), producer := Receive)
    case Consume => ConsumerStep(s)
    case OutsideReceive =>
      s.(output := s.output.(buf := s.output.buf[1..]), delivered := s.delivered + [s.output.buf[0]])
    case OutsideTake => s.(delivered := s.delivered + [s.consumer.elem], consumer := Drain)
  }

  predicate Legal<T>(s: State<T>, run: seq<Action<T>>)
    decreases |run|
  {
    run == [] || (Enabled(s, run[0]) && Legal(Step(s, run[0]), run[1..]))
  }

  function After<T>(s: State<T>, run: seq<Action<T>>): State<T>
    requires Legal(s, run)
    decreases |run|
  {
    if run == [] then s else After(Step(s, run[0]), run[1..])
  }
}
