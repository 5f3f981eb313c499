/**
 * Removal of many objects from many buckets: objects are handed to one batch per bucket,
 * and the batch is closed and drained before the next one opens.
 */
module S3Remove {
  /** A listed path, split into bucket and object; the object name is empty for the bucket itself. */
  datatype Content = Content(bucket: string, key: string, version: string)

  /** One answer of the server about one object. */
  datatype Status = Status(content: Content, failed: bool)

  datatype Event =
    | Open(bucket: string)
    | Send(content: Content)
    | Close
    | Report(bucketName: string, status: Status)
    | Drained
    | RemoveBucket(bucket: string)
    | Refused(bucketName: string)

  /**
   * What the outside decides: the answers to each object, how many answers arrive before the
   * i-th content is accepted, and which buckets can be removed.
   */
  datatype Server = Server(answers: Content -> seq<bool>, early: nat -> nat, removable: string -> bool) {
    function Answers(c: Content): seq<Status> {
      seq(|answers(c)|, i requires 0 <= i < |answers(c)| => Status(c, answers(c)[i]))
    }

    function Early(i: nat, waiting: nat): (k: nat)
      ensures k <= waiting
    {
      if early(i) < waiting then early(i) else waiting
    }
  }

  /** Hung: the loop can neither send nor end, and repeats empty results for ever. */
  datatype Outcome = Going | Failed | Hung

  /** The variables of the loop: the channel of objects is open or nil, and `pending` waits in the status stream. */
  datatype State = State(prevBucket: string, sending: bool, pending: seq<Status>, log: seq<Event>, outcome: Outcome)

  const START := State("", false, [], [], Going)

  function Reports(name: string, statuses: seq<Status>): seq<Event> {
    seq(|statuses|, i requires 0 <= i < |statuses| => Report(name, statuses[i]))
  }

  /** The last drain leaves the bucket name out when it reports a failure. */
  function LastReports(name: string, statuses: seq<Status>): seq<Event> {
    seq(|statuses|, i requires 0 <= i < |statuses| => Report(if statuses[i].failed then "" else name, statuses[i]))
  }

  function CloseIfOpen(s: State): State {
    if s.sending then s.(sending := false, log := s.log + [Close]) else s
  }

  function RemoveIfAsked(s: State, name: string, removing: bool, server: Server): State {
    if !removing then s
    else if server.removable(s.prevBucket) then s.(log := s.log + [RemoveBucket(s.prevBucket)])
    else s.(log := s.log + [RemoveBucket(s.prevBucket), Refused(name)], outcome := Failed)
  }

  function OpenBatch(s: State, bucket: string): State {
    s.(prevBucket := bucket, sending := true, log := s.log + [Open(bucket)])
  }

  function EnterBucket(s: State, bucket: string, removing: bool, server: Server): State {
    if s.prevBucket == "" then OpenBatch(s, bucket)
    else if s.prevBucket == bucket then s
    else
      var closed := CloseIfOpen(s);
      var drained := closed.(log := closed.log + Reports(bucket, s.pending) + [Drained], pending := []);
      var removed := RemoveIfAsked(drained, bucket, removing, server);
      if removed.outcome.Going? then OpenBatch(removed, bucket) else removed
  }

  function Deliver(s: State, c: Content, i: nat, server: Server): State {
    if s.sending then
      var k := server.Early(i, |s.pending|);
      s.(log := s.log + Reports(c.bucket, s.pending[..k]) + [Send(c)], pending := s.pending[k..] + server.Answers(c))
    else s.(log := s.log + Reports(c.bucket, s.pending), pending := [], outcome := Hung)
  }

  function Take(s: State, c: Content, i: nat, removing: bool, server: Server): State {
    if !s.outcome.Going? || c.bucket == "" then s
    else
      var entered := EnterBucket(s, c.bucket, removing, server);
      if !entered.outcome.Going? then entered
      else if c.key == "" then CloseIfOpen(entered)
      else Deliver(entered, c, i, server)
  }

  function TakeAll(cs: seq<Content>, removing: bool, server: Server): State {
    if cs == [] then START else Take(TakeAll(cs[..|cs| - 1], removing, server), cs[|cs| - 1], |cs| - 1, removing, server)
  }

  function Finish(s: State, removing: bool, server: Server): State {
    if !s.outcome.Going? || s.prevBucket == "" then s
    else
      var closed := CloseIfOpen(s);
      RemoveIfAsked(closed.(log := closed.log + LastReports(s.prevBucket, s.pending) + [Drained], pending := []),
                    s.prevBucket, removing, server)
  }

  function Run(cs: seq<Content>, removing: bool, server: Server): State {
    Finish(TakeAll(cs, removing, server), removing, server)
  }

  /** The loop over a status stream until it ends. */
  method Drain(name: string, statusCh: seq<Status>) returns (log: seq<Event>)
    ensures log == Reports(name, statusCh)
  {
    log := [];
    for i := 0 to |statusCh|
      invariant log == Reports(name, statusCh[..i])
    {
      log := log + [Report(name, statusCh[i])];
      assert Reports(name, statusCh[..i + 1]) == log;
    }
    assert statusCh[..|statusCh|] == statusCh;
  }

  method LastDrain(name: string, statusCh: seq<Status>) returns (log: seq<Event>)
    ensures log == LastReports(name, statusCh)
  {
    log := [];
    for i := 0 to |statusCh|
      invariant log == LastReports(name, statusCh[..i])
    {
      if statusCh[i].failed {
        log := log + [Report("", statusCh[i])];
      } else {
        log := log + [Report(name, statusCh[i])];
      }
      assert LastReports(name, statusCh[..i + 1]) == log;
    }
    assert statusCh[..|statusCh|] == statusCh;
  }

  /** S3Client.Remove, for a list of contents. */
  method Remove(contentCh: seq<Content>, isIncomplete: bool, isRemoveBucket: bool, server: Server) returns (end: State)
    ensures end == Run(contentCh, isRemoveBucket && !isIncomplete, server)
    ensures isIncomplete || !isRemoveBucket ==> forall b :: RemoveBucket(b) !in end.log
  {
    BucketsStay(contentCh, server);
    hide Reports, LastReports, Server.Answers, Server.Early;
    var prevBucket, objectsCh, log := "", false, [];
    var statusCh: seq<Status> := [];
    ghost var removing := isRemoveBucket && !isIncomplete;
    for i := 0 to |contentCh|
      invariant State(prevBucket, objectsCh, statusCh, log, Going) == TakeAll(contentCh[..i], removing, server)
    {
      assert contentCh[..i + 1][..i] == contentCh[..i];
      ghost var before := State(prevBucket, objectsCh, statusCh, log, Going);
      assert TakeAll(contentCh[..i + 1], removing, server) == Take(before, contentCh[i], i, removing, server);
      var content := contentCh[i];
      var bucket, objectName := content.bucket, content.key;
      if bucket == "" {
        continue;
      }
      if prevBucket == "" {
        log := log + [Open(bucket)];
        objectsCh, prevBucket := true, bucket;
      }
      if prevBucket != bucket {
        if objectsCh {
          log := log + [Close];
        }
        var drained := Drain(bucket, statusCh);
        log := log + drained + [Drained];
        statusCh := [];
        if isRemoveBucket && !isIncomplete {
          if !server.removable(prevBucket) {
            end := State(prevBucket, false, [], log + [RemoveBucket(prevBucket), Refused(bucket)], Failed);
            StoppedEarly(contentCh, i + 1, removing, server);
            return;
          }
          log := log + [RemoveBucket(prevBucket)];
        }
        log := log + [Open(bucket)];
        objectsCh, prevBucket := true, bucket;
      }
      if objectName != "" {
        if !objectsCh {
          var drained := Drain(bucket, statusCh);
          end := State(prevBucket, false, [], log + drained, Hung);
          StoppedEarly(contentCh, i + 1, removing, server);
          return;
        }
        var k := server.Early(i, |statusCh|);
        var drained := Drain(bucket, statusCh[..k]);
        log := log + drained + [Send(content)];
        statusCh := statusCh[k..] + server.Answers(content);
      } else {
        if objectsCh {
          log := log + [Close];
        }
        objectsCh := false;
      }
    }
    assert contentCh[..|contentCh|] == contentCh;
    if prevBucket == "" {
      return State(prevBucket, objectsCh, statusCh, log, Going);
    }
    if objectsCh {
      log := log + [Close];
    }
    var drained := LastDrain(prevBucket, statusCh);
    log := log + drained + [Drained];
    end := State(prevBucket, false, [], log, Going);
    if isRemoveBucket && !isIncomplete {
      if server.removable(prevBucket) {
        end := State(prevBucket, false, [], log + [RemoveBucket(prevBucket)], Going);
      } else {
        end := State(prevBucket, false, [], log + [RemoveBucket(prevBucket), Refused(prevBucket)], Failed);
      }
    }
  }

  lemma {:induction false} BucketsStaySoFar(cs: seq<Content>, server: Server)
    ensures forall b :: RemoveBucket(b) !in TakeAll(cs, false, server).log
    decreases |cs|
  {
    if cs == [] {
    } else {
      hide Server.Answers, Server.Early;
      BucketsStaySoFar(cs[..|cs| - 1], server);
    }
  }

  /** Unless it is asked for, no bucket is removed. */
  lemma BucketsStay(cs: seq<Content>, server: Server)
    ensures forall b :: RemoveBucket(b) !in Run(cs, false, server).log
  {
    BucketsStaySoFar(cs, server);
    hide TakeAll;
  }

  lemma StoppedEarly(cs: seq<Content>, n: nat, removing: bool, server: Server)
    requires n <= |cs| && !TakeAll(cs[..n], removing, server).outcome.Going?
    ensures Run(cs, removing, server) == TakeAll(cs[..n], removing, server)
  {
    StoppedAll(cs, n, removing, server);
  }

  /** Contents after a stop are never read. */
  lemma {:induction false} StoppedAll(cs: seq<Content>, n: nat, removing: bool, server: Server)
    requires n <= |cs| && !TakeAll(cs[..n], removing, server).outcome.Going?
    ensures TakeAll(cs, removing, server) == TakeAll(cs[..n], removing, server)
    decreases |cs|
  {
    if n == |cs| {
      assert cs[..n] == cs;
    } else {
      var cs0 := cs[..|cs| - 1];
      assert cs0[..n] == cs[..n];
      StoppedAll(cs0, n, removing, server);
    }
  }
}
