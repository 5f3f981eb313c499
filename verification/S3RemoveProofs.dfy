/** Batched removal: the order of a batch's life, what is handed in, what is reported and under which name. */
module S3RemoveTheorems {
  import opened S3Remove

  // ---------- the life of a batch ----------

  datatype Phase = Idle | Sending(bucket: string) | Closed(bucket: string) | Emptied(bucket: string)
                 | Gone(bucket: string) | Stopped | Wrong

  /** The order a log must follow; `removing` says that a bucket is removed between its drain and the next batch. */
  function Next(p: Phase, e: Event, removing: bool): Phase {
    match e
    case Open(b) => if p.Idle? || (if removing then p.Gone? else p.Emptied?) then Sending(b) else Wrong
    case Send(c) => if p == Sending(c.bucket) then p else Wrong
    case Close => if p.Sending? then Closed(p.bucket) else Wrong
    case Report(_, _) => if p.Sending? || p.Closed? then p else Wrong
    case Drained => if p.Closed? then Emptied(p.bucket) else Wrong
    case RemoveBucket(b) => if removing && p == Emptied(b) then Gone(b) else Wrong
    case Refused(_) => if p.Gone? then Stopped else Wrong
  }

  function Follow(log: seq<Event>, removing: bool): Phase {
    if log == [] then Idle else Next(Follow(log[..|log| - 1], removing), log[|log| - 1], removing)
  }

  lemma FollowSnoc(log: seq<Event>, e: Event, removing: bool)
    ensures Follow(log + [e], removing) == Next(Follow(log, removing), e, removing)
  {
    assert (log + [e])[..|log|] == log;
  }

  lemma {:induction false} FollowReports(log: seq<Event>, more: seq<Event>, removing: bool)
    requires Follow(log, removing).Sending? || Follow(log, removing).Closed?
    requires forall i | 0 <= i < |more| :: more[i].Report?
    ensures Follow(log + more, removing) == Follow(log, removing)
    decreases |more|
  {
    if more == [] {
      assert log + more == log;
    } else {
      var n := |more| - 1;
      FollowReports(log, more[..n], removing);
      FollowSnoc(log + more[..n], more[n], removing);
      assert log + more[..n] + [more[n]] == log + more;
    }
  }

  /** The variables of the loop mirror the life of the current batch. */
  predicate InPhase(s: State, removing: bool) {
    var p := Follow(s.log, removing);
    match s.outcome
    case Going =>
      if s.prevBucket == "" then p.Idle? && !s.sending && s.pending == []
      else p == if s.sending then Sending(s.prevBucket) else Closed(s.prevBucket)
    case Failed => p.Stopped?
    case Hung => p.Closed?
  }

  lemma RemovePhase(s: State, name: string, removing: bool, server: Server)
    requires s.outcome.Going? && Follow(s.log, removing) == Emptied(s.prevBucket)
    ensures var end := RemoveIfAsked(s, name, removing, server);
      Follow(end.log, removing) == if end.outcome.Failed? then Stopped
                                   else if removing then Gone(s.prevBucket) else Emptied(s.prevBucket)
  {
    if removing {
      hide Follow;
      FollowSnoc(s.log, RemoveBucket(s.prevBucket), removing);
      FollowSnoc(s.log + [RemoveBucket(s.prevBucket)], Refused(name), removing);
      assert s.log + [RemoveBucket(s.prevBucket), Refused(name)] == s.log + [RemoveBucket(s.prevBucket)] + [Refused(name)];
    }
  }

  lemma DrainPhase(s: State, more: seq<Event>, removing: bool)
    requires s.outcome.Going? && s.prevBucket != "" && InPhase(s, removing)
    requires forall i | 0 <= i < |more| :: more[i].Report?
    ensures Follow(CloseIfOpen(s).log + more + [Drained], removing) == Emptied(s.prevBucket)
  {
    hide Follow;
    var closed := CloseIfOpen(s);
    FollowSnoc(s.log, Close, removing);
    FollowReports(closed.log, more, removing);
    FollowSnoc(closed.log + more, Drained, removing);
  }

  lemma EnterPhase(s: State, bucket: string, removing: bool, server: Server)
    requires s.outcome.Going? && bucket != "" && InPhase(s, removing)
    ensures InPhase(EnterBucket(s, bucket, removing, server), removing)
    ensures EnterBucket(s, bucket, removing, server).outcome.Going?
            ==> EnterBucket(s, bucket, removing, server).prevBucket == bucket
    ensures !EnterBucket(s, bucket, removing, server).outcome.Hung?
  {
    if s.prevBucket == "" {
      FollowSnoc(s.log, Open(bucket), removing);
    } else if s.prevBucket != bucket {
      DrainPhase(s, Reports(bucket, s.pending), removing);
      var closed := CloseIfOpen(s);
      var drained := closed.(log := closed.log + Reports(bucket, s.pending) + [Drained], pending := []);
      hide Follow;
      RemovePhase(drained, bucket, removing, server);
      FollowSnoc(RemoveIfAsked(drained, bucket, removing, server).log, Open(bucket), removing);
    }
  }

  lemma DeliverPhase(s: State, c: Content, i: nat, removing: bool, server: Server)
    requires s.outcome.Going? && s.prevBucket == c.bucket != "" && InPhase(s, removing)
    ensures InPhase(Deliver(s, c, i, server), removing)
  {
    if s.sending {
      var k := server.Early(i, |s.pending|);
      var more := Reports(c.bucket, s.pending[..k]);
      FollowReports(s.log, more, removing);
      FollowSnoc(s.log + more, Send(c), removing);
    } else {
      FollowReports(s.log, Reports(c.bucket, s.pending), removing);
    }
  }

  lemma TakePhase(s: State, c: Content, i: nat, removing: bool, server: Server)
    requires InPhase(s, removing)
    ensures InPhase(Take(s, c, i, removing, server), removing)
  {
    if s.outcome.Going? && c.bucket != "" {
      hide EnterBucket, Deliver, Follow;
      EnterPhase(s, c.bucket, removing, server);
      var entered := EnterBucket(s, c.bucket, removing, server);
      if entered.outcome.Going? {
        if c.key == "" {
          FollowSnoc(entered.log, Close, removing);
        } else {
          DeliverPhase(entered, c, i, removing, server);
        }
      }
    }
  }

  lemma {:induction false} TakeAllPhase(cs: seq<Content>, removing: bool, server: Server)
    ensures InPhase(TakeAll(cs, removing, server), removing)
    decreases |cs|
  {
    hide Take;
    if cs == [] {
    } else {
      TakeAllPhase(cs[..|cs| - 1], removing, server);
      TakePhase(TakeAll(cs[..|cs| - 1], removing, server), cs[|cs| - 1], |cs| - 1, removing, server);
    }
  }

  /**
   * Whatever the order of the contents: no channel is closed twice or sent to after its close, every batch is
   * closed and drained before the next opens, and a bucket is removed after its own drain only.
   */
  lemma BatchesAreOrderly(cs: seq<Content>, removing: bool, server: Server)
    ensures Follow(Run(cs, removing, server).log, removing) != Wrong
    ensures Run(cs, removing, server).outcome.Going? && (exists i | 0 <= i < |cs| :: cs[i].bucket != "")
            ==> var p := Follow(Run(cs, removing, server).log, removing);
                if removing then p.Gone? else p.Emptied?
  {
    TakeAllPhase(cs, removing, server);
    var s := TakeAll(cs, removing, server);
    if s.outcome.Going? && s.prevBucket != "" {
      DrainPhase(s, LastReports(s.prevBucket, s.pending), removing);
      var closed := CloseIfOpen(s);
      RemovePhase(closed.(log := closed.log + LastReports(s.prevBucket, s.pending) + [Drained], pending := []),
                  s.prevBucket, removing, server);
    }
    if s.outcome.Going? && s.prevBucket == "" {
      NothingEntered(cs, removing, server);
    }
  }

  lemma {:induction false} NothingEntered(cs: seq<Content>, removing: bool, server: Server)
    requires TakeAll(cs, removing, server).outcome.Going? && TakeAll(cs, removing, server).prevBucket == ""
    ensures forall i | 0 <= i < |cs| :: cs[i].bucket == ""
    decreases |cs|
  {
    if cs == [] {
    } else {
      var cs0, c := cs[..|cs| - 1], cs[|cs| - 1];
      var s := TakeAll(cs0, removing, server);
      TakeAllPhase(cs0, removing, server);
      if s.outcome.Going? && c.bucket != "" {
        EnterPhase(s, c.bucket, removing, server);
      }
      NothingEntered(cs0, removing, server);
    }
  }

  // ---------- what is handed in, and what is reported ----------

  function Sent(log: seq<Event>): seq<Content> {
    if log == [] then [] else
    Sent(log[..|log| - 1]) + if log[|log| - 1].Send? then [log[|log| - 1].content] else []
  }

  function Reported(log: seq<Event>): seq<Status> {
    if log == [] then [] else
    Reported(log[..|log| - 1]) + if log[|log| - 1].Report? then [log[|log| - 1].status] else []
  }

  function AllAnswers(cs: seq<Content>, server: Server): seq<Status> {
    if cs == [] then [] else AllAnswers(cs[..|cs| - 1], server) + server.Answers(cs[|cs| - 1])
  }

  /** The objects of a listing: entries with both a bucket and an object name. */
  function Objects(cs: seq<Content>): seq<Content> {
    if cs == [] then [] else
    Objects(cs[..|cs| - 1]) + if cs[|cs| - 1].bucket != "" && cs[|cs| - 1].key != "" then [cs[|cs| - 1]] else []
  }

  lemma {:induction false} SentConcat(a: seq<Event>, b: seq<Event>)
    ensures Sent(a + b) == Sent(a) + Sent(b)
    ensures Reported(a + b) == Reported(a) + Reported(b)
    decreases |b|
  {
    if b == [] {
      assert a + b == a;
    } else {
      assert (a + b)[..|a + b| - 1] == a + b[..|b| - 1];
      SentConcat(a, b[..|b| - 1]);
    }
  }

  lemma OneEvent(e: Event)
    requires !e.Report?
    ensures Sent([e]) == (if e.Send? then [e.content] else []) && Reported([e]) == []
  {
    assert [e][..0] == [];
  }

  lemma {:induction false} ReportsOnly(more: seq<Event>, statuses: seq<Status>)
    requires |more| == |statuses|
    requires forall i | 0 <= i < |more| :: more[i].Report? && more[i].status == statuses[i]
    ensures Sent(more) == [] && Reported(more) == statuses
    decreases |more|
  {
    if more == [] {
    } else {
      ReportsOnly(more[..|more| - 1], statuses[..|more| - 1]);
      assert statuses == statuses[..|more| - 1] + [statuses[|more| - 1]];
    }
  }

  /** Everything handed in is one of the objects seen, and every answer is reported or waiting. */
  predicate Conserves(s: State, objects: seq<Content>, server: Server) {
    && (if s.outcome.Going? then Sent(s.log) == objects else Sent(s.log) <= objects)
    && Reported(s.log) + s.pending == AllAnswers(Sent(s.log), server)
  }

  lemma Quiet(s: State, next: State, more: seq<Event>, statuses: seq<Status>, objects: seq<Content>, server: Server)
    requires Conserves(s, objects, server) && s.outcome.Going?
    requires next.log == s.log + more && Sent(more) == [] && Reported(more) == statuses
    requires s.pending == statuses + next.pending
    ensures Conserves(next, objects, server)
  {
    SentConcat(s.log, more);
    assert Reported(s.log) + statuses + next.pending == Reported(s.log) + s.pending;
  }

  /** The state after a drain, as one piece of log after the state before it. */
  function DrainTail(s: State, name: string, more: seq<Event>, removing: bool, server: Server): seq<Event> {
    (if s.sending then [Close] else []) + more + ([Drained] + Removal(s, name, removing, server))
  }

  function Removal(s: State, name: string, removing: bool, server: Server): seq<Event> {
    if !removing then [] else if server.removable(s.prevBucket) then [RemoveBucket(s.prevBucket)]
    else [RemoveBucket(s.prevBucket), Refused(name)]
  }

  lemma DrainLog(s: State, name: string, more: seq<Event>, removing: bool, server: Server)
    ensures var closed := CloseIfOpen(s);
      var end := RemoveIfAsked(closed.(log := closed.log + more + [Drained], pending := []), name, removing, server);
      end.log == s.log + DrainTail(s, name, more, removing, server)
  {
  }

  lemma DrainTailReports(s: State, name: string, more: seq<Event>, removing: bool, server: Server)
    requires Sent(more) == []
    ensures Sent(DrainTail(s, name, more, removing, server)) == []
    ensures Reported(DrainTail(s, name, more, removing, server)) == Reported(more)
  {
    var shut := if s.sending then [Close] else [];
    var tail := [Drained] + if !removing then [] else if server.removable(s.prevBucket) then [RemoveBucket(s.prevBucket)]
                            else [RemoveBucket(s.prevBucket), Refused(name)];
    SilentOnly(shut);
    SilentOnly(tail);
    hide Sent, Reported;
    assert DrainTail(s, name, more, removing, server) == shut + more + tail;
    SentConcat(shut + more, tail);
    SentConcat(shut, more);
    assert [] + Reported(more) + [] == Reported(more);
  }

  lemma DrainConserves(s: State, name: string, more: seq<Event>, removing: bool, objects: seq<Content>, server: Server)
    requires s.outcome.Going? && Conserves(s, objects, server)
    requires Sent(more) == [] && Reported(more) == s.pending
    ensures var closed := CloseIfOpen(s);
      var end := RemoveIfAsked(closed.(log := closed.log + more + [Drained], pending := []), name, removing, server);
      Conserves(end, objects, server) && end.pending == []
  {
    hide Sent, Reported, Conserves, DrainTail;
    var closed := CloseIfOpen(s);
    var end := RemoveIfAsked(closed.(log := closed.log + more + [Drained], pending := []), name, removing, server);
    DrainLog(s, name, more, removing, server);
    DrainTailReports(s, name, more, removing, server);
    assert s.pending == s.pending + [];
    Quiet(s, end, DrainTail(s, name, more, removing, server), s.pending, objects, server);
  }

  lemma {:induction false} SilentOnly(log: seq<Event>)
    requires forall i | 0 <= i < |log| :: !log[i].Send? && !log[i].Report?
    ensures Sent(log) == [] && Reported(log) == []
    decreases |log|
  {
    if log == [] {
    } else {
      SilentOnly(log[..|log| - 1]);
    }
  }

  lemma EnterConserves(s: State, bucket: string, removing: bool, objects: seq<Content>, server: Server)
    requires s.outcome.Going? && Conserves(s, objects, server)
    ensures Conserves(EnterBucket(s, bucket, removing, server), objects, server)
  {
    var first := [Open(bucket)];
    OneEvent(Open(bucket));
    if s.prevBucket == "" {
      Quiet(s, OpenBatch(s, bucket), first, [], objects, server);
    } else if s.prevBucket != bucket {
      var closed := CloseIfOpen(s);
      ReportsOnly(Reports(bucket, s.pending), s.pending);
      DrainConserves(s, bucket, Reports(bucket, s.pending), removing, objects, server);
      var drained := closed.(log := closed.log + Reports(bucket, s.pending) + [Drained], pending := []);
      var end := RemoveIfAsked(drained, bucket, removing, server);
      if end.outcome.Going? {
        Quiet(end, OpenBatch(end, bucket), first, [], objects, server);
      }
    }
  }

  lemma SendConserves(s: State, c: Content, objects: seq<Content>, server: Server)
    requires s.outcome.Going? && Conserves(s, objects, server)
    ensures Conserves(s.(log := s.log + [Send(c)], pending := s.pending + server.Answers(c)), objects + [c], server)
  {
    hide Server.Answers;
    SentConcat(s.log, [Send(c)]);
    OneEvent(Send(c));
    assert (objects + [c])[..|objects|] == objects;
    assert Reported(s.log) + (s.pending + server.Answers(c)) == Reported(s.log) + s.pending + server.Answers(c);
  }

  lemma DeliverConserves(s: State, c: Content, i: nat, objects: seq<Content>, server: Server)
    requires s.outcome.Going? && Conserves(s, objects, server)
    ensures Conserves(Deliver(s, c, i, server), objects + [c], server)
  {
    hide Sent, Reported, AllAnswers, Server.Answers, Server.Early, Reports;
    var k := if s.sending then server.Early(i, |s.pending|) else |s.pending|;
    var more := Reports(c.bucket, s.pending[..k]);
    ReadAnswers(c.bucket, s.pending[..k]);
    assert s.pending == s.pending[..k] + s.pending[k..];
    var read := s.(log := s.log + more, pending := s.pending[k..]);
    Quiet(s, read, more, s.pending[..k], objects, server);
    if s.sending {
      SendConserves(read, c, objects, server);
    } else {
      assert s.pending[..k] == s.pending;
      assert Deliver(s, c, i, server) == read.(outcome := Hung);
    }
  }

  lemma ReadAnswers(name: string, statuses: seq<Status>)
    ensures Sent(Reports(name, statuses)) == [] && Reported(Reports(name, statuses)) == statuses
  {
    ReportsOnly(Reports(name, statuses), statuses);
  }

  lemma CloseConserves(s: State, objects: seq<Content>, server: Server)
    requires s.outcome.Going? && Conserves(s, objects, server)
    ensures Conserves(CloseIfOpen(s), objects, server)
  {
    OneEvent(Close);
    hide Conserves, Sent, Reported;
    assert s.pending == [] + s.pending;
    if s.sending {
      Quiet(s, CloseIfOpen(s), [Close], [], objects, server);
    }
  }

  lemma TakeConserves(s: State, c: Content, i: nat, removing: bool, objects: seq<Content>, server: Server)
    requires Conserves(s, objects, server)
    ensures Conserves(Take(s, c, i, removing, server), objects + Objects([c]), server)
  {
    assert [c][..0] == [];
    assert Objects([c]) == if c.bucket != "" && c.key != "" then [c] else [];
    hide EnterBucket, Deliver, CloseIfOpen, Sent, Reported, AllAnswers, Objects;
    assert objects + [] == objects;
    if s.outcome.Going? && c.bucket != "" {
      EnterConserves(s, c.bucket, removing, objects, server);
      var entered := EnterBucket(s, c.bucket, removing, server);
      if entered.outcome.Going? {
        if c.key == "" {
          CloseConserves(entered, objects, server);
        } else {
          DeliverConserves(entered, c, i, objects, server);
        }
      }
    }
  }

  lemma {:induction false} TakeAllConserves(cs: seq<Content>, removing: bool, server: Server)
    ensures Conserves(TakeAll(cs, removing, server), Objects(cs), server)
    decreases |cs|
  {
    hide Take;
    if cs == [] {
    } else {
      hide Conserves;
      var cs0, c := cs[..|cs| - 1], cs[|cs| - 1];
      TakeAllConserves(cs0, removing, server);
      TakeConserves(TakeAll(cs0, removing, server), c, |cs0|, removing, Objects(cs0), server);
      assert [c][..0] == [];
      assert Objects([c]) == if c.bucket != "" && c.key != "" then [c] else [];
    }
  }

  /**
   * Whatever the order of the contents and the timing of the server: a run which ends hands in every object once and
   * in order, and reports every answer once and in order; one which stops early hands in a part of them.
   */
  lemma NothingIsLost(cs: seq<Content>, removing: bool, server: Server)
    ensures var end := Run(cs, removing, server);
      && Sent(end.log) <= Objects(cs)
      && (end.outcome.Going? ==> Sent(end.log) == Objects(cs))
      && (!end.outcome.Hung? ==> Reported(end.log) == AllAnswers(Sent(end.log), server))
  {
    TakeAllConserves(cs, removing, server);
    var s := TakeAll(cs, removing, server);
    if s.outcome.Going? && s.prevBucket != "" {
      ReportsOnly(LastReports(s.prevBucket, s.pending), s.pending);
      DrainConserves(s, s.prevBucket, LastReports(s.prevBucket, s.pending), removing, Objects(cs), server);
    } else {
      StoppedMeansEmpty(cs, removing, server);
    }
  }

  lemma {:induction false} StoppedMeansEmpty(cs: seq<Content>, removing: bool, server: Server)
    ensures var s := TakeAll(cs, removing, server);
      !s.outcome.Going? || s.prevBucket == "" ==> s.pending == []
    decreases |cs|
  {
    if cs == [] {
    } else {
      StoppedMeansEmpty(cs[..|cs| - 1], removing, server);
    }
  }

  // ---------- where it stops ----------

  /** Entry `j` is an object whose bucket was already closed by its own entry, with no other bucket since. */
  predicate AfterItsBucket(cs: seq<Content>, j: nat)
    requires j < |cs|
  {
    && cs[j].bucket != "" && cs[j].key != ""
    && exists i: nat | i < j :: && cs[i].bucket == cs[j].bucket && cs[i].key == ""
                                && forall k: nat | i < k < j :: cs[k].bucket == "" || cs[k].bucket == cs[j].bucket
  }

  /** Entry `j` leaves a bucket which is to be removed and cannot be. */
  predicate LeavesKept(cs: seq<Content>, j: nat, removing: bool, server: Server)
    requires j < |cs|
  {
    && removing && cs[j].bucket != ""
    && exists i: nat | i < j :: && cs[i].bucket != "" && cs[i].bucket != cs[j].bucket && !server.removable(cs[i].bucket)
                                && forall k: nat | i < k < j :: cs[k].bucket == ""
  }

  predicate StopsAt(cs: seq<Content>, j: nat, removing: bool, server: Server)
    requires j < |cs|
  {
    AfterItsBucket(cs, j) || LeavesKept(cs, j, removing, server)
  }

  /** Nothing before entry `n` stops the loop. */
  predicate RunsUpTo(cs: seq<Content>, n: nat, removing: bool, server: Server)
    requires n <= |cs|
  {
    forall j: nat | j < n :: !StopsAt(cs, j, removing, server)
  }

  /** The first entry to stop the loop comes after its own bucket. */
  predicate MisorderedFirst(cs: seq<Content>, removing: bool, server: Server) {
    exists j: nat | j < |cs| :: RunsUpTo(cs, j, removing, server) && AfterItsBucket(cs, j)
  }

  /** The first entry to stop the loop leaves a bucket which cannot be removed. */
  predicate KeptFirst(cs: seq<Content>, removing: bool, server: Server) {
    exists j: nat | j < |cs| :: RunsUpTo(cs, j, removing, server) && LeavesKept(cs, j, removing, server)
  }

  /** The last entry with a bucket. */
  predicate IsLast(cs: seq<Content>, i: nat) {
    i < |cs| && cs[i].bucket != "" && forall k: nat | i < k < |cs| :: cs[k].bucket == ""
  }

  lemma TakeVariables(s: State, c: Content, i: nat, removing: bool, server: Server)
    requires s.outcome.Going? && c.bucket != ""
    ensures var t := Take(s, c, i, removing, server);
      && t.outcome == (if s.prevBucket == c.bucket && !s.sending && c.key != "" then Hung
                       else if s.prevBucket != "" && s.prevBucket != c.bucket && removing && !server.removable(s.prevBucket)
                       then Failed else Going)
      && (t.outcome.Going? ==> t.prevBucket == c.bucket && t.sending == (c.key != ""))
  {
  }

  /** After any listing the outcome tells what stopped the loop, and the variables tell of the last entry. */
  ghost predicate Tells(cs: seq<Content>, s: State, removing: bool, server: Server) {
    match s.outcome
    case Failed => KeptFirst(cs, removing, server)
    case Hung => MisorderedFirst(cs, removing, server)
    case Going => RunsUpTo(cs, |cs|, removing, server) && TellsLast(cs, s)
  }

  ghost predicate TellsLast(cs: seq<Content>, s: State) {
    if s.prevBucket == "" then forall i: nat | i < |cs| :: cs[i].bucket == ""
    else exists i: nat :: IsLast(cs, i) && s.prevBucket == cs[i].bucket && s.sending == (cs[i].key != "")
  }

  lemma Appended(cs: seq<Content>, c: Content, j: nat, removing: bool, server: Server)
    requires j < |cs|
    ensures AfterItsBucket(cs + [c], j) == AfterItsBucket(cs, j)
    ensures LeavesKept(cs + [c], j, removing, server) == LeavesKept(cs, j, removing, server)
  {
    assert forall k: nat | k < |cs| :: (cs + [c])[k] == cs[k];
  }

  lemma RunsAppended(cs: seq<Content>, c: Content, n: nat, removing: bool, server: Server)
    requires n <= |cs|
    ensures RunsUpTo(cs + [c], n, removing, server) == RunsUpTo(cs, n, removing, server)
  {
    forall j: nat | j < n
      ensures StopsAt(cs + [c], j, removing, server) == StopsAt(cs, j, removing, server)
    {
      Appended(cs, c, j, removing, server);
    }
  }

  lemma LastFollowsMarker(cs: seq<Content>, c: Content, i: nat, m: nat)
    requires IsLast(cs, i) && c.bucket != "" && m < |cs| && cs[m].bucket == c.bucket && cs[m].key == ""
    requires forall k: nat | m < k < |cs| :: cs[k].bucket == "" || cs[k].bucket == c.bucket
    ensures cs[i].bucket == c.bucket && (cs[i].key == "" || AfterItsBucket(cs, i))
  {
    assert m <= i;
  }

  /** In a listing without a stop so far, only the last entry decides. */
  lemma LastEntryDecides(cs: seq<Content>, c: Content, i: nat)
    requires IsLast(cs, i) && c.bucket != "" && !AfterItsBucket(cs, i)
    ensures AfterItsBucket(cs + [c], |cs|) <==> c.key != "" && cs[i].bucket == c.bucket && cs[i].key == ""
  {
    var all := cs + [c];
    if AfterItsBucket(all, |cs|) {
      var m: nat :| m < |cs| && all[m].bucket == c.bucket && all[m].key == ""
                    && forall k: nat | m < k < |cs| :: all[k].bucket == "" || all[k].bucket == c.bucket;
      assert all[m] == cs[m] && all[i] == cs[i];
      assert forall k: nat | k < |cs| :: all[k] == cs[k];
      LastFollowsMarker(cs, c, i, m);
    }
    if c.key != "" && cs[i].bucket == c.bucket && cs[i].key == "" {
      assert all[i] == cs[i];
      assert forall k: nat | i < k < |cs| :: all[k] == cs[k];
    }
  }

  lemma LastEntryIsLeft(cs: seq<Content>, c: Content, i: nat, removing: bool, server: Server)
    requires IsLast(cs, i) && c.bucket != ""
    ensures LeavesKept(cs + [c], |cs|, removing, server) <==>
            removing && cs[i].bucket != c.bucket && !server.removable(cs[i].bucket)
  {
    var all := cs + [c];
    assert forall k: nat | k < |cs| :: all[k] == cs[k];
    if LeavesKept(all, |cs|, removing, server) {
      var m: nat :| && m < |cs| && all[m].bucket != "" && all[m].bucket != c.bucket && !server.removable(all[m].bucket)
                    && forall k: nat | m < k < |cs| :: all[k].bucket == "";
      assert m == i;
    }
  }

  lemma NoLastEntry(cs: seq<Content>, c: Content, removing: bool, server: Server)
    requires forall i: nat | i < |cs| :: cs[i].bucket == ""
    ensures !StopsAt(cs + [c], |cs|, removing, server)
  {
    assert forall i: nat | i < |cs| :: (cs + [c])[i] == cs[i];
  }

  lemma EntryTells(cs: seq<Content>, c: Content, s: State, i: nat, removing: bool, server: Server)
    requires s.outcome.Going? && Tells(cs, s, removing, server)
    ensures Tells(cs + [c], Take(s, c, i, removing, server), removing, server)
  {
    var all := cs + [c];
    var t := Take(s, c, i, removing, server);
    RunsAppended(cs, c, |cs|, removing, server);
    hide AfterItsBucket, LeavesKept;
    if c.bucket == "" {
      BlankEntry(cs, c, s, removing, server);
      assert t == s;
    } else {
      TakeVariables(s, c, i, removing, server);
      hide Take;
      assert IsLast(all, |cs|);
      if s.prevBucket == "" {
        NoLastEntry(cs, c, removing, server);
      } else {
        var l: nat :| IsLast(cs, l) && s.prevBucket == cs[l].bucket && s.sending == (cs[l].key != "");
        assert !StopsAt(cs, l, removing, server);
        LastEntryDecides(cs, c, l);
        LastEntryIsLeft(cs, c, l, removing, server);
      }
      assert t.outcome.Going? ==> !StopsAt(all, |cs|, removing, server);
    }
  }

  lemma BlankEntry(cs: seq<Content>, c: Content, s: State, removing: bool, server: Server)
    requires c.bucket == "" && TellsLast(cs, s)
    ensures TellsLast(cs + [c], s) && !StopsAt(cs + [c], |cs|, removing, server)
  {
    if s.prevBucket != "" {
      var i: nat :| IsLast(cs, i) && s.prevBucket == cs[i].bucket && s.sending == (cs[i].key != "");
      assert IsLast(cs + [c], i) && (cs + [c])[i] == cs[i];
    }
  }

  lemma StoppedTells(cs: seq<Content>, c: Content, s: State, removing: bool, server: Server)
    requires !s.outcome.Going? && Tells(cs, s, removing, server)
    ensures Tells(cs + [c], s, removing, server)
  {
    hide AfterItsBucket, LeavesKept, RunsUpTo;
    var j: nat :| j < |cs| && RunsUpTo(cs, j, removing, server)
                  && if s.outcome.Failed? then LeavesKept(cs, j, removing, server) else AfterItsBucket(cs, j);
    RunsAppended(cs, c, j, removing, server);
    Appended(cs, c, j, removing, server);
  }

  lemma {:induction false} TakeAllTells(cs: seq<Content>, removing: bool, server: Server)
    ensures Tells(cs, TakeAll(cs, removing, server), removing, server)
    decreases |cs|
  {
    if cs == [] {
    } else {
      var cs0, c := cs[..|cs| - 1], cs[|cs| - 1];
      var s := TakeAll(cs0, removing, server);
      TakeAllTells(cs0, removing, server);
      assert cs == cs0 + [c];
      if s.outcome.Going? {
        EntryTells(cs0, c, s, |cs0|, removing, server);
      } else {
        StoppedTells(cs0, c, s, removing, server);
        assert TakeAll(cs, removing, server) == s;
      }
    }
  }

  /**
    Whatever the listing and whichever buckets can be removed: the loop hangs exactly if what stops it
    first is an object after its own bucket's entry with no other bucket in between. It fails exactly if
    that is the first entry after a bucket which is to be removed and cannot be, or if nothing stops it
    and the last bucket is such a one.
   */
  lemma HangsExactlyWhenMisordered(cs: seq<Content>, removing: bool, server: Server)
    ensures Run(cs, removing, server).outcome.Hung? <==> MisorderedFirst(cs, removing, server)
    ensures Run(cs, removing, server).outcome.Failed? <==>
            || KeptFirst(cs, removing, server)
            || (RunsUpTo(cs, |cs|, removing, server)
                && exists i: nat :: IsLast(cs, i) && removing && !server.removable(cs[i].bucket))
  {
    var s := TakeAll(cs, removing, server);
    TakeAllTells(cs, removing, server);
    StopsOnce(cs, removing, server);
    hide MisorderedFirst, KeptFirst, RunsUpTo;
    if s.outcome.Going? {
      LastIsUnique(cs);
    }
  }

  /** Only one entry is the first to stop the loop, and only in one way. */
  lemma StopsOnce(cs: seq<Content>, removing: bool, server: Server)
    ensures !(MisorderedFirst(cs, removing, server) && KeptFirst(cs, removing, server))
    ensures RunsUpTo(cs, |cs|, removing, server) ==>
              !MisorderedFirst(cs, removing, server) && !KeptFirst(cs, removing, server)
  {
    forall j: nat, k: nat | j < |cs| && k < |cs| && RunsUpTo(cs, j, removing, server) && AfterItsBucket(cs, j)
                            && RunsUpTo(cs, k, removing, server)
      ensures !LeavesKept(cs, k, removing, server)
    {
      assert StopsAt(cs, j, removing, server) && (k < j ==> !StopsAt(cs, k, removing, server));
      NotBoth(cs, j, removing, server);
    }
    forall j: nat | j < |cs| && RunsUpTo(cs, |cs|, removing, server)
      ensures !AfterItsBucket(cs, j) && !LeavesKept(cs, j, removing, server)
    {
      assert !StopsAt(cs, j, removing, server);
    }
  }

  lemma NotBoth(cs: seq<Content>, j: nat, removing: bool, server: Server)
    requires j < |cs| && AfterItsBucket(cs, j)
    ensures !LeavesKept(cs, j, removing, server)
  {
  }

  lemma LastIsUnique(cs: seq<Content>)
    ensures forall i: nat, j: nat :: IsLast(cs, i) && IsLast(cs, j) ==> i == j
  {
  }
}
