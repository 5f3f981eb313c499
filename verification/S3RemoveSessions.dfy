/** Batched removal of a grouped listing, bucket by bucket, and the bucket names on its reports. */
module S3RemoveSessions {
  import opened S3Remove
  import opened S3RemoveTheorems

  // ---------- one session per bucket ----------

  /** The entries of one bucket: its objects, then perhaps the bucket itself. */
  datatype Group = Group(bucket: string, objects: seq<Content>, marked: bool) {
    predicate Valid() {
      && bucket != "" && (objects != [] || marked)
      && forall i | 0 <= i < |objects| :: objects[i].bucket == bucket && objects[i].key != ""
    }

    function Contents(): seq<Content> { objects + if marked then [Content(bucket, "", "")] else [] }
  }

  predicate Grouped(gs: seq<Group>) {
    && (forall i | 0 <= i < |gs| :: gs[i].Valid())
    && (forall i | 0 <= i < |gs| - 1 :: gs[i].bucket != gs[i + 1].bucket)
  }

  function Listing(gs: seq<Group>): seq<Content> {
    if gs == [] then [] else Listing(gs[..|gs| - 1]) + gs[|gs| - 1].Contents()
  }

  function Sends(cs: seq<Content>): seq<Event> { seq(|cs|, i requires 0 <= i < |cs| => Send(cs[i])) }

  /** What one bucket is due. */
  function Session(g: Group, removing: bool): seq<Event> {
    [Open(g.bucket)] + Sends(g.objects) + [Close, Drained] + if removing then [RemoveBucket(g.bucket)] else []
  }

  function Sessions(gs: seq<Group>, removing: bool): seq<Event> {
    if gs == [] then [] else Sessions(gs[..|gs| - 1], removing) + Session(gs[|gs| - 1], removing)
  }

  /** The log without its reports. */
  function Acts(log: seq<Event>): seq<Event> {
    if log == [] then [] else Acts(log[..|log| - 1]) + if log[|log| - 1].Report? then [] else [log[|log| - 1]]
  }

  lemma {:induction false} ActsConcat(a: seq<Event>, b: seq<Event>)
    ensures Acts(a + b) == Acts(a) + Acts(b)
    decreases |b|
  {
    if b == [] {
      assert a + b == a;
    } else {
      assert (a + b)[..|a + b| - 1] == a + b[..|b| - 1];
      ActsConcat(a, b[..|b| - 1]);
    }
  }

  lemma {:induction false} ReportsAreNoActs(more: seq<Event>)
    requires forall i | 0 <= i < |more| :: more[i].Report?
    ensures Acts(more) == []
    decreases |more|
  {
    if more == [] {
    } else {
      ReportsAreNoActs(more[..|more| - 1]);
    }
  }

  lemma OneAct(e: Event)
    requires !e.Report?
    ensures Acts([e]) == [e]
  {
    assert [e][..0] == [];
  }

  /** What is left to do for the current bucket. */
  function Leaving(s: State, removing: bool): seq<Event> {
    if s.prevBucket == "" then []
    else (if s.sending then [Close] else []) + [Drained] + if removing then [RemoveBucket(s.prevBucket)] else []
  }

  /** What follows when the bucket cannot be removed. */
  function Refusal(s: State, name: string, removing: bool, server: Server): seq<Event> {
    if removing && !server.removable(s.prevBucket) then [Refused(name)] else []
  }

  /** The current bucket, if there is one, can be left. */
  predicate CanLeave(s: State, removing: bool, server: Server) {
    removing && s.prevBucket != "" ==> server.removable(s.prevBucket)
  }

  lemma {:induction false} OnlyActs(es: seq<Event>)
    requires forall i | 0 <= i < |es| :: !es[i].Report?
    ensures Acts(es) == es
    decreases |es|
  {
    if es == [] {
    } else {
      OnlyActs(es[..|es| - 1]);
      assert es == es[..|es| - 1] + [es[|es| - 1]];
    }
  }

  lemma LeavingIs(s: State, name: string, removing: bool, server: Server)
    requires s.prevBucket != ""
    ensures (if s.sending then [Close] else []) + ([Drained] + Removal(s, name, removing, server))
         == Leaving(s, removing) + Refusal(s, name, removing, server)
  {
    var b := s.prevBucket;
    assert [RemoveBucket(b)] + [Refused(name)] == [RemoveBucket(b), Refused(name)];
  }

  lemma ActsBefore(acts: seq<Event>, more: seq<Event>)
    requires Acts(acts) == acts && Acts(more) == []
    ensures Acts(acts + more) == acts
  {
    hide *;
    ActsConcat(acts, more);
    assert acts + [] == acts;
  }

  lemma ActsAround(shut: seq<Event>, more: seq<Event>, tail: seq<Event>)
    requires Acts(shut) == shut && Acts(more) == [] && Acts(tail) == tail
    ensures Acts(shut + more + tail) == shut + tail
  {
    hide *;
    ActsBefore(shut, more);
    ActsConcat(shut + more, tail);
  }

  lemma TailActs(s: State, name: string, more: seq<Event>, removing: bool, server: Server)
    requires s.prevBucket != ""
    requires forall i | 0 <= i < |more| :: more[i].Report?
    ensures Acts(DrainTail(s, name, more, removing, server)) == Leaving(s, removing) + Refusal(s, name, removing, server)
  {
    hide Acts;
    var shut, tail := if s.sending then [Close] else [], [Drained] + Removal(s, name, removing, server);
    OnlyActs(shut);
    OnlyActs(tail);
    ReportsAreNoActs(more);
    ActsAround(shut, more, tail);
    LeavingIs(s, name, removing, server);
    hide Removal, Leaving, Refusal;
  }

  lemma LeaveActs(s: State, name: string, more: seq<Event>, removing: bool, server: Server)
    requires s.outcome.Going? && s.prevBucket != ""
    requires forall i | 0 <= i < |more| :: more[i].Report?
    ensures var closed := CloseIfOpen(s);
      var end := RemoveIfAsked(closed.(log := closed.log + more + [Drained], pending := []), name, removing, server);
      && end.outcome == (if CanLeave(s, removing, server) then Going else Failed)
      && Acts(end.log) == Acts(s.log) + Leaving(s, removing) + Refusal(s, name, removing, server)
  {
    hide Acts, DrainTail, Leaving, Refusal;
    DrainLog(s, name, more, removing, server);
    TailActs(s, name, more, removing, server);
    ActsConcat(s.log, DrainTail(s, name, more, removing, server));
  }

  lemma EnterActs(s: State, bucket: string, removing: bool, server: Server)
    requires s.outcome.Going? && bucket != "" && s.prevBucket != bucket && CanLeave(s, removing, server)
    ensures var t := EnterBucket(s, bucket, removing, server);
      && t.outcome.Going? && t.prevBucket == bucket && t.sending
      && Acts(t.log) == Acts(s.log) + Leaving(s, removing) + [Open(bucket)]
  {
    OneAct(Open(bucket));
    hide Acts;
    if s.prevBucket == "" {
      ActsConcat(s.log, [Open(bucket)]);
      assert Acts(s.log) + [] == Acts(s.log);
    } else {
      var more := Reports(bucket, s.pending);
      LeaveActs(s, bucket, more, removing, server);
      var closed := CloseIfOpen(s);
      var end := RemoveIfAsked(closed.(log := closed.log + more + [Drained], pending := []), bucket, removing, server);
      assert Refusal(s, bucket, removing, server) == [];
      hide RemoveIfAsked, CloseIfOpen, Leaving, Refusal, Reports;
      assert Acts(end.log) == Acts(s.log) + Leaving(s, removing);
      ActsConcat(end.log, [Open(bucket)]);
    }
  }

  lemma DeliverActs(s: State, c: Content, i: nat, server: Server)
    requires s.sending
    ensures Acts(Deliver(s, c, i, server).log) == Acts(s.log) + [Send(c)]
  {
    var more := Reports(c.bucket, s.pending[..server.Early(i, |s.pending|)]);
    ReportsAreNoActs(more);
    OneAct(Send(c));
    hide Acts, Reports, Server.Answers, Server.Early;
    ActsConcat(s.log, more);
    ActsConcat(s.log + more, [Send(c)]);
    assert Acts(s.log) + [] == Acts(s.log);
  }

  /** An entry of the bucket that the loop is in. */
  lemma StayActs(s: State, c: Content, i: nat, removing: bool, server: Server)
    requires s.outcome.Going? && s.sending && s.prevBucket == c.bucket != ""
    ensures var t := Take(s, c, i, removing, server);
      && t.outcome.Going? && t.prevBucket == c.bucket && t.sending == (c.key != "")
      && Acts(t.log) == Acts(s.log) + [if c.key == "" then Close else Send(c)]
  {
    hide Acts;
    if c.key == "" {
      OneAct(Close);
      ActsConcat(s.log, [Close]);
    } else {
      DeliverActs(s, c, i, server);
    }
  }

  /** After some objects of a group. */
  predicate Within(s: State, before: State, g: Group, k: nat, removing: bool)
    requires k <= |g.objects|
  {
    && s.outcome.Going? && s.prevBucket == g.bucket && s.sending
    && Acts(s.log) == Acts(before.log) + Leaving(before, removing) + [Open(g.bucket)] + Sends(g.objects[..k])
  }

  lemma TakeAllSnoc(cs: seq<Content>, c: Content, removing: bool, server: Server)
    ensures TakeAll(cs + [c], removing, server) == Take(TakeAll(cs, removing, server), c, |cs|, removing, server)
  {
    assert (cs + [c])[..|cs|] == cs;
  }

  /** The first entry of a group enters its bucket and is then taken like the others. */
  lemma FirstEntry(s: State, c: Content, i: nat, removing: bool, server: Server)
    requires s.outcome.Going? && c.bucket != "" && s.prevBucket != c.bucket && CanLeave(s, removing, server)
    ensures Take(s, c, i, removing, server) == Take(EnterBucket(s, c.bucket, removing, server), c, i, removing, server)
  {
  }

  lemma {:induction false} ObjectsTaken(cs: seq<Content>, g: Group, k: nat, removing: bool, server: Server)
    requires g.Valid() && CanLeave(TakeAll(cs, removing, server), removing, server) && 0 < k <= |g.objects|
    requires TakeAll(cs, removing, server).outcome.Going? && TakeAll(cs, removing, server).prevBucket != g.bucket
    ensures Within(TakeAll(cs + g.objects[..k], removing, server), TakeAll(cs, removing, server), g, k, removing)
    decreases k
  {
    hide Acts, Take, TakeAll, EnterBucket, Leaving;
    var before := TakeAll(cs, removing, server);
    var c := g.objects[k - 1];
    var prior := if k == 1 then EnterBucket(before, g.bucket, removing, server)
                           else TakeAll(cs + g.objects[..k - 1], removing, server);
    assert cs + g.objects[..k] == cs + g.objects[..k - 1] + [c];
    TakeAllSnoc(cs + g.objects[..k - 1], c, removing, server);
    if k == 1 {
      assert cs + g.objects[..0] == cs;
      EnterActs(before, g.bucket, removing, server);
      FirstEntry(before, c, |cs|, removing, server);
    } else {
      ObjectsTaken(cs, g, k - 1, removing, server);
    }
    StayActs(prior, c, |cs + g.objects[..k - 1]|, removing, server);
    assert Sends(g.objects[..k]) == Sends(g.objects[..k - 1]) + [Send(c)];
  }

  lemma MarkerTaken(cs: seq<Content>, g: Group, removing: bool, server: Server)
    requires g.Valid() && g.marked && CanLeave(TakeAll(cs, removing, server), removing, server)
    requires TakeAll(cs, removing, server).outcome.Going? && TakeAll(cs, removing, server).prevBucket != g.bucket
    ensures var s, before := TakeAll(cs + g.Contents(), removing, server), TakeAll(cs, removing, server);
      && s.outcome.Going? && s.prevBucket == g.bucket && !s.sending
      && Acts(s.log) == Acts(before.log) + Leaving(before, removing) + [Open(g.bucket)] + Sends(g.objects) + [Close]
  {
    hide Acts, Take, TakeAll, EnterBucket, Leaving;
    var before := TakeAll(cs, removing, server);
    var c := Content(g.bucket, "", "");
    var prior := if g.objects == [] then EnterBucket(before, g.bucket, removing, server)
                                    else TakeAll(cs + g.objects, removing, server);
    assert cs + g.Contents() == cs + g.objects + [c];
    TakeAllSnoc(cs + g.objects, c, removing, server);
    if g.objects == [] {
      assert cs + g.objects == cs;
      EnterActs(before, g.bucket, removing, server);
      FirstEntry(before, c, |cs|, removing, server);
    } else {
      assert g.objects[..|g.objects|] == g.objects;
      ObjectsTaken(cs, g, |g.objects|, removing, server);
    }
    StayActs(prior, c, |cs + g.objects|, removing, server);
  }

  lemma GroupTaken(cs: seq<Content>, g: Group, removing: bool, server: Server)
    requires g.Valid() && CanLeave(TakeAll(cs, removing, server), removing, server)
    requires TakeAll(cs, removing, server).outcome.Going? && TakeAll(cs, removing, server).prevBucket != g.bucket
    ensures var s, before := TakeAll(cs + g.Contents(), removing, server), TakeAll(cs, removing, server);
      && s.outcome.Going? && s.prevBucket == g.bucket
      && Acts(s.log) + Leaving(s, removing) == Acts(before.log) + Leaving(before, removing) + Session(g, removing)
  {
    hide Acts, Take, TakeAll, EnterBucket;
    var before := TakeAll(cs, removing, server);
    var due := Leaving(before, removing);
    var tail := [Drained] + if removing then [RemoveBucket(g.bucket)] else [];
    assert Session(g, removing) == [Open(g.bucket)] + Sends(g.objects) + [Close] + tail;
    if g.marked {
      MarkerTaken(cs, g, removing, server);
    } else {
      assert cs + g.Contents() == cs + g.objects[..|g.objects|];
      assert g.objects[..|g.objects|] == g.objects;
      ObjectsTaken(cs, g, |g.objects|, removing, server);
    }
  }

  predicate RemovableUpTo(gs: seq<Group>, n: int, server: Server)
    requires n <= |gs|
  {
    forall i | 0 <= i < n :: server.removable(gs[i].bucket)
  }

  lemma {:induction false} GroupsTaken(gs: seq<Group>, removing: bool, server: Server)
    requires Grouped(gs) && (removing ==> RemovableUpTo(gs, |gs| - 1, server))
    ensures var s := TakeAll(Listing(gs), removing, server);
      && s.outcome.Going?
      && s.prevBucket == (if gs == [] then "" else gs[|gs| - 1].bucket)
      && Acts(s.log) + Leaving(s, removing) == Sessions(gs, removing)
    decreases |gs|
  {
    if gs == [] {
    } else {
      var gs0, g := gs[..|gs| - 1], gs[|gs| - 1];
      GroupsTaken(gs0, removing, server);
      assert gs0 != [] ==> gs[|gs0| - 1].bucket != g.bucket;
      GroupTaken(Listing(gs0), g, removing, server);
    }
  }

  lemma {:induction false} ListingSplit(gs: seq<Group>, m: nat)
    requires Grouped(gs) && m < |gs|
    ensures Listing(gs[..m]) + [gs[m].Contents()[0]] <= Listing(gs)
    decreases |gs|
  {
    var last := |gs| - 1;
    if m == last {
    } else {
      assert gs[..last][..m] == gs[..m];
      ListingSplit(gs[..last], m);
    }
  }

  /** Entering another bucket fails when the current one cannot be left. */
  lemma FailedEntry(s: State, c: Content, i: nat, server: Server)
    requires s.outcome.Going? && c.bucket != "" && s.prevBucket != "" && s.prevBucket != c.bucket
    requires !server.removable(s.prevBucket)
    ensures var t := Take(s, c, i, true, server);
      t.outcome.Failed? && Acts(t.log) == Acts(s.log) + Leaving(s, true) + [Refused(c.bucket)]
  {
    hide Acts;
    LeaveActs(s, c.bucket, Reports(c.bucket, s.pending), true, server);
  }

  lemma FailedRun(cs: seq<Content>, done: seq<Content>, c: Content, server: Server)
    requires done + [c] <= cs
    requires var s := TakeAll(done, true, server);
      && s.outcome.Going? && c.bucket != "" && s.prevBucket != "" && s.prevBucket != c.bucket
      && !server.removable(s.prevBucket)
    ensures var s, end := TakeAll(done, true, server), Run(cs, true, server);
      end.outcome.Failed? && Acts(end.log) == Acts(s.log) + Leaving(s, true) + [Refused(c.bucket)]
  {
    hide *;
    TakeAllSnoc(done, c, true, server);
    FailedEntry(TakeAll(done, true, server), c, |done|, server);
    assert cs[..|done| + 1] == done + [c];
    StoppedEarly(cs, |done| + 1, true, server);
  }

  lemma NextGroup(gs: seq<Group>, k: nat, server: Server)
    requires Grouped(gs) && k + 1 < |gs| && RemovableUpTo(gs, k, server)
    ensures Grouped(gs[..k + 1]) && RemovableUpTo(gs[..k + 1], k, server)
    ensures gs[k + 1].Contents() != [] && gs[k].bucket != ""
    ensures var c := gs[k + 1].Contents()[0]; c.bucket == gs[k + 1].bucket != gs[k].bucket && c.bucket != ""
  {
    var served := gs[..k + 1];
    assert forall i | 0 <= i < k + 1 :: served[i] == gs[i];
    assert gs[k].Valid() && gs[k + 1].Valid();
  }

  /** The first entry after a bucket which cannot be removed ends the run. */
  lemma KeptBucketEndsTheRun(gs: seq<Group>, k: nat, server: Server)
    requires Grouped(gs) && k + 1 < |gs| && RemovableUpTo(gs, k, server) && !server.removable(gs[k].bucket)
    ensures var end := Run(Listing(gs), true, server);
      end.outcome.Failed? && Acts(end.log) == Sessions(gs[..k + 1], true) + [Refused(gs[k + 1].bucket)]
  {
    hide *;
    NextGroup(gs, k, server);
    var served, c := gs[..k + 1], gs[k + 1].Contents()[0];
    GroupsTaken(served, true, server);
    ListingSplit(gs, k + 1);
    FailedRun(Listing(gs), Listing(served), c, server);
  }

  /**
   * A listing grouped by bucket, each bucket's own entry last if it is there at all, is served in sessions:
   * open, hand in the bucket's objects in order, close, drain, and remove the bucket if that was asked for;
   * up to and including the first bucket which is to be removed and cannot be.
   */
  lemma GroupedListingIsServedInSessions(gs: seq<Group>, removing: bool, server: Server)
    requires Grouped(gs)
    ensures var end := Run(Listing(gs), removing, server);
      (removing ==> RemovableUpTo(gs, |gs|, server)) ==>
        end.outcome.Going? && Acts(end.log) == Sessions(gs, removing)
    ensures forall k: nat | k < |gs| && removing && RemovableUpTo(gs, k, server) && !server.removable(gs[k].bucket) ::
              EndsAtKept(gs, k, server)
  {
    hide *;
    if removing ==> RemovableUpTo(gs, |gs|, server) {
      ServedWell(gs, removing, server);
    }
    forall k: nat | k < |gs| && removing && RemovableUpTo(gs, k, server) && !server.removable(gs[k].bucket)
      ensures EndsAtKept(gs, k, server)
    {
      KeptGroupEnds(gs, k, server);
    }
  }

  /** The run fails after the session of group `k`; the refusal is reported under the bucket entered next. */
  predicate EndsAtKept(gs: seq<Group>, k: nat, server: Server)
    requires k < |gs|
  {
    var end := Run(Listing(gs), true, server);
    var name := if k + 1 < |gs| then gs[k + 1].bucket else gs[k].bucket;
    end.outcome.Failed? && Acts(end.log) == Sessions(gs[..k + 1], true) + [Refused(name)]
  }

  lemma KeptGroupEnds(gs: seq<Group>, k: nat, server: Server)
    requires Grouped(gs) && k < |gs| && RemovableUpTo(gs, k, server) && !server.removable(gs[k].bucket)
    ensures EndsAtKept(gs, k, server)
  {
    hide Grouped, RemovableUpTo, Run, Listing, Sessions, Acts;
    if k + 1 < |gs| {
      KeptBucketEndsTheRun(gs, k, server);
    } else {
      LastBucketIsKept(gs, server);
      assert gs[..k + 1] == gs;
    }
  }

  lemma ServedWell(gs: seq<Group>, removing: bool, server: Server)
    requires Grouped(gs) && (removing ==> RemovableUpTo(gs, |gs|, server))
    ensures Run(Listing(gs), removing, server).outcome.Going?
    ensures Acts(Run(Listing(gs), removing, server).log) == Sessions(gs, removing)
  {
    assert removing ==> RemovableUpTo(gs, |gs| - 1, server);
    assert gs != [] && removing ==> server.removable(gs[|gs| - 1].bucket);
    hide *;
    AllGroupsServed(gs, removing, server);
    NothingListed(removing, server);
    assert Sessions(gs, removing) + [] == Sessions(gs, removing);
  }

  lemma LastBucketIsKept(gs: seq<Group>, server: Server)
    requires Grouped(gs) && gs != [] && RemovableUpTo(gs, |gs| - 1, server) && !server.removable(gs[|gs| - 1].bucket)
    ensures var end := Run(Listing(gs), true, server);
      end.outcome.Failed? && Acts(end.log) == Sessions(gs, true) + [Refused(gs[|gs| - 1].bucket)]
  {
    hide *;
    AllGroupsServed(gs, true, server);
  }

  lemma NothingListed(removing: bool, server: Server)
    ensures Sessions([], removing) == []
  {
  }

  lemma AllGroupsServed(gs: seq<Group>, removing: bool, server: Server)
    requires Grouped(gs) && (removing ==> RemovableUpTo(gs, |gs| - 1, server))
    ensures var end := Run(Listing(gs), removing, server);
      if gs == [] then end.outcome.Going? && Acts(end.log) == []
      else
        var kept := removing && !server.removable(gs[|gs| - 1].bucket);
        && end.outcome == (if kept then Failed else Going)
        && Acts(end.log) == Sessions(gs, removing) + if kept then [Refused(gs[|gs| - 1].bucket)] else []
  {
    GroupsTaken(gs, removing, server);
    var s := TakeAll(Listing(gs), removing, server);
    hide Acts, Listing, Sessions;
    if s.prevBucket != "" {
      LeaveActs(s, s.prevBucket, LastReports(s.prevBucket, s.pending), removing, server);
    }
  }

  // ---------- names on reports ----------

  /** Every report names the bucket of the object it is about. */
  predicate WellNamed(log: seq<Event>) {
    forall i | 0 <= i < |log| :: log[i].Report? ==> log[i].bucketName == log[i].status.content.bucket
  }

  predicate Answered(c: Content, server: Server) { c.bucket != "" && c.key != "" && server.answers(c) != [] }

  /** No entry of another bucket follows an object which gets an answer. */
  predicate OneAnsweredBucket(cs: seq<Content>, server: Server) {
    forall i, j | 0 <= i < j < |cs| :: Answered(cs[i], server) && cs[j].bucket != "" ==> cs[i].bucket == cs[j].bucket
  }

  predicate NoFailures(cs: seq<Content>, server: Server) {
    forall i | 0 <= i < |cs| :: Answered(cs[i], server) ==> true !in server.answers(cs[i])
  }

  predicate NoneAnswered(cs: seq<Content>, server: Server) { forall i | 0 <= i < |cs| :: !Answered(cs[i], server) }

  lemma AnswersSnoc(cs: seq<Content>, c: Content, server: Server)
    ensures AllAnswers(cs + [c], server) == AllAnswers(cs, server) + server.Answers(c)
  {
    assert (cs + [c])[..|cs|] == cs;
  }

  lemma OneMoreAnswer(cs: seq<Content>, c: Content, server: Server)
    ensures AllAnswers(Objects(cs + [c]), server)
            == AllAnswers(Objects(cs), server) + if c.bucket != "" && c.key != "" then server.Answers(c) else []
  {
    assert (cs + [c])[..|cs|] == cs;
    hide AllAnswers, Server.Answers;
    AnswersSnoc(Objects(cs), c, server);
    assert Objects(cs) + [] == Objects(cs);
    assert AllAnswers(Objects(cs), server) + [] == AllAnswers(Objects(cs), server);
  }

  lemma NoneAnsweredSnoc(cs: seq<Content>, c: Content, server: Server)
    ensures NoneAnswered(cs + [c], server) <==> NoneAnswered(cs, server) && !Answered(c, server)
  {
    if NoneAnswered(cs + [c], server) {
      assert forall i | 0 <= i < |cs| :: cs[i] == (cs + [c])[i];
      assert c == (cs + [c])[|cs|];
    }
  }

  lemma {:induction false} NoAnswers(cs: seq<Content>, server: Server)
    ensures |AllAnswers(Objects(cs), server)| == 0 <==> NoneAnswered(cs, server)
    decreases |cs|
  {
    if cs == [] {
    } else {
      var cs0, c := cs[..|cs| - 1], cs[|cs| - 1];
      assert |server.Answers(c)| == |server.answers(c)|;
      hide AllAnswers, Objects, Server.Answers, NoneAnswered;
      assert cs == cs0 + [c];
      NoAnswers(cs0, server);
      OneMoreAnswer(cs0, c, server);
      NoneAnsweredSnoc(cs0, c, server);
    }
  }

  lemma NoFailuresSnoc(cs: seq<Content>, c: Content, server: Server)
    ensures NoFailures(cs + [c], server) <==>
            NoFailures(cs, server) && (Answered(c, server) ==> true !in server.answers(c))
  {
    if NoFailures(cs + [c], server) {
      assert forall i | 0 <= i < |cs| :: cs[i] == (cs + [c])[i];
      assert c == (cs + [c])[|cs|];
    }
  }

  lemma {:induction false} WaitingIsOwn(cs: seq<Content>, removing: bool, server: Server)
    ensures var s := TakeAll(cs, removing, server);
      forall p | p in s.pending :: && p.content.bucket == s.prevBucket
                                   && !NoneAnswered(cs, server)
                                   && (p.failed ==> !NoFailures(cs, server))
    decreases |cs|
  {
    if cs == [] {
    } else {
      var cs0, c := cs[..|cs| - 1], cs[|cs| - 1];
      WaitingIsOwn(cs0, removing, server);
      StoppedMeansEmpty(cs0, removing, server);
      var s, t := TakeAll(cs0, removing, server), TakeAll(cs, removing, server);
      assert t == Take(s, c, |cs0|, removing, server);
      hide Take, TakeAll, Server.Answers, NoneAnswered, NoFailures;
      assert cs == cs0 + [c];
      NoneAnsweredSnoc(cs0, c, server);
      NoFailuresSnoc(cs0, c, server);
      forall p | p in t.pending
        ensures p.content.bucket == t.prevBucket && !NoneAnswered(cs, server) && (p.failed ==> !NoFailures(cs, server))
      {
        WaitingStep(s, c, |cs0|, removing, server, p);
        if p !in s.pending || t.prevBucket != s.prevBucket {
          AnswerIsOwn(c, server, p);
        }
      }
    }
  }

  lemma AnswerIsOwn(c: Content, server: Server, p: Status)
    requires p in server.Answers(c)
    ensures p.content == c && server.answers(c) != [] && (p.failed ==> true in server.answers(c))
  {
  }

  /** What waits after an entry waited before it in the same bucket, or answers it. */
  lemma WaitingStep(s: State, c: Content, i: nat, removing: bool, server: Server, p: Status)
    requires !s.outcome.Going? || s.prevBucket == "" ==> s.pending == []
    requires p in Take(s, c, i, removing, server).pending
    ensures var t := Take(s, c, i, removing, server);
      || (p in s.pending && t.prevBucket == s.prevBucket)
      || (p in server.Answers(c) && t.prevBucket == c.bucket && c.bucket != "" && c.key != "")
  {
    hide Server.Answers;
    if s.outcome.Going? && c.bucket != "" {
      var e := EnterBucket(s, c.bucket, removing, server);
      assert e.pending == [] || e == s;
      assert e.outcome.Going? ==> e.prevBucket == c.bucket;
      if e.outcome.Going? && c.key != "" && e.sending {
        assert Take(s, c, i, removing, server) == Deliver(e, c, i, server);
        var k := server.Early(i, |e.pending|);
        assert p in e.pending[k..] || p in server.Answers(c);
      }
    }
  }

  lemma {:induction false} NamedConcat(a: seq<Event>, b: seq<Event>)
    ensures WellNamed(a + b) <==> WellNamed(a) && WellNamed(b)
  {
    if WellNamed(a + b) {
      assert forall i | 0 <= i < |a| :: a[i] == (a + b)[i];
      assert forall i | 0 <= i < |b| :: b[i] == (a + b)[|a| + i];
    }
  }

  lemma NamedReports(name: string, statuses: seq<Status>)
    ensures WellNamed(Reports(name, statuses)) <==> forall p | p in statuses :: p.content.bucket == name
  {
    var more := Reports(name, statuses);
    assert forall i | 0 <= i < |more| :: more[i] == Report(name, statuses[i]);
    if WellNamed(more) {
      forall p | p in statuses
        ensures p.content.bucket == name
      {
        var i :| 0 <= i < |statuses| && statuses[i] == p;
        assert more[i].Report?;
      }
    }
  }

  /** Entering another bucket names what waits after the new bucket. */
  lemma EnterNamed(s: State, bucket: string, removing: bool, server: Server)
    requires s.outcome.Going? && bucket != "" && WellNamed(s.log)
    requires forall p | p in s.pending :: p.content.bucket == s.prevBucket
    requires s.prevBucket == "" ==> s.pending == []
    ensures WellNamed(EnterBucket(s, bucket, removing, server).log) <==> s.prevBucket == bucket || s.pending == []
  {
    var more := Reports(bucket, s.pending);
    NamedReports(bucket, s.pending);
    assert s.pending == [] || s.pending[0] in s.pending;
    hide WellNamed, Reports;
    SilentNames(s, bucket, removing, server);
    NamedConcat(s.log, [Open(bucket)]);
    DrainLog(s, bucket, more, removing, server);
    NamedConcat(s.log, DrainTail(s, bucket, more, removing, server));
    NamedConcat(s.log + DrainTail(s, bucket, more, removing, server), [Open(bucket)]);
  }

  lemma SilentNames(s: State, bucket: string, removing: bool, server: Server)
    ensures WellNamed([Open(bucket)])
    ensures forall more :: WellNamed(DrainTail(s, bucket, more, removing, server)) <==> WellNamed(more)
  {
    forall more
      ensures WellNamed(DrainTail(s, bucket, more, removing, server)) <==> WellNamed(more)
    {
      var shut := if s.sending then [Close] else [];
      var tail := [Drained] + if !removing then [] else if server.removable(s.prevBucket) then [RemoveBucket(s.prevBucket)]
                              else [RemoveBucket(s.prevBucket), Refused(bucket)];
      NamedConcat(shut + more, tail);
      NamedConcat(shut, more);
    }
  }

  /** One more entry spoils the names only when it switches buckets while answers wait. */
  lemma NamedStep(s: State, c: Content, i: nat, removing: bool, server: Server)
    requires s.outcome.Going? && WellNamed(s.log)
    requires forall p | p in s.pending :: p.content.bucket == s.prevBucket
    requires s.prevBucket == "" ==> s.pending == []
    ensures WellNamed(Take(s, c, i, removing, server).log) <==>
            c.bucket == "" || s.prevBucket == c.bucket || s.pending == []
  {
    if c.bucket != "" {
      EnterNamed(s, c.bucket, removing, server);
      var e := EnterBucket(s, c.bucket, removing, server);
      assert e == s || (e.pending == [] && (e.outcome.Going? ==> e.prevBucket == c.bucket));
      if c.key == "" {
        NamedConcat(e.log, [Close]);
      } else {
        var k := if e.sending then server.Early(i, |e.pending|) else |e.pending|;
        assert forall p | p in e.pending[..k] :: p in s.pending;
        NamedReports(c.bucket, e.pending[..k]);
        assert e.pending[..|e.pending|] == e.pending;
        NamedConcat(e.log, Reports(c.bucket, e.pending[..k]));
        NamedConcat(e.log + Reports(c.bucket, e.pending[..k]), [Send(c)]);
      }
    }
  }

  /** A spoilt log stays spoilt. */
  lemma SpoiltStays(s: State, c: Content, i: nat, removing: bool, server: Server)
    requires !WellNamed(s.log)
    ensures !WellNamed(Take(s, c, i, removing, server).log)
  {
    var t := Take(s, c, i, removing, server);
    assert s.log <= t.log;
    NamedConcat(s.log, t.log[|s.log|..]);
    assert t.log == s.log + t.log[|s.log|..];
  }

  lemma SameBucketSoFar(cs: seq<Content>, c: Content, removing: bool, server: Server)
    requires TakeAll(cs, removing, server).outcome.Going? && c.bucket != ""
    requires OneAnsweredBucket(cs, server) && !NoneAnswered(cs, server)
    ensures OneAnsweredBucket(cs + [c], server) <==> TakeAll(cs, removing, server).prevBucket == c.bucket
  {
    var s := TakeAll(cs, removing, server);
    TakeAllTells(cs, removing, server);
    var a :| 0 <= a < |cs| && Answered(cs[a], server);
    var l: nat :| IsLast(cs, l) && s.prevBucket == cs[l].bucket;
    assert a <= l && cs[a].bucket == cs[l].bucket;
    var all := cs + [c];
    assert all[a] == cs[a] && all[|cs|] == c;
    if s.prevBucket == c.bucket {
      forall i, j | 0 <= i < j < |all| && Answered(all[i], server) && all[j].bucket != ""
        ensures all[i].bucket == all[j].bucket
      {
        assert all[i] == cs[i] && i <= l;
        assert cs[i].bucket == cs[l].bucket;
        assert j < |cs| ==> all[j] == cs[j];
      }
    }
  }

  lemma {:induction false} RightNamesSoFar(cs: seq<Content>, removing: bool, server: Server)
    requires OneAnsweredBucket(cs, server)
    ensures WellNamed(TakeAll(cs, removing, server).log)
    decreases |cs|
  {
    if cs == [] {
    } else {
      var cs0, c := cs[..|cs| - 1], cs[|cs| - 1];
      var s := TakeAll(cs0, removing, server);
      assert cs == cs0 + [c];
      assert OneAnsweredBucket(cs0, server);
      RightNamesSoFar(cs0, removing, server);
      WaitingIsOwn(cs0, removing, server);
      StoppedMeansEmpty(cs0, removing, server);
      hide Take, WellNamed;
      if s.outcome.Going? {
        if c.bucket != "" && s.pending != [] {
          assert s.pending[0] in s.pending;
          SameBucketSoFar(cs0, c, removing, server);
        }
        NamedStep(s, c, |cs0|, removing, server);
      } else {
        StoppedAll(cs, |cs0|, removing, server);
      }
    }
  }

  /** No answer arrives before the stream of its bucket is drained. */
  ghost predicate Slow(server: Server) { forall i: nat :: server.early(i) == 0 }

  lemma SlowStep(s: State, c: Content, i: nat, removing: bool, server: Server)
    requires s.outcome.Going? && Slow(server)
    requires c.bucket == "" || s.prevBucket == c.bucket || s.pending == []
    requires Take(s, c, i, removing, server).outcome.Going?
    ensures Take(s, c, i, removing, server).pending
            == s.pending + if c.bucket != "" && c.key != "" then server.Answers(c) else []
  {
    hide Server.Answers;
    assert server.early(i) == 0;
    assert s.pending[0..] == s.pending && s.pending + [] == s.pending;
  }

  /** On a slow server a log stays well named only as long as one bucket gets answers. */
  lemma {:induction false} SlowEntry(cs: seq<Content>, c: Content, removing: bool, server: Server)
    requires Slow(server) && TakeAll(cs, removing, server).outcome.Going?
    requires WellNamed(TakeAll(cs + [c], removing, server).log)
    ensures WellNamed(TakeAll(cs, removing, server).log) && OneAnsweredBucket(cs + [c], server)
    ensures TakeAll(cs, removing, server).pending == AllAnswers(Objects(cs), server)
    ensures var s := TakeAll(cs, removing, server); c.bucket == "" || s.prevBucket == c.bucket || s.pending == []
    decreases |cs|, 1
  {
    var s := TakeAll(cs, removing, server);
    TakeAllSnoc(cs, c, removing, server);
    if !WellNamed(s.log) {
      SpoiltStays(s, c, |cs|, removing, server);
    }
    hide Take, WellNamed, Server.Answers;
    SlowNamesSoFar(cs, removing, server);
    WaitingIsOwn(cs, removing, server);
    StoppedMeansEmpty(cs, removing, server);
    NamedStep(s, c, |cs|, removing, server);
    NoAnswers(cs, server);
    if NoneAnswered(cs, server) {
      FirstAnswer(cs, c, server);
    } else if c.bucket != "" {
      SameBucketSoFar(cs, c, removing, server);
    } else {
      BlankAnswers(cs, c, server);
    }
  }

  lemma {:induction false} SlowNamesSoFar(cs: seq<Content>, removing: bool, server: Server)
    requires Slow(server)
    requires TakeAll(cs, removing, server).outcome.Going? && WellNamed(TakeAll(cs, removing, server).log)
    ensures OneAnsweredBucket(cs, server)
    ensures TakeAll(cs, removing, server).pending == AllAnswers(Objects(cs), server)
    decreases |cs|, 0
  {
    if cs == [] {
    } else {
      var cs0, c := cs[..|cs| - 1], cs[|cs| - 1];
      assert cs == cs0 + [c];
      TakeAllSnoc(cs0, c, removing, server);
      var s := TakeAll(cs0, removing, server);
      assert s.outcome.Going?;
      hide Take, TakeAll, WellNamed, Server.Answers;
      SlowEntry(cs0, c, removing, server);
      SlowStep(s, c, |cs0|, removing, server);
      OneMoreAnswer(cs0, c, server);
    }
  }

  lemma FirstAnswer(cs: seq<Content>, c: Content, server: Server)
    requires NoneAnswered(cs, server)
    ensures OneAnsweredBucket(cs + [c], server)
  {
    assert forall i | 0 <= i < |cs| :: (cs + [c])[i] == cs[i];
  }

  lemma BlankAnswers(cs: seq<Content>, c: Content, server: Server)
    requires OneAnsweredBucket(cs, server) && c.bucket == ""
    ensures OneAnsweredBucket(cs + [c], server)
  {
    assert forall i | 0 <= i < |cs| :: (cs + [c])[i] == cs[i];
  }

  lemma LastNamed(s: State, removing: bool, server: Server)
    requires s.outcome.Going? && s.prevBucket != "" && forall p | p in s.pending :: p.content.bucket == s.prevBucket
    ensures WellNamed(Finish(s, removing, server).log) <==> WellNamed(s.log) && forall p | p in s.pending :: !p.failed
  {
    var more := LastReports(s.prevBucket, s.pending);
    DrainLog(s, s.prevBucket, more, removing, server);
    SilentNames(s, s.prevBucket, removing, server);
    NamedConcat(s.log, DrainTail(s, s.prevBucket, more, removing, server));
    assert forall i | 0 <= i < |more| :: more[i].status == s.pending[i] && s.pending[i] in s.pending;
    if WellNamed(more) {
      forall p | p in s.pending
        ensures !p.failed
      {
        var i :| 0 <= i < |s.pending| && s.pending[i] == p;
        assert more[i].Report?;
      }
    }
  }

  lemma NoFailedAnswer(c: Content, server: Server)
    requires forall p | p in server.Answers(c) :: !p.failed
    ensures true !in server.answers(c)
  {
    forall i | 0 <= i < |server.answers(c)|
      ensures !server.answers(c)[i]
    {
      assert server.Answers(c)[i] in server.Answers(c);
    }
  }

  lemma {:induction false} FailuresWait(cs: seq<Content>, server: Server)
    requires forall p | p in AllAnswers(Objects(cs), server) :: !p.failed
    ensures NoFailures(cs, server)
    decreases |cs|
  {
    if cs == [] {
    } else {
      var cs0, c := cs[..|cs| - 1], cs[|cs| - 1];
      assert cs == cs0 + [c];
      hide AllAnswers, Objects, NoFailures, Server.Answers;
      OneMoreAnswer(cs0, c, server);
      FailuresWait(cs0, server);
      NoFailuresSnoc(cs0, c, server);
      if Answered(c, server) {
        NoFailedAnswer(c, server);
      }
    }
  }

  // ---------- how far a listing is read ----------

  predicate Halts(cs: seq<Content>, removing: bool, server: Server) {
    exists j: nat | j < |cs| :: StopsAt(cs, j, removing, server)
  }

  /** The entries read: all of them, or those up to the one which stops the loop. */
  function Read(cs: seq<Content>, removing: bool, server: Server): seq<Content> {
    if cs == [] || !Halts(cs[..|cs| - 1], removing, server) then cs else Read(cs[..|cs| - 1], removing, server)
  }

  lemma HaltsWhenStopped(cs: seq<Content>, removing: bool, server: Server)
    ensures Halts(cs, removing, server) <==> !TakeAll(cs, removing, server).outcome.Going?
  {
    TakeAllTells(cs, removing, server);
    hide AfterItsBucket, LeavesKept;
    var s := TakeAll(cs, removing, server);
    if s.outcome.Hung? {
      var j: nat :| j < |cs| && AfterItsBucket(cs, j);
      assert StopsAt(cs, j, removing, server);
    } else if s.outcome.Failed? {
      var j: nat :| j < |cs| && LeavesKept(cs, j, removing, server);
      assert StopsAt(cs, j, removing, server);
    }
  }

  lemma {:induction false} ReadIsEnough(cs: seq<Content>, removing: bool, server: Server)
    ensures var read := Read(cs, removing, server);
      && TakeAll(cs, removing, server) == TakeAll(read, removing, server)
      && (read != [] ==> TakeAll(read[..|read| - 1], removing, server).outcome.Going?)
    ensures !Halts(cs, removing, server) ==> Read(cs, removing, server) == cs
    decreases |cs|
  {
    if cs == [] {
    } else {
      var cs0 := cs[..|cs| - 1];
      HaltsWhenStopped(cs0, removing, server);
      hide Halts, Take, TakeAll;
      if Halts(cs0, removing, server) {
        StaysHalted(cs, removing, server);
        ReadIsEnough(cs0, removing, server);
        StoppedAll(cs, |cs0|, removing, server);
      }
    }
  }

  lemma StaysHalted(cs: seq<Content>, removing: bool, server: Server)
    requires cs != [] && Halts(cs[..|cs| - 1], removing, server)
    ensures Halts(cs, removing, server)
  {
    var cs0, c := cs[..|cs| - 1], cs[|cs| - 1];
    assert cs == cs0 + [c];
    hide AfterItsBucket, LeavesKept;
    var j: nat :| j < |cs0| && StopsAt(cs0, j, removing, server);
    Appended(cs0, c, j, removing, server);
    assert StopsAt(cs, j, removing, server);
  }

  lemma {:induction false} ReadIgnoresTiming(cs: seq<Content>, removing: bool, server: Server, early: nat -> nat)
    ensures Halts(cs, removing, server.(early := early)) == Halts(cs, removing, server)
    ensures Read(cs, removing, server.(early := early)) == Read(cs, removing, server)
    decreases |cs|
  {
    HaltsIgnoresTiming(cs, removing, server, early);
    if cs == [] {
    } else {
      ReadIgnoresTiming(cs[..|cs| - 1], removing, server, early);
    }
  }

  lemma HaltsIgnoresTiming(cs: seq<Content>, removing: bool, server: Server, early: nat -> nat)
    ensures Halts(cs, removing, server.(early := early)) == Halts(cs, removing, server)
  {
    assert forall j: nat | j < |cs| ::
      LeavesKept(cs, j, removing, server.(early := early)) == LeavesKept(cs, j, removing, server);
    hide LeavesKept, AfterItsBucket;
    assert forall j: nat | j < |cs| ::
      StopsAt(cs, j, removing, server.(early := early)) == StopsAt(cs, j, removing, server);
  }

  /** Of the entries read one bucket alone gets answers, and if all were read none of them is a failure. */
  predicate Nameable(cs: seq<Content>, removing: bool, server: Server) {
    && OneAnsweredBucket(Read(cs, removing, server), server)
    && (Halts(cs, removing, server) || NoFailures(cs, server))
  }

  /** Then the names are right at any speed of the server. */
  lemma RightNames(cs: seq<Content>, removing: bool, server: Server)
    requires Nameable(cs, removing, server)
    ensures WellNamed(Run(cs, removing, server).log)
  {
    RightNamesSoFar(Read(cs, removing, server), removing, server);
    ReadIsEnough(cs, removing, server);
    HaltsWhenStopped(cs, removing, server);
    WaitingIsOwn(cs, removing, server);
    var s := TakeAll(cs, removing, server);
    if s.outcome.Going? && s.prevBucket != "" {
      LastNamed(s, removing, server);
    }
  }

  /** On a slow server nothing less will do. */
  lemma SlowNames(cs: seq<Content>, removing: bool, server: Server)
    requires Slow(server) && WellNamed(Run(cs, removing, server).log)
    ensures Nameable(cs, removing, server)
  {
    HaltsWhenStopped(cs, removing, server);
    ReadIsEnough(cs, removing, server);
    if TakeAll(cs, removing, server).outcome.Going? {
      SlowEnd(cs, removing, server);
    } else {
      assert Run(cs, removing, server) == TakeAll(cs, removing, server);
      var read := Read(cs, removing, server);
      hide TakeAll, Take, Finish, Run, Read, Halts, WellNamed, OneAnsweredBucket;
      NothingRead(removing, server);
      var read0, c := read[..|read| - 1], read[|read| - 1];
      assert read == read0 + [c];
      SlowEntry(read0, c, removing, server);
    }
  }

  lemma NothingRead(removing: bool, server: Server)
    ensures TakeAll([], removing, server).outcome.Going?
  {
  }

  lemma SlowEnd(cs: seq<Content>, removing: bool, server: Server)
    requires Slow(server) && TakeAll(cs, removing, server).outcome.Going? && WellNamed(Run(cs, removing, server).log)
    ensures OneAnsweredBucket(cs, server) && NoFailures(cs, server)
  {
    var s := TakeAll(cs, removing, server);
    assert s.prevBucket == "" ==> Run(cs, removing, server) == s;
    WaitingIsOwn(cs, removing, server);
    StoppedMeansEmpty(cs, removing, server);
    if s.prevBucket != "" {
      LastNamed(s, removing, server);
    }
    hide TakeAll, Finish, WellNamed, OneAnsweredBucket, NoFailures, NoneAnswered, AllAnswers, Objects;
    SlowNamesSoFar(cs, removing, server);
    FailuresWait(cs, server);
  }

  /**
   * For any listing, and whichever buckets can be removed: reports name the bucket of their object at every
   * speed of the server exactly if of the entries read one bucket alone gets answers, and none of these is
   * a failure if all entries were read. What waits at a switch is reported under the new bucket's name.
   */
  lemma NamesAreRightExactly(cs: seq<Content>, removing: bool, server: Server)
    ensures (forall early: nat -> nat :: WellNamed(Run(cs, removing, server.(early := early)).log))
            <==> Nameable(cs, removing, server)
  {
    if Nameable(cs, removing, server) {
      forall early: nat -> nat
        ensures WellNamed(Run(cs, removing, server.(early := early)).log)
      {
        NameableIgnoresTiming(cs, removing, server, early);
        RightNames(cs, removing, server.(early := early));
      }
    }
    if forall early: nat -> nat :: WellNamed(Run(cs, removing, server.(early := early)).log) {
      var never: nat -> nat := i => 0;
      var slow := server.(early := never);
      assert WellNamed(Run(cs, removing, slow).log);
      SlowNames(cs, removing, slow);
      NameableIgnoresTiming(cs, removing, server, never);
    }
  }

  lemma NameableIgnoresTiming(cs: seq<Content>, removing: bool, server: Server, early: nat -> nat)
    ensures Nameable(cs, removing, server.(early := early)) == Nameable(cs, removing, server)
  {
    ReadIgnoresTiming(cs, removing, server, early);
    var other := server.(early := early);
    var read := Read(cs, removing, server);
    assert forall c :: Answered(c, other) == Answered(c, server);
    assert OneAnsweredBucket(read, other) == OneAnsweredBucket(read, server);
    assert NoFailures(cs, other) == NoFailures(cs, server);
  }
}
