/** What a mirror run achieves: convergence, a quiet second run, and the early-exit optimisation. */
module MirrorTheorems {
  import opened Strings
  import opened ClientUrl
  import opened Difference
  import opened DifferenceTheorems
  import opened Mirror

  // ---------- plans of runs ----------

  lemma {:induction false} RunsAreWellFormed(ctx: Context, src: seq<Entry>, tgt: seq<Entry>, only: bool, similar: bool)
    ensures forall m | m in RunOf(ctx, src, tgt, only, similar).sent :: WellFormed(m)
    decreases |src| + |tgt|
  {
    var r := RoundOf(ctx, src, tgt, only, similar);
    if !r.Continue? {
    } else {
      RoundPops(ctx, src, tgt, only, similar);
      if |r.src| + |r.tgt| < |src| + |tgt| {
        RunsAreWellFormed(ctx, r.src, r.tgt, only, similar);
      }
    }
  }

  function RunMessages(ctx: Context, src: seq<Entry>, tgt: seq<Entry>, only: bool): (ms: seq<DiffMessage>)
    ensures forall m | m in ms :: WellFormed(m)
  {
    RunsAreWellFormed(ctx, src, tgt, only, false);
    MessagesOf(ctx, src, tgt, only, false)
  }

  lemma {:induction false} PlanConcat(job: Job, ms: seq<DiffMessage>, ns: seq<DiffMessage>)
    requires forall m | m in ms + ns :: WellFormed(m)
    requires forall m | m in ms :: WellFormed(m)
    requires forall m | m in ns :: WellFormed(m)
    ensures Plan(job, ms + ns) == Plan(job, ms) + Plan(job, ns)
    decreases |ns|
  {
    hide PlanFor, WellFormed;
    if ns == [] {
      assert ms + ns == ms;
    } else {
      var last := |ns| - 1;
      assert (ms + ns)[..|ms + ns| - 1] == ms + ns[..last];
      PlanConcat(job, ms, ns[..last]);
    }
  }

  lemma {:induction false} TasksConcat(job: Job, us: seq<URLs>, vs: seq<URLs>)
    ensures TasksOf(job, us + vs) == TasksOf(job, us) + TasksOf(job, vs)
    ensures ErrorsOf(us + vs) == ErrorsOf(us) + ErrorsOf(vs)
    decreases |vs|
  {
    hide TaskFor;
    if vs == [] {
      assert us + vs == us;
    } else {
      var last := |vs| - 1;
      assert (us + vs)[..|us + vs| - 1] == us + vs[..last];
      TasksConcat(job, us, vs[..last]);
    }
  }

  // ---------- the early-exit optimisation ----------

  lemma {:induction false} OnlySecondQueuesNothing(job: Job, ms: seq<DiffMessage>)
    requires !job.opts.isRemove
    requires forall m | m in ms :: WellFormed(m)
    requires forall i | 0 <= i < |ms| :: ms[i].Diff? && ms[i].diff == InSecond
    ensures TasksOf(job, Plan(job, ms)) == [] && ErrorsOf(Plan(job, ms)) == []
    decreases |ms|
  {
    if ms == [] {
    } else {
      var last := |ms| - 1;
      OnlySecondQueuesNothing(job, ms[..last]);
      TasksConcat(job, Plan(job, ms[..last]), PlanFor(job, ms[last]));
      var u := PlanFor(job, ms[last]);
      assert u == [] || u[..0] == [];
    }
  }

  /** The source is used up, and then the target's listing fails in a way that is reported. */
  predicate FailsLate(ctx: Context, src: seq<Entry>, tgt: seq<Entry>) {
    var left := TargetLeft(ctx, src, tgt);
    left.Some? && FailureMessage(ReadOn(left.value)) != []
  }

  lemma FailurePlan(job: Job, ms: seq<DiffMessage>, outcome: Outcome)
    requires forall m | m in ms :: WellFormed(m)
    ensures forall m | m in ms + FailureMessage(outcome) :: WellFormed(m)
    ensures TasksOf(job, Plan(job, ms + FailureMessage(outcome))) == TasksOf(job, Plan(job, ms))
    ensures ErrorsOf(Plan(job, ms + FailureMessage(outcome)))
         == ErrorsOf(Plan(job, ms))
            + if FailureMessage(outcome) == [] then [] else [NotCompared(CannotList(outcome.error))]
  {
    var fs := FailureMessage(outcome);
    FailureAlone(job, outcome);
    hide TasksOf, ErrorsOf, Plan, FailureMessage;
    PlanConcat(job, ms, fs);
    TasksConcat(job, Plan(job, ms), Plan(job, fs));
    assert TasksOf(job, Plan(job, ms)) + [] == TasksOf(job, Plan(job, ms));
  }

  lemma FailureAlone(job: Job, outcome: Outcome)
    ensures forall m | m in FailureMessage(outcome) :: WellFormed(m)
    ensures var us := Plan(job, FailureMessage(outcome));
      && TasksOf(job, us) == []
      && ErrorsOf(us) == if FailureMessage(outcome) == [] then [] else [NotCompared(CannotList(outcome.error))]
  {
    if FailureMessage(outcome) != [] {
      var m := DiffFailure(CannotList(outcome.error));
      PlanOfOne(job, m);
      SinglePlan(job, PlanFor(job, m)[0]);
      hide TasksOf, ErrorsOf, Plan;
    }
  }

  lemma PlanOfOne(job: Job, m: DiffMessage)
    requires WellFormed(m)
    ensures Plan(job, [m]) == PlanFor(job, m)
  {
    hide PlanFor, WellFormed;
    assert [m][..0] == [];
  }

  lemma TargetOnlyPlan(job: Job, only: seq<DiffMessage>, full: seq<DiffMessage>)
    requires !job.opts.isRemove && only <= full && TargetOnly(full[|only|..])
    requires forall m | m in full :: WellFormed(m)
    requires forall m | m in only :: WellFormed(m)
    ensures TasksOf(job, Plan(job, only)) == TasksOf(job, Plan(job, full))
    ensures ErrorsOf(Plan(job, only)) == ErrorsOf(Plan(job, full))
  {
    var rest := full[|only|..];
    assert full == only + rest;
    OnlySecondQueuesNothing(job, rest);
    PlanConcat(job, only, rest);
    TasksConcat(job, Plan(job, only), Plan(job, rest));
  }

  /**
    Listing only as far as the source, whenever runMirror decides to, queues the same tasks in the same
    order as the full listing, on any two listings. It reports the same errors exactly if no reported
    failure of the target's listing comes after the source is used up; that failure is all it misses.
   */
  lemma EarlyExitChangesNothing(ctx: Context, job: Job, src: seq<Entry>, tgt: seq<Entry>)
    ensures
      var early := !job.opts.activeActive && !job.opts.isRemove;
      var chosen := Plan(job, RunMessages(ctx, src, tgt, SourceListingOnly(job.opts)));
      var full := Plan(job, RunMessages(ctx, src, tgt, false));
      && TasksOf(job, chosen) == TasksOf(job, full)
      && ErrorsOf(chosen) <= ErrorsOf(full) && |ErrorsOf(full)| <= |ErrorsOf(chosen)| + 1
      && (ErrorsOf(chosen) == ErrorsOf(full) <==> !(early && FailsLate(ctx, src, tgt)))
  {
    if SourceListingOnly(job.opts) {
      SourceListingIsAPrefix(ctx, src, tgt);
      var only, full := RunOf(ctx, src, tgt, true, false), RunOf(ctx, src, tgt, false, false);
      RunsAreWellFormed(ctx, src, tgt, true, false);
      RunsAreWellFormed(ctx, src, tgt, false, false);
      hide RunOf, TargetLeft, TargetOnly, Plan, TasksOf, ErrorsOf, WellFormed;
      TargetOnlyPlan(job, only.sent, full.sent);
      FailurePlan(job, only.sent, only.outcome);
      FailurePlan(job, full.sent, full.outcome);
    }
  }

  /**
    In terms of the listings: with comparable objects before the failure, the early exit misses a failing
    target exactly if the failure is one that is reported and no source key lies beyond the target's keys.
   */
  lemma MissesTheFailureExactly(
    ctx: Context, src: seq<Content>, tgt: seq<Content>, failing: seq<Entry>)
    requires Comparable(ctx, src, tgt) && failing != [] && failing[0].ListError?
    ensures FailsLate(ctx, Listing(src), Listing(tgt) + failing) <==>
            && WithinTarget(ctx, src, tgt)
            && match failing[0].error
               case ErrorResponse(code) => code in {"NoSuchBucket", "NoSuchKey", "SignatureDoesNotMatch"}
               case OtherError(_) => false
               case _ => true
  {
    UsesUpSourceFirst(ctx, src, tgt, failing);
  }

  // ---------- which tasks a plan holds ----------

  /** The tasks one message leads to. */
  function TasksFor(job: Job, m: DiffMessage): seq<Task>
    requires WellFormed(m)
  {
    TasksOf(job, PlanFor(job, m))
  }

  lemma QueuedSnoc(job: Job, ms: seq<DiffMessage>, m: DiffMessage)
    requires WellFormed(m) && forall x | x in ms :: WellFormed(x)
    ensures Queued(job, ms + [m]) == Queued(job, ms) + TasksFor(job, m)
  {
    hide PlanFor, TaskFor, WellFormed;
    assert (ms + [m])[..|ms|] == ms;
    TasksConcat(job, Plan(job, ms), PlanFor(job, m));
  }

  lemma {:induction false} QueuedFrom(job: Job, ms: seq<DiffMessage>, t: Task)
    requires forall m | m in ms :: WellFormed(m)
    ensures t in Queued(job, ms) <==> exists m | m in ms :: t in TasksFor(job, m)
    decreases |ms|
  {
    if ms == [] {
    } else {
      hide WellFormed, Queued, TasksFor;
      var rest, m := ms[..|ms| - 1], ms[|ms| - 1];
      assert ms == rest + [m];
      QueuedFrom(job, rest, t);
      QueuedSnoc(job, rest, m);
      assert forall x :: x in ms <==> x in rest || x == m;
    }
  }

  lemma SinglePlan(job: Job, u: URLs)
    ensures TasksOf(job, [u]) == TaskFor(job, u)
    ensures ErrorsOf([u]) == if u.Failure? then [u.error] else []
  {
    assert [u][..0] == [];
  }

  /** A message leads to at most one task: a copy of the object it is about, or a removal. */
  lemma TasksOfMessage(job: Job, m: DiffMessage, t: Task)
    requires WellFormed(m) && t in TasksFor(job, m)
    ensures m.Diff?
    ensures t.DoMirror? ==> m.first == Some(t.source) && t.path == job.targetPath(m.firstURL) && m.diff != InNone
    ensures t.DoMirror? && m.diff != InFirst ==> job.opts.isOverwrite || job.opts.isFake || job.opts.activeActive
    ensures t.DoRemove? ==> m.second == Some(t.content) && m.diff == InSecond && job.opts.isRemove
  {
    if PlanFor(job, m) != [] {
      SinglePlan(job, PlanFor(job, m)[0]);
    }
  }

  /** Overwriting and removing are on. */
  predicate Mirroring(opts: Options) { opts.isOverwrite && opts.isRemove && !opts.isFake }

  /** And no filter skips anything (see NoFiltersSkipNothing). */
  ghost predicate FullMirror(job: Job) {
    Mirroring(job.opts) && (forall m :: !job.excluded(m)) && (forall x :: !job.wrongAge(x))
  }

  /** With overwriting and removing on, every difference but a type mismatch leads to its task unless a filter skips it. */
  lemma TaskOfDifference(job: Job, m: DiffMessage)
    requires Mirroring(job.opts)
    requires WellFormed(m) && m.Diff?
    ensures m.diff == InFirst || m.diff == InSize || m.diff == InAASourceMTime || m.diff == InMetadata ==>
              TasksFor(job, m) == if job.excluded(m) || job.wrongAge(m.first.value) then []
                                  else [DoMirror(m.first.value, job.targetPath(m.firstURL))]
    ensures m.diff == InSecond ==> TasksFor(job, m) == if job.excluded(m) then [] else [DoRemove(m.second.value)]
  {
    if PlanFor(job, m) != [] {
      SinglePlan(job, PlanFor(job, m)[0]);
    }
  }

  // ---------- executing tasks in any order ----------

  /** No two different tasks work on one name. */
  ghost predicate Unambiguous(tasks: seq<Task>) {
    forall t, u | t in tasks && u in tasks && t.Target() == u.Target() :: t == u
  }

  /** Whatever the order, and however often: a name ends as its task says, or as it was. */
  lemma {:induction false} ExecuteAt(
    job: Job, put: (Content, string) -> Content, store: Store, tasks: seq<Task>, k: string)
    requires Unambiguous(tasks) && !job.opts.isFake
    ensures
      var after := Execute(job, put, store, tasks);
      && ((forall t | t in tasks :: t.Target() != k) ==>
            (k in after <==> k in store) && (k in after ==> after[k] == store[k]))
      && (forall t | t in tasks && t.Target() == k ::
            && (k in after <==> t.DoMirror?)
            && (t.DoMirror? ==> after[k] == put(t.source, k)))
    decreases |tasks|
  {
    if tasks == [] {
    } else {
      var last := |tasks| - 1;
      var t := tasks[last];
      ExecuteAt(job, put, store, tasks[..last], k);
      assert tasks == tasks[..last] + [t];
      if t.Target() != k {
        assert forall u | u in tasks && u.Target() == k :: u in tasks[..last];
      }
    }
  }

  /** A dry run leaves the target as it is, whatever it queues. */
  lemma {:induction false} DryRunChangesNothing(
    job: Job, put: (Content, string) -> Content, store: Store, tasks: seq<Task>)
    requires job.opts.isFake
    ensures Execute(job, put, store, tasks) == store
    decreases |tasks|
  {
    if tasks == [] {
    } else {
      DryRunChangesNothing(job, put, store, tasks[..|tasks| - 1]);
    }
  }

  // ---------- a run of mirror ----------

  /** The context compares what the job copies: `current` is where the job puts an object. */
  ghost predicate Serves(ctx: Context, job: Job) {
    forall x: Content :: ctx.current(x) == job.targetPath(x.url)
  }

  lemma UrlContextServes(
    lib: Library, sourceURL: string, targetURL: string, isMetadata: bool, opts: Options, filters: Filters)
    ensures Serves(UrlContext(lib, sourceURL, targetURL, isMetadata), UrlJob(sourceURL, targetURL, opts, filters))
  {
  }

  /** The store holds exactly the listed objects, and each is expected where it is. */
  ghost predicate Lists(ctx: Context, cs: seq<Content>, store: Store) {
    && (forall y | y in cs :: ctx.expected(y) == y.url && y.url in store && store[y.url] == y)
    && (forall k | k in store :: store[k] in cs)
    && (forall k | k in store :: store[k].url == k)
  }

  /** The tasks a run queues; it lists as far as its options ask for. */
  function PlannedTasks(ctx: Context, job: Job, src: seq<Content>, tgt: seq<Content>): seq<Task> {
    Queued(job, RunMessages(ctx, Listing(src), Listing(tgt), SourceListingOnly(job.opts)))
  }

  /** They are the tasks of the full listings. */
  lemma PlannedInFull(ctx: Context, job: Job, src: seq<Content>, tgt: seq<Content>)
    ensures PlannedTasks(ctx, job, src, tgt) == Queued(job, RunMessages(ctx, Listing(src), Listing(tgt), false))
  {
    hide RunMessages, TasksOf, Plan;
    EarlyExitChangesNothing(ctx, job, Listing(src), Listing(tgt));
  }

  /** A queued task comes from a difference. */
  lemma PlannedFrom(ctx: Context, job: Job, src: seq<Content>, tgt: seq<Content>, t: Task) returns (m: DiffMessage)
    requires Comparable(ctx, src, tgt) && t in PlannedTasks(ctx, job, src, tgt)
    ensures WellFormed(m) && t in TasksFor(job, m) && IsDifference(ctx, src, tgt, m)
  {
    ReportsExactlyTheDifferences(ctx, src, tgt);
    PlannedInFull(ctx, job, src, tgt);
    var ms := RunMessages(ctx, Listing(src), Listing(tgt), false);
    QueuedFrom(job, ms, t);
    m :| m in ms && t in TasksFor(job, m);
  }

  /** And every difference leads to its tasks. */
  lemma PlannedBy(ctx: Context, job: Job, src: seq<Content>, tgt: seq<Content>, m: DiffMessage, t: Task)
    requires Comparable(ctx, src, tgt) && IsDifference(ctx, src, tgt, m) && WellFormed(m) && t in TasksFor(job, m)
    ensures t in PlannedTasks(ctx, job, src, tgt)
  {
    ReportsExactlyTheDifferences(ctx, src, tgt);
    PlannedInFull(ctx, job, src, tgt);
    QueuedFrom(job, RunMessages(ctx, Listing(src), Listing(tgt), false), t);
  }

  /** A queued copy comes from a source object that is absent at the target or differs there. */
  lemma CopyComesFrom(ctx: Context, job: Job, src: seq<Content>, tgt: seq<Content>, t: Task)
    requires Comparable(ctx, src, tgt) && Serves(ctx, job)
    requires t in PlannedTasks(ctx, job, src, tgt) && t.DoMirror?
    ensures t.source in src && t.path == ctx.current(t.source)
    ensures InTarget(ctx, t.source, tgt) ==>
              && (job.opts.isOverwrite || job.opts.isFake || job.opts.activeActive)
              && exists y :: y in tgt && Matches(ctx, t.source, y) && HowDiffer(ctx, t.source, y) != InNone
  {
    var m := PlannedFrom(ctx, job, src, tgt, t);
    TasksOfMessage(job, m, t);
  }

  lemma RemovalComesFrom(ctx: Context, job: Job, src: seq<Content>, tgt: seq<Content>, t: Task)
    requires Comparable(ctx, src, tgt)
    requires t in PlannedTasks(ctx, job, src, tgt) && t.DoRemove?
    ensures job.opts.isRemove && t.content in tgt && !InSource(ctx, t.content, src)
  {
    var m := PlannedFrom(ctx, job, src, tgt, t);
    TasksOfMessage(job, m, t);
  }

  /** The tasks of a run work on different names, so their order does not matter. */
  lemma PlanIsUnambiguous(ctx: Context, job: Job, src: seq<Content>, tgt: seq<Content>, store: Store)
    requires Comparable(ctx, src, tgt) && Serves(ctx, job) && Lists(ctx, tgt, store)
    ensures Unambiguous(PlannedTasks(ctx, job, src, tgt))
  {
    var tasks := PlannedTasks(ctx, job, src, tgt);
    forall t, u | t in tasks && u in tasks && t.Target() == u.Target() ensures t == u {
      if t.DoMirror? {
        CopyComesFrom(ctx, job, src, tgt, t);
      } else {
        RemovalComesFrom(ctx, job, src, tgt, t);
      }
      if u.DoMirror? {
        CopyComesFrom(ctx, job, src, tgt, u);
      } else {
        RemovalComesFrom(ctx, job, src, tgt, u);
      }
      if t.DoMirror? && u.DoMirror? {
        SameKeySameObject(ctx, src, t.source, u.source);
      } else if t.DoMirror? {
        assert Matches(ctx, t.source, u.content);
        assert false;
      } else if u.DoMirror? {
        assert Matches(ctx, u.source, t.content);
        assert false;
      }
    }
  }

  // ---------- convergence ----------

  /** An upload creates an object of the source's size and kind under the name asked for. */
  ghost predicate Faithful(put: (Content, string) -> Content) {
    forall x, k :: put(x, k).size == x.size && put(x, k).regular == x.regular && put(x, k).url == k
  }

  /** Matching objects have the same name at the target, not only names with the same normal form. */
  ghost predicate SameSpelling(ctx: Context, src: seq<Content>, tgt: seq<Content>) {
    forall x, y | x in src && y in tgt && Matches(ctx, x, y) :: ctx.current(x) == y.url
  }

  /** The target holds the source's names, each with its source's size, and nothing else. */
  ghost predicate Mirrors(ctx: Context, src: seq<Content>, store: Store) {
    && (forall x | x in src :: ctx.current(x) in store && store[ctx.current(x)].size == x.size)
    && (forall k | k in store :: exists x :: x in src && ctx.current(x) == k)
  }

  /** The tasks are the planned ones, in some order. */
  ghost predicate Executes(ctx: Context, job: Job, src: seq<Content>, tgt: seq<Content>, tasks: seq<Task>) {
    forall t :: t in tasks <==> t in PlannedTasks(ctx, job, src, tgt)
  }

  /** No filter skips what a comparison says of this source object. */
  ghost predicate Passes(ctx: Context, job: Job, tgt: seq<Content>, x: Content) {
    && !job.wrongAge(x)
    && (!InTarget(ctx, x, tgt) ==> !job.excluded(OnlyFirst(x)))
    && (forall y | y in tgt && Matches(ctx, x, y) :: !job.excluded(Both(x, y, HowDiffer(ctx, x, y))))
  }

  /** Some filter skips what it says of this target object. */
  ghost predicate Skipped(ctx: Context, job: Job, src: seq<Content>, tgt: seq<Content>, y: Content) {
    && (!InSource(ctx, y, src) ==> job.excluded(OnlySecond(y)))
    && (forall x | x in src && Matches(ctx, x, y) :: !Passes(ctx, job, tgt, x))
  }

  /** The kind of a difference says on which side its object is missing. */
  lemma KindOfDifference(ctx: Context, src: seq<Content>, tgt: seq<Content>, m: DiffMessage)
    requires IsDifference(ctx, src, tgt, m)
    ensures m.Diff?
    ensures m.diff == InFirst ==> exists x :: x in src && !InTarget(ctx, x, tgt) && m == OnlyFirst(x)
    ensures m.diff == InSecond ==> exists y :: y in tgt && !InSource(ctx, y, src) && m == OnlySecond(y)
    ensures m.diff != InFirst && m.diff != InSecond ==>
      exists x, y :: x in src && y in tgt && Matches(ctx, x, y) && m == Both(x, y, HowDiffer(ctx, x, y)) && m.diff != InNone
  {
    hide HowDiffer;
    if x, y :| x in src && y in tgt && Matches(ctx, x, y) && m == Both(x, y, HowDiffer(ctx, x, y)) {
      DiffersInSomething(ctx, x, y);
    }
  }

  lemma CopyWasNeeded(ctx: Context, job: Job, src: seq<Content>, tgt: seq<Content>, t: Task, y: Content)
    requires Comparable(ctx, src, tgt) && Mirroring(job.opts)
    requires t in PlannedTasks(ctx, job, src, tgt) && t.DoMirror?
    ensures !job.wrongAge(t.source)
    ensures !InTarget(ctx, t.source, tgt) ==> !job.excluded(OnlyFirst(t.source))
    ensures y in tgt && Matches(ctx, t.source, y) ==>
      HowDiffer(ctx, t.source, y) != InNone && !job.excluded(Both(t.source, y, HowDiffer(ctx, t.source, y)))
  {
    var m := PlannedFrom(ctx, job, src, tgt, t);
    KindOfDifference(ctx, src, tgt, m);
    TasksOfMessage(job, m, t);
    TaskOfDifference(job, m);
    hide PlannedTasks, TasksFor, HowDiffer, SourceSorted, TargetSorted, IsDifference, WellFormed;
    if m.diff != InFirst {
      var x', y' :| x' in src && y' in tgt && Matches(ctx, x', y') && m == Both(x', y', HowDiffer(ctx, x', y'));
      assert x' == t.source && InTarget(ctx, x', tgt);
      if y in tgt && Matches(ctx, t.source, y) {
        SameKeySameTarget(ctx, tgt, y, y');
      }
    }
  }

  lemma NeededIsCopied(ctx: Context, job: Job, src: seq<Content>, tgt: seq<Content>, x: Content)
    requires Comparable(ctx, src, tgt) && Serves(ctx, job) && Mirroring(job.opts) && x in src
    requires Passes(ctx, job, tgt, x)
    requires forall y | y in tgt && Matches(ctx, x, y) :: HowDiffer(ctx, x, y) != InNone
    ensures DoMirror(x, ctx.current(x)) in PlannedTasks(ctx, job, src, tgt)
  {
    hide PlannedTasks, TasksFor, HowDiffer, SourceSorted, TargetSorted;
    var m := OnlyFirst(x);
    if InTarget(ctx, x, tgt) {
      var y :| y in tgt && Matches(ctx, x, y);
      m := Both(x, y, HowDiffer(ctx, x, y));
      DiffersInSomething(ctx, x, y);
    }
    assert IsDifference(ctx, src, tgt, m);
    TaskOfDifference(job, m);
    PlannedBy(ctx, job, src, tgt, m, DoMirror(x, ctx.current(x)));
  }

  lemma DiffersInSomething(ctx: Context, x: Content, y: Content)
    ensures var d := HowDiffer(ctx, x, y);
      d == InNone || d == InSize || d == InAASourceMTime || d == InMetadata
  {
  }

  /** With overwriting and removing on, exactly the absent and the differing source objects which pass are copied. */
  lemma CopiedWhenNeeded(ctx: Context, job: Job, src: seq<Content>, tgt: seq<Content>, x: Content)
    requires Comparable(ctx, src, tgt) && Serves(ctx, job) && Mirroring(job.opts) && x in src
    ensures DoMirror(x, ctx.current(x)) in PlannedTasks(ctx, job, src, tgt) <==>
            && Passes(ctx, job, tgt, x)
            && (forall y | y in tgt && Matches(ctx, x, y) :: HowDiffer(ctx, x, y) != InNone)
  {
    hide Comparable, PlannedTasks, HowDiffer;
    var t := DoMirror(x, ctx.current(x));
    if t in PlannedTasks(ctx, job, src, tgt) {
      CopyWasNeeded(ctx, job, src, tgt, t, x);
      forall y | y in tgt && Matches(ctx, x, y)
        ensures HowDiffer(ctx, x, y) != InNone && !job.excluded(Both(x, y, HowDiffer(ctx, x, y)))
      {
        CopyWasNeeded(ctx, job, src, tgt, t, y);
      }
    } else if Passes(ctx, job, tgt, x) && forall y | y in tgt && Matches(ctx, x, y) :: HowDiffer(ctx, x, y) != InNone {
      NeededIsCopied(ctx, job, src, tgt, x);
    }
  }

  lemma RemovedWhenExtra(ctx: Context, job: Job, src: seq<Content>, tgt: seq<Content>, y: Content)
    requires Comparable(ctx, src, tgt) && Mirroring(job.opts) && y in tgt
    ensures DoRemove(y) in PlannedTasks(ctx, job, src, tgt) <==> !InSource(ctx, y, src) && !job.excluded(OnlySecond(y))
  {
    hide PlannedTasks, TasksFor, HowDiffer, SourceSorted, TargetSorted;
    TaskOfDifference(job, OnlySecond(y));
    if DoRemove(y) in PlannedTasks(ctx, job, src, tgt) {
      var m := PlannedFrom(ctx, job, src, tgt, DoRemove(y));
      TasksOfMessage(job, m, DoRemove(y));
      KindOfDifference(ctx, src, tgt, m);
      assert m == OnlySecond(y);
    } else if !InSource(ctx, y, src) && !job.excluded(OnlySecond(y)) {
      assert IsDifference(ctx, src, tgt, OnlySecond(y));
      PlannedBy(ctx, job, src, tgt, OnlySecond(y), DoRemove(y));
    }
  }

  /** What the tasks leave under the name a source object belongs to. */
  lemma AfterAtSource(
    ctx: Context, job: Job, src: seq<Content>, tgt: seq<Content>, store: Store,
    put: (Content, string) -> Content, tasks: seq<Task>, x: Content)
    requires Comparable(ctx, src, tgt) && Serves(ctx, job) && Lists(ctx, tgt, store) && Mirroring(job.opts)
    requires Executes(ctx, job, src, tgt, tasks) && x in src
    ensures
      var k, after := ctx.current(x), Execute(job, put, store, tasks);
      && (DoMirror(x, k) in tasks ==> k in after && after[k] == put(x, k))
      && (DoMirror(x, k) !in tasks ==> (k in after <==> k in store) && (k in after ==> after[k] == store[k]))
  {
    PlanIsUnambiguous(ctx, job, src, tgt, store);
    var k := ctx.current(x);
    ExecuteAt(job, put, store, tasks, k);
    if DoMirror(x, k) !in tasks {
      forall t | t in tasks ensures t.Target() != k {
        if t.Target() == k {
          if t.DoMirror? {
            CopyComesFrom(ctx, job, src, tgt, t);
            SameKeySameObject(ctx, src, x, t.source);
          } else {
            RemovalComesFrom(ctx, job, src, tgt, t);
            assert Matches(ctx, x, t.content);
          }
        }
      }
    }
  }

  /** What it leaves under a name the target had and no source object belongs to. */
  lemma AfterAtTarget(
    ctx: Context, job: Job, src: seq<Content>, tgt: seq<Content>, store: Store,
    put: (Content, string) -> Content, tasks: seq<Task>, k: string)
    requires Comparable(ctx, src, tgt) && Serves(ctx, job) && Lists(ctx, tgt, store) && Mirroring(job.opts)
    requires Executes(ctx, job, src, tgt, tasks)
    requires forall x | x in src :: ctx.current(x) != k
    ensures var after := Execute(job, put, store, tasks);
      && (k in after <==> k in store && (InSource(ctx, store[k], src) || job.excluded(OnlySecond(store[k]))))
      && (k in after ==> after[k] == store[k])
  {
    PlanIsUnambiguous(ctx, job, src, tgt, store);
    ExecuteAt(job, put, store, tasks, k);
    forall t | t in tasks && t.Target() == k
      ensures t.DoRemove? && t.content in tgt && t == DoRemove(store[k])
    {
      if t.DoMirror? {
        CopyComesFrom(ctx, job, src, tgt, t);
      } else {
        RemovalComesFrom(ctx, job, src, tgt, t);
      }
    }
    if k in store {
      RemovedWhenExtra(ctx, job, src, tgt, store[k]);
      assert DoRemove(store[k]).Target() == k;
    }
  }

  /**
    The target holds, under the source's names, the objects which pass the filters, each with its
    source's size, and untouched whatever a filter skips; and nothing else.
   */
  ghost predicate MirrorsWhatPasses(
    ctx: Context, job: Job, src: seq<Content>, tgt: seq<Content>, store: Store, after: Store)
  {
    && (forall x | x in src && Passes(ctx, job, tgt, x) ::
          ctx.current(x) in after && after[ctx.current(x)].size == x.size)
    && (forall k | k in store && Skipped(ctx, job, src, tgt, store[k]) :: k in after && after[k] == store[k])
    && (forall k | k in after ::
          || (exists x :: x in src && Passes(ctx, job, tgt, x) && ctx.current(x) == k)
          || (k in store && Skipped(ctx, job, src, tgt, store[k])))
  }

  /** Matching objects which pass the filters have the same name at the target. */
  ghost predicate SameSpellingWherePassing(ctx: Context, job: Job, src: seq<Content>, tgt: seq<Content>) {
    forall x, y | x in src && y in tgt && Matches(ctx, x, y) && Passes(ctx, job, tgt, x) :: ctx.current(x) == y.url
  }

  lemma PassingIsMirrored(
    ctx: Context, job: Job, src: seq<Content>, tgt: seq<Content>, store: Store,
    put: (Content, string) -> Content, tasks: seq<Task>, x: Content)
    requires Comparable(ctx, src, tgt) && Serves(ctx, job) && Lists(ctx, tgt, store) && Mirroring(job.opts)
    requires Faithful(put) && Executes(ctx, job, src, tgt, tasks) && SameSpellingWherePassing(ctx, job, src, tgt)
    requires x in src && Passes(ctx, job, tgt, x)
    ensures var k, after := ctx.current(x), Execute(job, put, store, tasks);
      k in after && after[k].size == x.size
  {
    hide PlannedTasks, Execute;
    AfterAtSource(ctx, job, src, tgt, store, put, tasks, x);
    CopiedWhenNeeded(ctx, job, src, tgt, x);
    hide Passes;
    if DoMirror(x, ctx.current(x)) !in tasks {
      var y :| y in tgt && Matches(ctx, x, y) && HowDiffer(ctx, x, y) == InNone;
      assert y == store[ctx.current(x)];
    }
  }

  lemma MatchedIsNotSkipped(
    ctx: Context, job: Job, src: seq<Content>, tgt: seq<Content>, store: Store, x: Content, y: Content)
    requires Lists(ctx, tgt, store) && x in src && y in tgt && Matches(ctx, x, y) && Passes(ctx, job, tgt, x)
    ensures y.url in store && store[y.url] == y && !Skipped(ctx, job, src, tgt, y)
  {
    hide Passes;
  }

  lemma SkippedStays(
    ctx: Context, job: Job, src: seq<Content>, tgt: seq<Content>, store: Store,
    put: (Content, string) -> Content, tasks: seq<Task>, k: string)
    requires Comparable(ctx, src, tgt) && Serves(ctx, job) && Lists(ctx, tgt, store) && Mirroring(job.opts)
    requires Executes(ctx, job, src, tgt, tasks) && k in store && Skipped(ctx, job, src, tgt, store[k])
    ensures k in Execute(job, put, store, tasks) && Execute(job, put, store, tasks)[k] == store[k]
  {
    if x :| x in src && ctx.current(x) == k {
      assert Matches(ctx, x, store[k]);
      AfterAtSource(ctx, job, src, tgt, store, put, tasks, x);
      CopiedWhenNeeded(ctx, job, src, tgt, x);
    } else {
      AfterAtTarget(ctx, job, src, tgt, store, put, tasks, k);
    }
  }

  lemma RestIsSkipped(
    ctx: Context, job: Job, src: seq<Content>, tgt: seq<Content>, store: Store,
    put: (Content, string) -> Content, tasks: seq<Task>, k: string)
    requires Comparable(ctx, src, tgt) && Serves(ctx, job) && Lists(ctx, tgt, store) && Mirroring(job.opts)
    requires Executes(ctx, job, src, tgt, tasks) && SameSpellingWherePassing(ctx, job, src, tgt)
    requires k in Execute(job, put, store, tasks)
    requires forall x | x in src && Passes(ctx, job, tgt, x) :: ctx.current(x) != k
    ensures k in store && Skipped(ctx, job, src, tgt, store[k])
  {
    if x :| x in src && ctx.current(x) == k {
      AfterAtSource(ctx, job, src, tgt, store, put, tasks, x);
      CopiedWhenNeeded(ctx, job, src, tgt, x);
      assert Matches(ctx, x, store[k]);
    } else {
      AfterAtTarget(ctx, job, src, tgt, store, put, tasks, k);
    }
  }

  /**
    With overwriting and removing on, and any filters, executing the plan in any order makes the target
    mirror what passes and keep what is skipped, exactly when matching objects which pass are spelled
    alike: an object whose name only normalises to the source's name is neither replaced nor removed.
   */
  lemma MirrorConverges(
    ctx: Context, job: Job, src: seq<Content>, tgt: seq<Content>, store: Store,
    put: (Content, string) -> Content, tasks: seq<Task>)
    requires Comparable(ctx, src, tgt) && Serves(ctx, job) && Lists(ctx, tgt, store) && Mirroring(job.opts)
    requires Faithful(put) && Executes(ctx, job, src, tgt, tasks)
    ensures MirrorsWhatPasses(ctx, job, src, tgt, store, Execute(job, put, store, tasks)) <==>
            SameSpellingWherePassing(ctx, job, src, tgt)
  {
    var after := Execute(job, put, store, tasks);
    hide Execute, Comparable, Serves, Lists, Faithful, Executes, Passes, Skipped;
    if SameSpellingWherePassing(ctx, job, src, tgt) {
      forall x | x in src && Passes(ctx, job, tgt, x)
        ensures ctx.current(x) in after && after[ctx.current(x)].size == x.size
      {
        PassingIsMirrored(ctx, job, src, tgt, store, put, tasks, x);
      }
      forall k | k in store && Skipped(ctx, job, src, tgt, store[k])
        ensures k in after && after[k] == store[k]
      {
        SkippedStays(ctx, job, src, tgt, store, put, tasks, k);
      }
      forall k | k in after && !exists x :: x in src && Passes(ctx, job, tgt, x) && ctx.current(x) == k
        ensures k in store && Skipped(ctx, job, src, tgt, store[k])
      {
        RestIsSkipped(ctx, job, src, tgt, store, put, tasks, k);
      }
    } else {
      var x, y :| x in src && y in tgt && Matches(ctx, x, y) && Passes(ctx, job, tgt, x) && ctx.current(x) != y.url;
      OtherSpellingStays(ctx, job, src, tgt, store, put, tasks, x, y);
      MatchedIsNotSkipped(ctx, job, src, tgt, store, x, y);
    }
  }

  /** An object under another spelling stays, though it is neither a source name nor skipped. */
  lemma OtherSpellingStays(
    ctx: Context, job: Job, src: seq<Content>, tgt: seq<Content>, store: Store,
    put: (Content, string) -> Content, tasks: seq<Task>, x: Content, y: Content)
    requires Comparable(ctx, src, tgt) && Serves(ctx, job) && Lists(ctx, tgt, store) && Mirroring(job.opts)
    requires Executes(ctx, job, src, tgt, tasks)
    requires x in src && y in tgt && Matches(ctx, x, y) && ctx.current(x) != y.url
    ensures y.url in Execute(job, put, store, tasks)
    ensures forall x' | x' in src :: ctx.current(x') != y.url
  {
    forall x' | x' in src
      ensures ctx.current(x') != y.url
    {
      if ctx.current(x') == y.url {
        SameKeySameObject(ctx, src, x, x');
      }
    }
    AfterAtTarget(ctx, job, src, tgt, store, put, tasks, y.url);
  }

  lemma EverythingPasses(ctx: Context, job: Job, src: seq<Content>, tgt: seq<Content>)
    requires FullMirror(job)
    ensures forall x :: Passes(ctx, job, tgt, x)
    ensures forall y :: !Skipped(ctx, job, src, tgt, y)
  {
    hide HowDiffer, InTarget;
  }

  /** Without filters, mirroring what passes is mirroring the source. */
  lemma PassingIsAll(ctx: Context, job: Job, src: seq<Content>, tgt: seq<Content>, store: Store, after: Store)
    requires FullMirror(job)
    ensures Mirroring(job.opts)
    ensures MirrorsWhatPasses(ctx, job, src, tgt, store, after) <==> Mirrors(ctx, src, after)
    ensures SameSpellingWherePassing(ctx, job, src, tgt) <==> SameSpelling(ctx, src, tgt)
  {
    EverythingPasses(ctx, job, src, tgt);
    hide Passes, Skipped, Matches;
  }

  /** Without filters everything passes: the target mirrors the source exactly when matching objects are spelled alike. */
  lemma FullMirrorConverges(
    ctx: Context, job: Job, src: seq<Content>, tgt: seq<Content>, store: Store,
    put: (Content, string) -> Content, tasks: seq<Task>)
    requires Comparable(ctx, src, tgt) && Serves(ctx, job) && Lists(ctx, tgt, store) && FullMirror(job)
    requires Faithful(put) && Executes(ctx, job, src, tgt, tasks)
    ensures Mirrors(ctx, src, Execute(job, put, store, tasks)) <==> SameSpelling(ctx, src, tgt)
  {
    hide *;
    PassingIsAll(ctx, job, src, tgt, store, Execute(job, put, store, tasks));
    MirrorConverges(ctx, job, src, tgt, store, put, tasks);
  }

  // ---------- a second run ----------

  /** What is under a name after the run was put there by a copy of a source object, or was there and is no task's. */
  ghost predicate LeftBy(
    ctx: Context, src: seq<Content>, tgt: seq<Content>, put: (Content, string) -> Content, tasks: seq<Task>,
    k: string, y: Content)
  {
    || (exists x :: x in src && DoMirror(x, k) in tasks && ctx.current(x) == k && y == put(x, k))
    || (y in tgt && y.url == k && forall t | t in tasks :: t.Target() != k)
  }

  lemma EverythingIsLeft(
    ctx: Context, job: Job, src: seq<Content>, tgt: seq<Content>, store: Store,
    put: (Content, string) -> Content, tasks: seq<Task>, k: string)
    requires Comparable(ctx, src, tgt) && Serves(ctx, job) && Lists(ctx, tgt, store) && !job.opts.isFake
    requires Executes(ctx, job, src, tgt, tasks) && k in Execute(job, put, store, tasks)
    ensures LeftBy(ctx, src, tgt, put, tasks, k, Execute(job, put, store, tasks)[k])
  {
    PlanIsUnambiguous(ctx, job, src, tgt, store);
    ExecuteAt(job, put, store, tasks, k);
    hide Execute, PlannedTasks, Comparable, Serves;
    if t :| t in tasks && t.Target() == k {
      CopyComesFrom(ctx, job, src, tgt, t);
    }
  }

  /** A copy is there afterwards. */
  lemma CopiesAreLeft(
    ctx: Context, job: Job, src: seq<Content>, tgt: seq<Content>, store: Store,
    put: (Content, string) -> Content, tasks: seq<Task>, x: Content)
    requires Comparable(ctx, src, tgt) && Serves(ctx, job) && Lists(ctx, tgt, store) && !job.opts.isFake
    requires Executes(ctx, job, src, tgt, tasks) && DoMirror(x, ctx.current(x)) in tasks
    ensures var k, after := ctx.current(x), Execute(job, put, store, tasks);
      k in after && after[k] == put(x, k)
  {
    PlanIsUnambiguous(ctx, job, src, tgt, store);
    ExecuteAt(job, put, store, tasks, ctx.current(x));
    hide Execute, PlannedTasks;
    assert DoMirror(x, ctx.current(x)).Target() == ctx.current(x);
  }

  /** A target object goes, or is written over, only by a task. */
  lemma TargetsAreLeft(
    ctx: Context, job: Job, src: seq<Content>, tgt: seq<Content>, store: Store,
    put: (Content, string) -> Content, tasks: seq<Task>, y: Content)
    requires Comparable(ctx, src, tgt) && Serves(ctx, job) && Lists(ctx, tgt, store) && !job.opts.isFake
    requires Executes(ctx, job, src, tgt, tasks) && y in tgt && DoRemove(y) !in tasks
    ensures y.url in Execute(job, put, store, tasks)
  {
    PlanIsUnambiguous(ctx, job, src, tgt, store);
    ExecuteAt(job, put, store, tasks, y.url);
    hide Execute, PlannedTasks, Serves;
    if t :| t in tasks && t.Target() == y.url {
      if t.DoRemove? {
        RemovalComesFrom(ctx, job, src, tgt, t);
      }
    }
  }

  /** What the first run's copy of an object leads to when it is compared again: nothing. */
  ghost predicate Settled(ctx: Context, job: Job, put: (Content, string) -> Content, x: Content) {
    var copy := put(x, ctx.current(x));
    HowDiffer(ctx, x, copy) == InNone || TasksFor(job, Both(x, copy, HowDiffer(ctx, x, copy))) == []
  }

  /** A listing of what the run left, in order and with valid names. */
  ghost predicate ListsAgain(ctx: Context, again: seq<Content>, after: Store) {
    Lists(ctx, again, after) && TargetSorted(ctx, again) && forall y | y in again :: ctx.validTarget(y)
  }

  /** Which object of the second listing a source object matches: its copy, or the one it matched before. */
  lemma MatchesAgain(
    ctx: Context, job: Job, src: seq<Content>, tgt: seq<Content>, store: Store,
    put: (Content, string) -> Content, tasks: seq<Task>, again: seq<Content>, x: Content, y: Content)
    requires Comparable(ctx, src, tgt) && Serves(ctx, job) && Lists(ctx, tgt, store) && !job.opts.isFake
    requires Faithful(put) && Executes(ctx, job, src, tgt, tasks)
    requires ListsAgain(ctx, again, Execute(job, put, store, tasks))
    requires x in src && y in again && Matches(ctx, x, y)
    ensures if DoMirror(x, ctx.current(x)) in tasks then y == put(x, ctx.current(x)) else y in tgt
    ensures x.regular == y.regular
  {
    var after := Execute(job, put, store, tasks);
    EverythingIsLeft(ctx, job, src, tgt, store, put, tasks, y.url);
    if DoMirror(x, ctx.current(x)) in tasks {
      CopiesAreLeft(ctx, job, src, tgt, store, put, tasks, x);
      hide Execute, PlannedTasks;
      assert Matches(ctx, x, after[ctx.current(x)]);
      SameKeySameTarget(ctx, again, y, after[ctx.current(x)]);
    } else if x' :| x' in src && DoMirror(x', y.url) in tasks && ctx.current(x') == y.url {
      SameKeySameObject(ctx, src, x, x');
      assert false;
    }
  }

  /** Whatever the target holds and the source does not, it held before. */
  lemma ExtraAgain(
    ctx: Context, job: Job, src: seq<Content>, tgt: seq<Content>, store: Store,
    put: (Content, string) -> Content, tasks: seq<Task>, again: seq<Content>, y: Content)
    requires Comparable(ctx, src, tgt) && Serves(ctx, job) && Lists(ctx, tgt, store) && !job.opts.isFake
    requires Executes(ctx, job, src, tgt, tasks)
    requires ListsAgain(ctx, again, Execute(job, put, store, tasks))
    requires y in again && !InSource(ctx, y, src)
    ensures y in tgt && DoRemove(y) !in tasks
  {
    EverythingIsLeft(ctx, job, src, tgt, store, put, tasks, y.url);
    hide Execute, PlannedTasks, Comparable;
    assert forall x | ctx.current(x) == y.url :: Matches(ctx, x, y);
    assert DoRemove(y).Target() == y.url;
  }

  lemma CopyIsListed(
    ctx: Context, job: Job, src: seq<Content>, tgt: seq<Content>, store: Store,
    put: (Content, string) -> Content, tasks: seq<Task>, again: seq<Content>, x: Content)
    requires Comparable(ctx, src, tgt) && Serves(ctx, job) && Lists(ctx, tgt, store) && !job.opts.isFake
    requires Executes(ctx, job, src, tgt, tasks) && DoMirror(x, ctx.current(x)) in tasks
    requires ListsAgain(ctx, again, Execute(job, put, store, tasks))
    ensures InTarget(ctx, x, again)
  {
    var after := Execute(job, put, store, tasks);
    CopiesAreLeft(ctx, job, src, tgt, store, put, tasks, x);
    hide Execute, PlannedTasks, Comparable;
    assert Matches(ctx, x, after[ctx.current(x)]);
  }

  lemma MatchIsListed(
    ctx: Context, job: Job, src: seq<Content>, tgt: seq<Content>, store: Store,
    put: (Content, string) -> Content, tasks: seq<Task>, again: seq<Content>, x: Content)
    requires Comparable(ctx, src, tgt) && Serves(ctx, job) && Lists(ctx, tgt, store) && !job.opts.isFake
    requires Executes(ctx, job, src, tgt, tasks) && x in src && InTarget(ctx, x, tgt)
    requires ListsAgain(ctx, again, Execute(job, put, store, tasks))
    ensures InTarget(ctx, x, again)
  {
    var after := Execute(job, put, store, tasks);
    var y :| y in tgt && Matches(ctx, x, y);
    assert DoRemove(y) !in tasks by {
      if DoRemove(y) in tasks {
        RemovalComesFrom(ctx, job, src, tgt, DoRemove(y));
      }
    }
    TargetsAreLeft(ctx, job, src, tgt, store, put, tasks, y);
    hide Execute, PlannedTasks, Comparable;
    assert Matches(ctx, x, after[y.url]);
  }

  // ---------- the tasks of the second run ----------

  /** A task of a difference which is still there was queued by the first run. */
  lemma WasQueued(
    ctx: Context, job: Job, src: seq<Content>, tgt: seq<Content>, tasks: seq<Task>, m: DiffMessage)
    requires Comparable(ctx, src, tgt) && Executes(ctx, job, src, tgt, tasks)
    requires IsDifference(ctx, src, tgt, m) && WellFormed(m)
    ensures forall t | t in TasksFor(job, m) :: t in tasks
  {
    hide Comparable, PlannedTasks, TasksFor, IsDifference, WellFormed;
    forall t | t in TasksFor(job, m) ensures t in tasks {
      PlannedBy(ctx, job, src, tgt, m, t);
    }
  }

  lemma MissingHasNoTask(
    ctx: Context, job: Job, src: seq<Content>, tgt: seq<Content>, store: Store,
    put: (Content, string) -> Content, tasks: seq<Task>, again: seq<Content>, x: Content)
    requires Comparable(ctx, src, tgt) && Serves(ctx, job) && Lists(ctx, tgt, store) && !job.opts.isFake
    requires Executes(ctx, job, src, tgt, tasks)
    requires ListsAgain(ctx, again, Execute(job, put, store, tasks))
    requires x in src && !InTarget(ctx, x, again)
    ensures TasksFor(job, OnlyFirst(x)) == []
  {
    var m := OnlyFirst(x);
    hide TasksFor, Comparable, Execute, PlannedTasks, ListsAgain, InTarget, Executes, Lists;
    if TasksFor(job, m) != [] {
      var t := TasksFor(job, m)[0];
      TasksOfMessage(job, m, t);
      assert t == DoMirror(x, ctx.current(x));
      if InTarget(ctx, x, tgt) {
        MatchIsListed(ctx, job, src, tgt, store, put, tasks, again, x);
      } else {
        WasQueued(ctx, job, src, tgt, tasks, m);
        CopyIsListed(ctx, job, src, tgt, store, put, tasks, again, x);
      }
    }
  }

  lemma ExtraHasNoTask(
    ctx: Context, job: Job, src: seq<Content>, tgt: seq<Content>, store: Store,
    put: (Content, string) -> Content, tasks: seq<Task>, again: seq<Content>, y: Content)
    requires Comparable(ctx, src, tgt) && Serves(ctx, job) && Lists(ctx, tgt, store) && !job.opts.isFake
    requires Executes(ctx, job, src, tgt, tasks)
    requires ListsAgain(ctx, again, Execute(job, put, store, tasks))
    requires y in again && !InSource(ctx, y, src)
    ensures TasksFor(job, OnlySecond(y)) == []
  {
    var m := OnlySecond(y);
    ExtraAgain(ctx, job, src, tgt, store, put, tasks, again, y);
    hide TasksFor, Comparable, Execute, PlannedTasks, ListsAgain, InSource, Executes, Lists;
    if TasksFor(job, m) != [] {
      var t := TasksFor(job, m)[0];
      TasksOfMessage(job, m, t);
      assert t == DoRemove(y);
      WasQueued(ctx, job, src, tgt, tasks, m);
    }
  }

  lemma UncopiedHasNoTask(
    ctx: Context, job: Job, src: seq<Content>, tgt: seq<Content>, tasks: seq<Task>, x: Content, y: Content)
    requires Comparable(ctx, src, tgt) && Serves(ctx, job) && Executes(ctx, job, src, tgt, tasks)
    requires x in src && y in tgt && Matches(ctx, x, y) && HowDiffer(ctx, x, y) != InNone
    requires DoMirror(x, ctx.current(x)) !in tasks
    ensures TasksFor(job, Both(x, y, HowDiffer(ctx, x, y))) == []
  {
    var m := Both(x, y, HowDiffer(ctx, x, y));
    DiffersInSomething(ctx, x, y);
    hide TasksFor, Comparable, PlannedTasks, HowDiffer, Executes, Matches;
    if TasksFor(job, m) != [] {
      var t := TasksFor(job, m)[0];
      TasksOfMessage(job, m, t);
      assert t == DoMirror(x, ctx.current(x));
      WasQueued(ctx, job, src, tgt, tasks, m);
    }
  }

  lemma ComparableAgain(
    ctx: Context, job: Job, src: seq<Content>, tgt: seq<Content>, store: Store,
    put: (Content, string) -> Content, tasks: seq<Task>, again: seq<Content>)
    requires Comparable(ctx, src, tgt) && Serves(ctx, job) && Lists(ctx, tgt, store) && !job.opts.isFake
    requires Faithful(put) && Executes(ctx, job, src, tgt, tasks)
    requires ListsAgain(ctx, again, Execute(job, put, store, tasks))
    ensures Comparable(ctx, src, again)
  {
    forall x, y | x in src && y in again && Matches(ctx, x, y)
      ensures x.regular == y.regular
    {
      MatchesAgain(ctx, job, src, tgt, store, put, tasks, again, x, y);
    }
    hide Less, Execute, Lists;
  }

  /** Whatever the second run has to do, it has to do with an object the first one copied. */
  lemma OnlyCopiesHaveTasks(
    ctx: Context, job: Job, src: seq<Content>, tgt: seq<Content>, store: Store,
    put: (Content, string) -> Content, tasks: seq<Task>, again: seq<Content>, m: DiffMessage)
    requires Comparable(ctx, src, tgt) && Serves(ctx, job) && Lists(ctx, tgt, store) && !job.opts.isFake
    requires Faithful(put) && Executes(ctx, job, src, tgt, tasks)
    requires ListsAgain(ctx, again, Execute(job, put, store, tasks))
    requires IsDifference(ctx, src, again, m) && WellFormed(m) && TasksFor(job, m) != []
    ensures exists x :: x in src && DoMirror(x, ctx.current(x)) in tasks && !Settled(ctx, job, put, x)
  {
    KindOfDifference(ctx, src, again, m);
    hide TasksFor, Comparable, Execute, PlannedTasks, HowDiffer, ListsAgain, WellFormed, IsDifference, Serves, Lists,
      InTarget, InSource, Executes, Matches;
    if m.diff == InFirst {
      var x :| x in src && !InTarget(ctx, x, again) && m == OnlyFirst(x);
      MissingHasNoTask(ctx, job, src, tgt, store, put, tasks, again, x);
    } else if m.diff == InSecond {
      var y :| y in again && !InSource(ctx, y, src) && m == OnlySecond(y);
      ExtraHasNoTask(ctx, job, src, tgt, store, put, tasks, again, y);
    } else {
      var x, y :| x in src && y in again && Matches(ctx, x, y) && m == Both(x, y, HowDiffer(ctx, x, y));
      MatchesAgain(ctx, job, src, tgt, store, put, tasks, again, x, y);
      if DoMirror(x, ctx.current(x)) !in tasks {
        UncopiedHasNoTask(ctx, job, src, tgt, tasks, x, y);
      }
    }
  }

  lemma UnsettledHasTask(
    ctx: Context, job: Job, src: seq<Content>, tgt: seq<Content>, store: Store,
    put: (Content, string) -> Content, tasks: seq<Task>, again: seq<Content>, x: Content)
    requires Comparable(ctx, src, tgt) && Serves(ctx, job) && Lists(ctx, tgt, store) && !job.opts.isFake
    requires Executes(ctx, job, src, tgt, tasks) && Comparable(ctx, src, again)
    requires ListsAgain(ctx, again, Execute(job, put, store, tasks))
    requires x in src && DoMirror(x, ctx.current(x)) in tasks && !Settled(ctx, job, put, x)
    ensures PlannedTasks(ctx, job, src, again) != []
  {
    var k, after := ctx.current(x), Execute(job, put, store, tasks);
    CopiesAreLeft(ctx, job, src, tgt, store, put, tasks, x);
    var y := put(x, k);
    var m := Both(x, y, HowDiffer(ctx, x, y));
    hide Execute, PlannedTasks, Comparable, HowDiffer, TasksFor;
    assert y in again && Matches(ctx, x, y);
    assert IsDifference(ctx, src, again, m);
    DiffersInSomething(ctx, x, y);
    PlannedBy(ctx, job, src, again, m, TasksFor(job, m)[0]);
  }

  /**
    After the tasks of a run were executed, a second run over the new target plans nothing exactly if
    each copy the first one made is settled: it does not differ from its source for the comparison, or
    the difference leads to no task. This holds under any options but a dry run, and any filters.
   */
  lemma SecondRunPlansNothing(
    ctx: Context, job: Job, src: seq<Content>, tgt: seq<Content>, store: Store,
    put: (Content, string) -> Content, tasks: seq<Task>, again: seq<Content>)
    requires Comparable(ctx, src, tgt) && Serves(ctx, job) && Lists(ctx, tgt, store) && !job.opts.isFake
    requires Faithful(put) && Executes(ctx, job, src, tgt, tasks)
    requires ListsAgain(ctx, again, Execute(job, put, store, tasks))
    ensures PlannedTasks(ctx, job, src, again) == [] <==>
            forall x | x in src && DoMirror(x, ctx.current(x)) in tasks :: Settled(ctx, job, put, x)
  {
    ComparableAgain(ctx, job, src, tgt, store, put, tasks, again);
    hide *;
    var planned := PlannedTasks(ctx, job, src, again);
    if planned != [] {
      var m := PlannedFrom(ctx, job, src, again, planned[0]);
      OnlyCopiesHaveTasks(ctx, job, src, tgt, store, put, tasks, again, m);
    }
    if x :| x in src && DoMirror(x, ctx.current(x)) in tasks && !Settled(ctx, job, put, x) {
      UnsettledHasTask(ctx, job, src, tgt, store, put, tasks, again, x);
    }
  }

  /** An upload which is not older than its source is settled, as long as metadata are not compared. */
  lemma CopyIsSettled(ctx: Context, job: Job, put: (Content, string) -> Content, x: Content)
    requires Faithful(put) && !ctx.isMetadata && !ModTimeUpdated(ctx.lib, x, put(x, ctx.current(x)))
    ensures Settled(ctx, job, put, x)
  {
    assert HowDiffer(ctx, x, put(x, ctx.current(x))) == InNone;
  }

  /**
    After a full mirror the second comparison does not even find a difference, if no uploaded object
    counts as older than its source (metadata not compared).
   */
  lemma SecondRunIsQuiet(
    ctx: Context, job: Job, src: seq<Content>, tgt: seq<Content>, store: Store,
    put: (Content, string) -> Content, tasks: seq<Task>, again: seq<Content>)
    requires Comparable(ctx, src, tgt) && Serves(ctx, job) && Lists(ctx, tgt, store) && FullMirror(job)
    requires Faithful(put) && Executes(ctx, job, src, tgt, tasks)
    requires forall x | x in src :: !ModTimeUpdated(ctx.lib, x, put(x, ctx.current(x)))
    requires !ctx.isMetadata && ListsAgain(ctx, again, Execute(job, put, store, tasks))
    ensures Sent(ctx, src, again) == Run([], Completed)
  {
    forall x | x in src ensures Settled(ctx, job, put, x) {
      CopyIsSettled(ctx, job, put, x);
    }
    SecondRunPlansNothing(ctx, job, src, tgt, store, put, tasks, again);
    ComparableAgain(ctx, job, src, tgt, store, put, tasks, again);
    ReportsExactlyTheDifferences(ctx, src, again);
    hide Sent, PlannedTasks, TasksFor, Comparable, Lists, Executes, ListsAgain, IsDifference, HowDiffer;
    var sent := Sent(ctx, src, again).sent;
    if sent != [] {
      var m := sent[0];
      assert IsDifference(ctx, src, again, m);
      EveryDifferenceHasATask(ctx, job, src, again, m);
      PlannedBy(ctx, job, src, again, m, TasksFor(job, m)[0]);
    }
  }

  lemma EveryDifferenceHasATask(ctx: Context, job: Job, src: seq<Content>, tgt: seq<Content>, m: DiffMessage)
    requires FullMirror(job) && IsDifference(ctx, src, tgt, m)
    ensures WellFormed(m) && TasksFor(job, m) != []
  {
    KindOfDifference(ctx, src, tgt, m);
    if x, y :| x in src && y in tgt && m == Both(x, y, HowDiffer(ctx, x, y)) {
      DiffersInSomething(ctx, x, y);
    }
    hide TasksFor, HowDiffer, IsDifference;
    TaskOfDifference(job, m);
  }
}
