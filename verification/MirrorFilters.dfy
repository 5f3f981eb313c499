/** What the exclude and age options do to a run, in terms of names and patterns. */
module MirrorFilters {
  import opened Strings
  import opened ClientUrl
  import opened Difference
  import opened DifferenceTheorems
  import opened Mirror
  import opened MirrorTheorems

  // ---------- names and patterns ----------

  predicate Hit(filters: Filters, patterns: seq<string>, name: string) {
    exists p :: p in patterns && filters.wildcard(p, name)
  }

  /** The part of a name before its first slash. */
  predicate IsFirstPart(part: string, name: string) {
    part <= name && '/' !in part && (part == name || name[|part|] == '/')
  }

  /** Below a local folder, or in front of a bucket, one leading slash does not belong to the name. */
  function Bare(name: string): string { if name != "" && name[0] == '/' then name[1..] else name }

  /**
    The name of an object below a folder is hidden: some exclude pattern matches it, or some pattern for
    buckets matches its first part.
   */
  ghost predicate Hidden(filters: Filters, opts: Options, folder: string, name: string) {
    || Hit(filters, opts.excludeOptions, if NewClientURL(folder).typ.FileSystem? then Bare(name) else name)
    || exists part :: IsFirstPart(part, Bare(name)) && Hit(filters, opts.excludeBuckets, part)
  }

  /** The object's storage class is excluded, or its age is out of bounds. */
  predicate LeftOut(filters: Filters, opts: Options, x: Content) {
    || x.storageClass in opts.excludeStorageClasses
    || (opts.olderThan != "" && filters.isOlder(x.time, opts.olderThan))
    || (opts.newerThan != "" && filters.isNewer(x.time, opts.newerThan))
  }

  /** The name of an object below a folder. */
  function NameIn(folder: string, url: string): string { if folder <= url then url[|folder|..] else url }

  lemma HitMeansMatches(filters: Filters, patterns: seq<string>, name: string)
    ensures Hit(filters, patterns, name) <==> MatchesAny(filters, patterns, name)
  {
    if Hit(filters, patterns, name) {
      var p :| p in patterns && filters.wildcard(p, name);
      var i :| 0 <= i < |patterns| && patterns[i] == p;
    }
    if i :| 0 <= i < |patterns| && filters.wildcard(patterns[i], name) {
      assert patterns[i] in patterns;
    }
  }

  lemma BareTrims(name: string)
    ensures TrimPrefix(name, "/") == Bare(name)
  {
  }

  lemma FirstPartIs(part: string, name: string)
    ensures IsFirstPart(part, name) <==> part == SplitSpecial(name, "/", true).0
  {
    var (head, _) := SplitSpecial(name, "/", true);
    SplitParts(name);
    assert head == SplitSpecial(name, "/", false).0;
    assert name == head + SplitSpecial(name, "/", false).1;
    assert part <= name && |part| < |head| ==> head[|part|] == name[|part|] && head[|part|] in head;
    assert part <= name && |head| < |part| ==> part[|head|] == name[|head|] && part[|head|] in part;
    assert part <= name ==> part == name[..|part|];
  }

  lemma BucketHit(filters: Filters, patterns: seq<string>, name: string)
    ensures MatchExcludeBucketOptions(filters, patterns, name) <==>
            exists part :: IsFirstPart(part, Bare(name)) && Hit(filters, patterns, part)
  {
    BareTrims(name);
    var head := SplitSpecial(Bare(name), "/", true).0;
    hide SplitSpecial, IsFirstPart, MatchesAny, Hit, Bare, TrimPrefix;
    HitMeansMatches(filters, patterns, head);
    FirstPartIs(head, Bare(name));
    forall part | IsFirstPart(part, Bare(name)) ensures part == head {
      FirstPartIs(part, Bare(name));
    }
  }

  lemma HiddenIs(filters: Filters, opts: Options, folder: string, name: string)
    ensures Hidden(filters, opts, folder, name) <==>
            || MatchExcludeOptions(filters, opts.excludeOptions, name, NewClientURL(folder).typ)
            || MatchExcludeBucketOptions(filters, opts.excludeBuckets, name)
  {
    BareTrims(name);
    HitMeansMatches(filters, opts.excludeOptions, if NewClientURL(folder).typ.FileSystem? then Bare(name) else name);
    BucketHit(filters, opts.excludeBuckets, name);
    hide NewClientURL, IsFirstPart, Hit, Bare, TrimPrefix, MatchesAny, MatchExcludeBucketOptions;
  }

  /** A difference is skipped exactly if one of its two names is hidden or the source object's class is excluded. */
  lemma SkippedExactly(source: string, target: string, opts: Options, filters: Filters, m: DiffMessage)
    requires m.Diff?
    ensures UrlJob(source, target, opts, filters).excluded(m) <==>
            || Hidden(filters, opts, source, NameIn(source, m.firstURL))
            || Hidden(filters, opts, target, NameIn(target, m.secondURL))
            || (m.first.Some? && m.first.value.storageClass in opts.excludeStorageClasses)
  {
    HiddenIs(filters, opts, source, NameIn(source, m.firstURL));
    HiddenIs(filters, opts, target, NameIn(target, m.secondURL));
    hide Hidden, NewClientURL, MatchExcludeOptions, MatchExcludeBucketOptions;
  }

  // ---------- hidden objects are left alone ----------

  /** A message names the objects it is about. */
  predicate NamesItsObjects(m: DiffMessage) {
    m.Diff? ==>
      && (m.first.Some? ==> m.firstURL == m.first.value.url)
      && (m.second.Some? ==> m.secondURL == m.second.value.url)
  }

  lemma {:induction false} RunsNameTheirObjects(ctx: Context, src: seq<Entry>, tgt: seq<Entry>, only: bool)
    ensures forall m | m in RunOf(ctx, src, tgt, only, false).sent :: NamesItsObjects(m)
    decreases |src| + |tgt|
  {
    var r := RoundOf(ctx, src, tgt, only, false);
    if !r.Continue? {
    } else {
      assert forall m | m in r.sent :: NamesItsObjects(m);
      RoundPops(ctx, src, tgt, only, false);
      if |r.src| + |r.tgt| < |src| + |tgt| {
        RunsNameTheirObjects(ctx, r.src, r.tgt, only);
      }
    }
  }

  /** No copy of a hidden or left out object, and no removal of a hidden one. */
  ghost predicate Allowed(source: string, target: string, opts: Options, filters: Filters, t: Task) {
    match t
    case DoMirror(x, _) => !Hidden(filters, opts, source, NameIn(source, x.url)) && !LeftOut(filters, opts, x)
    case DoRemove(y) => !Hidden(filters, opts, target, NameIn(target, y.url))
  }

  lemma TaskIsNotSkipped(job: Job, m: DiffMessage, t: Task)
    requires WellFormed(m) && t in TasksFor(job, m)
    ensures m.Diff? && !job.excluded(m) && (t.DoMirror? ==> !job.wrongAge(t.source))
  {
    PlanIsShort(job, m);
    hide PlanFor, WellFormed, TaskFor;
    if PlanFor(job, m) != [] {
      SinglePlan(job, PlanFor(job, m)[0]);
      OldIsNotCopied(job, PlanFor(job, m)[0]);
      assert PlanFor(job, m) == [PlanFor(job, m)[0]];
    }
  }

  lemma PlanIsShort(job: Job, m: DiffMessage)
    requires WellFormed(m)
    ensures |PlanFor(job, m)| <= 1
    ensures m.DiffFailure? ==> PlanFor(job, m) != [] && TaskFor(job, PlanFor(job, m)[0]) == []
    ensures m.Diff? && job.excluded(m) ==> PlanFor(job, m) == []
  {
  }

  lemma OldIsNotCopied(job: Job, u: URLs)
    ensures forall t | t in TaskFor(job, u) && t.DoMirror? :: !job.wrongAge(t.source)
  {
  }

  lemma AgeOutOfBounds(source: string, target: string, opts: Options, filters: Filters, x: Content)
    ensures UrlJob(source, target, opts, filters).wrongAge(x) <==>
            || (opts.olderThan != "" && filters.isOlder(x.time, opts.olderThan))
            || (opts.newerThan != "" && filters.isNewer(x.time, opts.newerThan))
  {
    hide Excluded, UrlJoinPath;
  }

  lemma TaskIsAllowed(source: string, target: string, opts: Options, filters: Filters, m: DiffMessage, t: Task)
    requires WellFormed(m) && NamesItsObjects(m) && t in TasksFor(UrlJob(source, target, opts, filters), m)
    ensures Allowed(source, target, opts, filters, t)
  {
    var job := UrlJob(source, target, opts, filters);
    hide TasksFor, UrlJob, Hidden, NameIn;
    TaskIsNotSkipped(job, m, t);
    TasksOfMessage(job, m, t);
    SkippedExactly(source, target, opts, filters, m);
    if t.DoMirror? {
      AgeOutOfBounds(source, target, opts, filters, t.source);
    }
  }

  /** On any listings and under any options: what the filters hide, no task of a run works on. */
  lemma HiddenIsUntouched(
    ctx: Context, source: string, target: string, opts: Options, filters: Filters,
    src: seq<Entry>, tgt: seq<Entry>, only: bool, t: Task)
    requires t in Queued(UrlJob(source, target, opts, filters), RunMessages(ctx, src, tgt, only))
    ensures Allowed(source, target, opts, filters, t)
  {
    var job, ms := UrlJob(source, target, opts, filters), RunMessages(ctx, src, tgt, only);
    hide Queued, TasksFor, Allowed, UrlJob, WellFormed, RunOf;
    QueuedFrom(job, ms, t);
    RunsNameTheirObjects(ctx, src, tgt, only);
    var m :| m in ms && t in TasksFor(job, m);
    assert NamesItsObjects(m);
    TaskIsAllowed(source, target, opts, filters, m, t);
  }

  // ---------- and nothing else is ----------

  /** No exclude pattern matches the empty name, which is the name an object has on the side where it is missing. */
  ghost predicate EmptyIsFree(filters: Filters, opts: Options) {
    !Hit(filters, opts.excludeOptions, "") && !Hit(filters, opts.excludeBuckets, "")
  }

  lemma EmptyName(filters: Filters, opts: Options, folder: string)
    ensures Hidden(filters, opts, folder, NameIn(folder, "")) <==> !EmptyIsFree(filters, opts)
  {
    hide Hit, NewClientURL;
    assert NameIn(folder, "") == "" && Bare("") == "";
    assert IsFirstPart("", "");
    assert forall part :: IsFirstPart(part, "") ==> part == "";
  }

  /** The tasks a difference leads to, under any options. */
  lemma TasksOfDifference(job: Job, m: DiffMessage)
    requires WellFormed(m) && m.Diff?
    ensures m.diff == InFirst ==>
      TasksFor(job, m) == if job.excluded(m) || job.wrongAge(m.first.value) then []
                          else [DoMirror(m.first.value, job.targetPath(m.firstURL))]
    ensures m.diff == InSize || m.diff == InAASourceMTime || m.diff == InMetadata ==>
      TasksFor(job, m) == if job.excluded(m) || job.wrongAge(m.first.value) || !MayReplace(job.opts) then []
                          else [DoMirror(m.first.value, job.targetPath(m.firstURL))]
    ensures m.diff == InSecond ==>
      TasksFor(job, m) == if job.excluded(m) || !job.opts.isRemove then [] else [DoRemove(m.second.value)]
  {
    if PlanFor(job, m) != [] {
      SinglePlan(job, PlanFor(job, m)[0]);
    }
  }

  /** Existing objects may be copied to: with overwriting, in a dry run, and between two active sites. */
  predicate MayReplace(opts: Options) { opts.isOverwrite || opts.isFake || opts.activeActive }

  /** An object at the source only: copied exactly if nothing hides it. */
  lemma MissingIsCopied(source: string, target: string, opts: Options, filters: Filters, x: Content)
    ensures TasksFor(UrlJob(source, target, opts, filters), OnlyFirst(x))
         == if Hidden(filters, opts, source, NameIn(source, x.url)) || LeftOut(filters, opts, x) || !EmptyIsFree(filters, opts)
            then [] else [CopyOf(source, target, x)]
  {
    var job := UrlJob(source, target, opts, filters);
    JobIs(source, target, opts, filters, x.url);
    SkippedExactly(source, target, opts, filters, OnlyFirst(x));
    AgeOutOfBounds(source, target, opts, filters, x);
    EmptyName(filters, opts, target);
    hide UrlJob, Hidden, NameIn, UrlJoinPath, TrimPrefix, TasksFor, EmptyIsFree;
    TasksOfDifference(job, OnlyFirst(x));
  }

  lemma JobIs(source: string, target: string, opts: Options, filters: Filters, url: string)
    ensures var job := UrlJob(source, target, opts, filters);
      job.opts == opts && job.targetPath(url) == UrlJoinPath(target, TrimPrefix(url, source))
  {
    hide Excluded, UrlJoinPath, TrimPrefix;
  }

  /** An object on both sides, differing: copied exactly if nothing hides it on either, and it may be replaced. */
  lemma DifferingIsCopied(source: string, target: string, opts: Options, filters: Filters, x: Content, y: Content, d: DiffType)
    requires d == InSize || d == InAASourceMTime || d == InMetadata
    ensures TasksFor(UrlJob(source, target, opts, filters), Both(x, y, d))
         == if || Hidden(filters, opts, source, NameIn(source, x.url))
               || Hidden(filters, opts, target, NameIn(target, y.url))
               || LeftOut(filters, opts, x) || !MayReplace(opts)
            then [] else [CopyOf(source, target, x)]
  {
    var job := UrlJob(source, target, opts, filters);
    JobIs(source, target, opts, filters, x.url);
    SkippedExactly(source, target, opts, filters, Both(x, y, d));
    AgeOutOfBounds(source, target, opts, filters, x);
    hide UrlJob, Hidden, NameIn, UrlJoinPath, TrimPrefix, TasksFor, MayReplace;
    TasksOfDifference(job, Both(x, y, d));
  }

  /** The objects differ in size, or the source's is newer, or metadata are compared and both kinds of them differ. */
  ghost predicate Outdated(ctx: Context, x: Content, y: Content) {
    || x.size != y.size
    || Newer(ctx.lib, x, y)
    || (ctx.isMetadata && MetadataDiffer(x.userMetadata, y.userMetadata) && MetadataDiffer(x.metadata, y.metadata))
  }

  /** Where the run puts a copy of an object. */
  function CopyOf(source: string, target: string, x: Content): Task {
    DoMirror(x, UrlJoinPath(target, TrimPrefix(x.url, source)))
  }

  /**
    Under any options, a source object which is missing at the target is copied exactly if it is neither
    hidden nor left out, and no pattern matches the empty name.
   */
  lemma MissingIsCopiedExactly(
    ctx: Context, source: string, target: string, opts: Options, filters: Filters,
    src: seq<Content>, tgt: seq<Content>, x: Content)
    requires Comparable(ctx, src, tgt) && x in src && !InTarget(ctx, x, tgt)
    ensures CopyOf(source, target, x) in PlannedTasks(ctx, UrlJob(source, target, opts, filters), src, tgt) <==>
            && !Hidden(filters, opts, source, NameIn(source, x.url)) && !LeftOut(filters, opts, x)
            && EmptyIsFree(filters, opts)
  {
    hide UrlJob, Hidden, NameIn, UrlJoinPath, TrimPrefix, TasksFor, EmptyIsFree, LeftOut, PlannedTasks, Comparable;
    PlannedIfMissing(ctx, UrlJob(source, target, opts, filters), src, tgt, x);
    MissingIsCopied(source, target, opts, filters, x);
  }

  /**
    And one with a namesake there is copied exactly if neither of the two is hidden, it is not left out,
    the namesake is outdated, and existing objects may be replaced.
   */
  lemma OutdatedIsCopiedExactly(
    ctx: Context, source: string, target: string, opts: Options, filters: Filters,
    src: seq<Content>, tgt: seq<Content>, x: Content, y: Content)
    requires Comparable(ctx, src, tgt) && x in src && y in tgt && Matches(ctx, x, y)
    ensures CopyOf(source, target, x) in PlannedTasks(ctx, UrlJob(source, target, opts, filters), src, tgt) <==>
            && !Hidden(filters, opts, source, NameIn(source, x.url)) && !LeftOut(filters, opts, x)
            && !Hidden(filters, opts, target, NameIn(target, y.url)) && Outdated(ctx, x, y)
            && (opts.isOverwrite || opts.isFake || opts.activeActive)
  {
    hide UrlJob, Hidden, NameIn, UrlJoinPath, TrimPrefix, TasksFor, LeftOut, PlannedTasks, Comparable, HowDiffer, Outdated,
      Matches;
    PlannedIfDiffers(ctx, UrlJob(source, target, opts, filters), src, tgt, x, y);
    OutdatedMeansDiffers(ctx, x, y);
    if HowDiffer(ctx, x, y) != InNone {
      DiffersInSomething(ctx, x, y);
      DifferingIsCopied(source, target, opts, filters, x, y, HowDiffer(ctx, x, y));
    }
  }

  lemma OutdatedMeansDiffers(ctx: Context, x: Content, y: Content)
    ensures HowDiffer(ctx, x, y) != InNone <==> Outdated(ctx, x, y)
  {
    HowTheyDiffer(ctx, x, y);
    hide HowDiffer, Newer, MetadataDiffer;
  }

  lemma PlannedIfMissing(ctx: Context, job: Job, src: seq<Content>, tgt: seq<Content>, x: Content)
    requires Comparable(ctx, src, tgt) && x in src && !InTarget(ctx, x, tgt)
    ensures forall t: Task | t.DoMirror? && t.source == x ::
              t in PlannedTasks(ctx, job, src, tgt) <==> t in TasksFor(job, OnlyFirst(x))
  {
    hide PlannedTasks, TasksFor, Comparable, HowDiffer;
    forall t: Task | t.DoMirror? && t.source == x
      ensures t in PlannedTasks(ctx, job, src, tgt) <==> t in TasksFor(job, OnlyFirst(x))
    {
      if t in PlannedTasks(ctx, job, src, tgt) {
        var m := PlannedFrom(ctx, job, src, tgt, t);
        TasksOfMessage(job, m, t);
        assert m == OnlyFirst(x);
      } else if t in TasksFor(job, OnlyFirst(x)) {
        assert IsDifference(ctx, src, tgt, OnlyFirst(x));
        PlannedBy(ctx, job, src, tgt, OnlyFirst(x), t);
      }
    }
  }

  lemma PlannedIfDiffers(ctx: Context, job: Job, src: seq<Content>, tgt: seq<Content>, x: Content, y: Content)
    requires Comparable(ctx, src, tgt) && x in src && y in tgt && Matches(ctx, x, y)
    ensures forall t: Task | t.DoMirror? && t.source == x ::
              t in PlannedTasks(ctx, job, src, tgt) <==>
              HowDiffer(ctx, x, y) != InNone && t in TasksFor(job, Both(x, y, HowDiffer(ctx, x, y)))
  {
    DiffersInSomething(ctx, x, y);
    hide PlannedTasks, TasksFor, HowDiffer;
    var d := HowDiffer(ctx, x, y);
    forall t: Task | t.DoMirror? && t.source == x
      ensures t in PlannedTasks(ctx, job, src, tgt) <==> d != InNone && t in TasksFor(job, Both(x, y, d))
    {
      if t in PlannedTasks(ctx, job, src, tgt) {
        var m := PlannedFrom(ctx, job, src, tgt, t);
        TasksOfMessage(job, m, t);
        OnlyOneMatch(ctx, src, tgt, x, y, m);
      } else if d != InNone && t in TasksFor(job, Both(x, y, d)) {
        assert IsDifference(ctx, src, tgt, Both(x, y, d));
        PlannedBy(ctx, job, src, tgt, Both(x, y, d), t);
      }
    }
  }

  /** And its removals: a target object is removed exactly if that is asked for, no source object matches it, and nothing hides it. */
  lemma RemovalsAreExact(
    ctx: Context, source: string, target: string, opts: Options, filters: Filters,
    src: seq<Content>, tgt: seq<Content>, y: Content)
    requires Comparable(ctx, src, tgt) && y in tgt
    ensures DoRemove(y) in PlannedTasks(ctx, UrlJob(source, target, opts, filters), src, tgt) <==>
            && opts.isRemove && !InSource(ctx, y, src)
            && !Hidden(filters, opts, target, NameIn(target, y.url)) && EmptyIsFree(filters, opts)
  {
    var job := UrlJob(source, target, opts, filters);
    JobIs(source, target, opts, filters, y.url);
    SkippedExactly(source, target, opts, filters, OnlySecond(y));
    EmptyName(filters, opts, source);
    hide UrlJob, Hidden, NameIn, TasksFor, EmptyIsFree, PlannedTasks, Comparable, HowDiffer;
    TasksOfDifference(job, OnlySecond(y));
    if DoRemove(y) in PlannedTasks(ctx, job, src, tgt) {
      var m := PlannedFrom(ctx, job, src, tgt, DoRemove(y));
      TasksOfMessage(job, m, DoRemove(y));
      KindOfDifference(ctx, src, tgt, m);
      assert m == OnlySecond(y);
    } else if DoRemove(y) in TasksFor(job, OnlySecond(y)) && !InSource(ctx, y, src) {
      assert IsDifference(ctx, src, tgt, OnlySecond(y));
      PlannedBy(ctx, job, src, tgt, OnlySecond(y), DoRemove(y));
    }
  }

  // ---------- errors ----------

  lemma {:induction false} ErrorsFrom(job: Job, ms: seq<DiffMessage>, e: MirrorError)
    requires forall m | m in ms :: WellFormed(m)
    ensures e in ErrorsOf(Plan(job, ms)) <==> exists m | m in ms :: e in ErrorsOf(PlanFor(job, m))
    decreases |ms|
  {
    if ms == [] {
    } else {
      hide WellFormed, PlanFor, ErrorsOf, TasksOf;
      var rest, m := ms[..|ms| - 1], ms[|ms| - 1];
      assert ms == rest + [m];
      ErrorsFrom(job, rest, e);
      TasksConcat(job, Plan(job, rest), PlanFor(job, m));
      assert forall x :: x in ms <==> x in rest || x == m;
    }
  }

  /** The only errors differences of comparable listings lead to are refusals to overwrite. */
  lemma ErrorsOfDifference(job: Job, m: DiffMessage, e: MirrorError)
    requires WellFormed(m) && m.Diff? && m.diff != InNone && m.diff != InType && m.diff != InUnknown
    ensures e in ErrorsOf(PlanFor(job, m)) <==>
            && (m.diff == InSize || m.diff == InAASourceMTime || m.diff == InMetadata)
            && e == OverwriteNotAllowed(m.secondURL)
            && !job.opts.isOverwrite && !job.opts.isFake && !job.opts.activeActive && !job.excluded(m)
  {
    if PlanFor(job, m) != [] {
      SinglePlan(job, PlanFor(job, m)[0]);
    }
  }

  /** An object is not copied over its outdated namesake, and neither of the two is hidden or of an excluded class. */
  ghost predicate Refused(
    ctx: Context, source: string, target: string, opts: Options, filters: Filters, x: Content, y: Content)
  {
    && Matches(ctx, x, y) && Outdated(ctx, x, y)
    && !opts.isOverwrite && !opts.isFake && !opts.activeActive
    && !Hidden(filters, opts, source, NameIn(source, x.url)) && !Hidden(filters, opts, target, NameIn(target, y.url))
    && x.storageClass !in opts.excludeStorageClasses
  }

  /**
    On comparable listings the errors of a run are the refusals to overwrite outdated objects, and no
    others; age limits do not keep them back.
   */
  lemma ErrorsAreExact(
    ctx: Context, source: string, target: string, opts: Options, filters: Filters,
    src: seq<Content>, tgt: seq<Content>, e: MirrorError)
    requires Comparable(ctx, src, tgt)
    ensures
      e in ErrorsOf(Plan(UrlJob(source, target, opts, filters), RunMessages(ctx, Listing(src), Listing(tgt), false))) <==>
      exists x, y :: && x in src && y in tgt && Refused(ctx, source, target, opts, filters, x, y)
                     && e == OverwriteNotAllowed(y.url)
  {
    var job, ms := UrlJob(source, target, opts, filters), RunMessages(ctx, Listing(src), Listing(tgt), false);
    ReportsExactlyTheDifferences(ctx, src, tgt);
    assert forall m :: m in ms <==> IsDifference(ctx, src, tgt, m);
    hide RunMessages, UrlJob, Plan, ErrorsOf, PlanFor, IsDifference, Comparable, WellFormed, Refused;
    ErrorsFrom(job, ms, e);
    if m :| m in ms && e in ErrorsOf(PlanFor(job, m)) {
      ErrorIsRefusal(ctx, source, target, opts, filters, src, tgt, m, e);
    }
    if x, y :| x in src && y in tgt && Refused(ctx, source, target, opts, filters, x, y) && e == OverwriteNotAllowed(y.url) {
      RefusalIsError(ctx, source, target, opts, filters, src, tgt, x, y);
    }
  }

  lemma ErrorIsRefusal(
    ctx: Context, source: string, target: string, opts: Options, filters: Filters,
    src: seq<Content>, tgt: seq<Content>, m: DiffMessage, e: MirrorError)
    requires IsDifference(ctx, src, tgt, m) && WellFormed(m)
    requires e in ErrorsOf(PlanFor(UrlJob(source, target, opts, filters), m))
    ensures exists x, y :: && x in src && y in tgt && Refused(ctx, source, target, opts, filters, x, y)
                           && e == OverwriteNotAllowed(y.url)
  {
    KindOfDifference(ctx, src, tgt, m);
    hide *;
    if m.diff == InFirst || m.diff == InSecond {
      ErrorsOfDifference(UrlJob(source, target, opts, filters), m, e);
    } else {
      var x, y :| x in src && y in tgt && Matches(ctx, x, y) && m == Both(x, y, HowDiffer(ctx, x, y)) && m.diff != InNone;
      BothIs(x, y, HowDiffer(ctx, x, y));
      PairErrorIsRefusal(ctx, source, target, opts, filters, x, y, e);
    }
  }

  lemma PairErrorIsRefusal(
    ctx: Context, source: string, target: string, opts: Options, filters: Filters, x: Content, y: Content, e: MirrorError)
    requires Matches(ctx, x, y) && HowDiffer(ctx, x, y) != InNone && WellFormed(Both(x, y, HowDiffer(ctx, x, y)))
    ensures e in ErrorsOf(PlanFor(UrlJob(source, target, opts, filters), Both(x, y, HowDiffer(ctx, x, y)))) <==>
            Refused(ctx, source, target, opts, filters, x, y) && e == OverwriteNotAllowed(y.url)
  {
    hide *;
    BothIs(x, y, HowDiffer(ctx, x, y));
    DiffersInSomething(ctx, x, y);
    ErrorsOfDifference(UrlJob(source, target, opts, filters), Both(x, y, HowDiffer(ctx, x, y)), e);
    PairIsRefused(ctx, source, target, opts, filters, x, y);
  }

  lemma BothIs(x: Content, y: Content, d: DiffType)
    ensures Both(x, y, d).Diff? && Both(x, y, d).diff == d && Both(x, y, d).secondURL == y.url
  {
  }

  lemma PairIsRefused(
    ctx: Context, source: string, target: string, opts: Options, filters: Filters, x: Content, y: Content)
    requires Matches(ctx, x, y) && HowDiffer(ctx, x, y) != InNone
    ensures
      var job := UrlJob(source, target, opts, filters);
      Refused(ctx, source, target, opts, filters, x, y) <==>
      && !job.opts.isOverwrite && !job.opts.isFake && !job.opts.activeActive
      && !job.excluded(Both(x, y, HowDiffer(ctx, x, y)))
  {
    JobIs(source, target, opts, filters, "");
    SkippedExactly(source, target, opts, filters, Both(x, y, HowDiffer(ctx, x, y)));
    OutdatedMeansDiffers(ctx, x, y);
    hide UrlJob, HowDiffer, Hidden, NameIn, Outdated, Matches;
  }

  lemma RefusalIsError(
    ctx: Context, source: string, target: string, opts: Options, filters: Filters,
    src: seq<Content>, tgt: seq<Content>, x: Content, y: Content)
    requires x in src && y in tgt && Refused(ctx, source, target, opts, filters, x, y)
    ensures exists m :: && IsDifference(ctx, src, tgt, m) && WellFormed(m)
                        && OverwriteNotAllowed(y.url) in ErrorsOf(PlanFor(UrlJob(source, target, opts, filters), m))
  {
    var m := Both(x, y, HowDiffer(ctx, x, y));
    OutdatedMeansDiffers(ctx, x, y);
    DiffersInSomething(ctx, x, y);
    assert Matches(ctx, x, y) && HowDiffer(ctx, x, y) != InNone && WellFormed(m);
    assert IsDifference(ctx, src, tgt, m);
    hide *;
    PairErrorIsRefusal(ctx, source, target, opts, filters, x, y, OverwriteNotAllowed(y.url));
  }

  // ---------- what the plan announces ----------

  lemma {:induction false} PlanFrom(job: Job, ms: seq<DiffMessage>, u: URLs)
    requires forall m | m in ms :: WellFormed(m)
    ensures u in Plan(job, ms) <==> exists m | m in ms :: u in PlanFor(job, m)
    decreases |ms|
  {
    if ms == [] {
    } else {
      hide WellFormed, PlanFor;
      var rest, m := ms[..|ms| - 1], ms[|ms| - 1];
      assert ms == rest + [m];
      PlanFrom(job, rest, u);
      assert forall x :: x in ms <==> x in rest || x == m;
    }
  }

  /**
    The removals a plan announces, which in a dry run is also done without removing on: exactly those of
    the target objects no source object matches and nothing hides.
   */
  lemma RemovalsAnnounced(
    ctx: Context, source: string, target: string, opts: Options, filters: Filters,
    src: seq<Content>, tgt: seq<Content>, y: Content)
    requires Comparable(ctx, src, tgt) && y in tgt
    ensures
      Remove(y) in Plan(UrlJob(source, target, opts, filters), RunMessages(ctx, Listing(src), Listing(tgt), false)) <==>
      && (opts.isRemove || opts.isFake) && !InSource(ctx, y, src)
      && !Hidden(filters, opts, target, NameIn(target, y.url)) && EmptyIsFree(filters, opts)
  {
    var job, ms := UrlJob(source, target, opts, filters), RunMessages(ctx, Listing(src), Listing(tgt), false);
    ReportsExactlyTheDifferences(ctx, src, tgt);
    assert forall m :: m in ms <==> IsDifference(ctx, src, tgt, m);
    JobIs(source, target, opts, filters, y.url);
    SkippedExactly(source, target, opts, filters, OnlySecond(y));
    EmptyName(filters, opts, source);
    RemovalOf(job, OnlySecond(y), y);
    hide RunMessages, UrlJob, Plan, PlanFor, Comparable, WellFormed, Hidden, NameIn, EmptyIsFree, HowDiffer;
    PlanFrom(job, ms, Remove(y));
    if m :| m in ms && Remove(y) in PlanFor(job, m) {
      RemovalOf(job, m, y);
      KindOfDifference(ctx, src, tgt, m);
      assert m == OnlySecond(y);
    }
    if !InSource(ctx, y, src) {
      assert IsDifference(ctx, src, tgt, OnlySecond(y));
    }
  }

  lemma RemovalOf(job: Job, m: DiffMessage, y: Content)
    requires WellFormed(m)
    ensures Remove(y) in PlanFor(job, m) <==>
            && m.Diff? && m.diff == InSecond && m.second == Some(y)
            && (job.opts.isRemove || job.opts.isFake) && !job.excluded(m)
  {
  }

  function RemovalsIn(urls: seq<URLs>): nat {
    if urls == [] then 0 else RemovalsIn(urls[..|urls| - 1]) + if urls[|urls| - 1].Remove? then 1 else 0
  }

  /** The bytes of the copies among some tasks. */
  function BytesIn(tasks: seq<Task>): int {
    if tasks == [] then 0
    else
      var t := tasks[|tasks| - 1];
      BytesIn(tasks[..|tasks| - 1]) + if t.DoMirror? then t.source.size else 0
  }

  /** The progress bar counts the tasks, and without removing on the announced removals as well; its bytes are those of the copies. */
  lemma {:induction false} ProgressCountsTasks(job: Job, urls: seq<URLs>)
    ensures CountOf(job, urls) == |TasksOf(job, urls)| + if job.opts.isRemove then 0 else RemovalsIn(urls)
    ensures BytesOf(job, urls) == BytesIn(TasksOf(job, urls))
    decreases |urls|
  {
    if urls == [] {
    } else {
      var rest, u := urls[..|urls| - 1], urls[|urls| - 1];
      ProgressCountsTasks(job, rest);
      var tasks, added := TasksOf(job, rest), TaskFor(job, u);
      assert TasksOf(job, urls) == tasks + added;
      if added == [] {
        assert tasks + added == tasks;
      } else {
        assert (tasks + added)[..|tasks + added| - 1] == tasks;
      }
    }
  }
}
