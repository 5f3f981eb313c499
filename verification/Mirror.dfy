/** From differences to a plan, from the plan to tasks, and what the tasks do to the target. */
module Mirror {
  import opened Strings
  import opened ClientUrl
  import opened Difference

  datatype Options = Options(
    isFake: bool, isOverwrite: bool, activeActive: bool, isRemove: bool,
    excludeOptions: seq<string>, excludeBuckets: seq<string>, excludeStorageClasses: seq<string>,
    olderThan: string, newerThan: string)

  /** Library predicates: wildcard match of a pattern, and age tests against a reference. */
  datatype Filters = Filters(
    wildcard: (string, string) -> bool, isOlder: (int, string) -> bool, isNewer: (int, string) -> bool)

  /**
    A mirror job: its options, where an object listed under a URL is copied to, which differences the
    exclude options skip, and which source objects the age options skip.
   */
  datatype Job = Job(
    opts: Options,
    targetPath: string -> string,
    excluded: DiffMessage -> bool,
    wrongAge: Content -> bool)

  /** The job of mirroring between two folder URLs. */
  function UrlJob(sourceURL: string, targetURL: string, opts: Options, filters: Filters): Job {
    Job(
      opts,
      (url: string) => UrlJoinPath(targetURL, TrimPrefix(url, sourceURL)),
      (m: DiffMessage) => m.Diff? && Excluded(sourceURL, targetURL, opts, filters, m),
      (x: Content) => TooYoungOrOld(opts, filters, x))
  }

  datatype MirrorError =
    | NoClient(cause: string)
    | NotCompared(error: DiffError)
    | TypeDiffers(url: string)
    | OverwriteNotAllowed(url: string)
    | UnrecognizedDiff

  /** One element of the plan. */
  datatype URLs =
    | Copy(source: Content, target: string)
    | Remove(content: Content)
    | Failure(error: MirrorError, cond: DiffType)

  // ---------- filters ----------

  predicate MatchesAny(filters: Filters, patterns: seq<string>, name: string) {
    exists i | 0 <= i < |patterns| :: filters.wildcard(patterns[i], name)
  }

  predicate MatchExcludeOptions(filters: Filters, patterns: seq<string>, suffix: string, typ: UrlType) {
    MatchesAny(filters, patterns, if typ.FileSystem? then TrimPrefix(suffix, "/") else suffix)
  }

  predicate MatchExcludeBucketOptions(filters: Filters, patterns: seq<string>, suffix: string) {
    MatchesAny(filters, patterns, SplitSpecial(TrimPrefix(suffix, "/"), "/", true).0)
  }

  predicate Excluded(sourceURL: string, targetURL: string, opts: Options, filters: Filters, m: DiffMessage)
    requires m.Diff?
  {
    var srcSuffix, tgtSuffix := TrimPrefix(m.firstURL, sourceURL), TrimPrefix(m.secondURL, targetURL);
    || MatchExcludeOptions(filters, opts.excludeOptions, srcSuffix, NewClientURL(sourceURL).typ)
    || MatchExcludeBucketOptions(filters, opts.excludeBuckets, srcSuffix)
    || MatchExcludeOptions(filters, opts.excludeOptions, tgtSuffix, NewClientURL(targetURL).typ)
    || MatchExcludeBucketOptions(filters, opts.excludeBuckets, tgtSuffix)
    || (m.first.Some? && m.first.value.storageClass in opts.excludeStorageClasses)
  }

  predicate TooYoungOrOld(opts: Options, filters: Filters, x: Content) {
    || (opts.olderThan != "" && filters.isOlder(x.time, opts.olderThan))
    || (opts.newerThan != "" && filters.isNewer(x.time, opts.newerThan))
  }

  predicate NoFilters(opts: Options) {
    && opts.excludeOptions == [] && opts.excludeBuckets == [] && opts.excludeStorageClasses == []
    && opts.olderThan == "" && opts.newerThan == ""
  }

  lemma NothingExcluded(sourceURL: string, targetURL: string, opts: Options, filters: Filters, m: DiffMessage)
    requires NoFilters(opts) && m.Diff?
    ensures !Excluded(sourceURL, targetURL, opts, filters, m)
  {
    forall name ensures !MatchesAny(filters, [], name) {
    }
  }

  /** Without filter options nothing is skipped. */
  lemma NoFiltersSkipNothing(sourceURL: string, targetURL: string, opts: Options, filters: Filters)
    requires NoFilters(opts)
    ensures forall m :: !UrlJob(sourceURL, targetURL, opts, filters).excluded(m)
    ensures forall x :: !UrlJob(sourceURL, targetURL, opts, filters).wrongAge(x)
  {
    forall m: DiffMessage ensures !UrlJob(sourceURL, targetURL, opts, filters).excluded(m) {
      if m.Diff? {
        NothingExcluded(sourceURL, targetURL, opts, filters, m);
      }
    }
  }

  // ---------- the plan ----------

  /** A message carries the contents its kind of difference speaks of. */
  predicate WellFormed(m: DiffMessage) {
    m.Diff? ==>
      && (m.diff.InSize? || m.diff.InMetadata? || m.diff.InAASourceMTime? || m.diff.InFirst? ==> m.first.Some?)
      && (m.diff.InSecond? ==> m.second.Some?)
  }

  function PlanFor(job: Job, m: DiffMessage): seq<URLs>
    requires WellFormed(m)
  {
    if m.DiffFailure? then [Failure(NotCompared(m.error), InUnknown)]
    else if job.excluded(m) then []
    else
      match m.diff
      case InNone => []
      case InType => [Failure(TypeDiffers(m.secondURL), InUnknown)]
      case InSize => PlanOverwrite(job, m)
      case InMetadata => PlanOverwrite(job, m)
      case InAASourceMTime => PlanOverwrite(job, m)
      case InFirst => [Copy(m.first.value, job.targetPath(m.firstURL))]
      case InSecond => if !job.opts.isRemove && !job.opts.isFake then [] else [Remove(m.second.value)]
      case InUnknown => [Failure(UnrecognizedDiff, m.diff)]
  }

  function PlanOverwrite(job: Job, m: DiffMessage): seq<URLs>
    requires m.Diff? && m.first.Some?
  {
    if !job.opts.isOverwrite && !job.opts.isFake && !job.opts.activeActive
    then [Failure(OverwriteNotAllowed(m.secondURL), m.diff)]
    else [Copy(m.first.value, job.targetPath(m.firstURL))]
  }

  function Plan(job: Job, ms: seq<DiffMessage>): seq<URLs>
    requires forall m | m in ms :: WellFormed(m)
  {
    if ms == [] then [] else Plan(job, ms[..|ms| - 1]) + PlanFor(job, ms[|ms| - 1])
  }

  /** deltaSourceTarget: makes both clients, or fails; then receives the differences and sends the plan. */
  method DeltaSourceTarget(job: Job, sourceClient: Option<string>, targetClient: Option<string>, diffCh: seq<DiffMessage>)
    returns (urlsCh: seq<URLs>)
    requires forall m | m in diffCh :: WellFormed(m)
    ensures urlsCh == if sourceClient.Some? then [Failure(NoClient(sourceClient.value), InUnknown)]
                      else if targetClient.Some? then [Failure(NoClient(targetClient.value), InUnknown)]
                      else Plan(job, diffCh)
  {
    if sourceClient.Some? {
      return [Failure(NoClient(sourceClient.value), InUnknown)];
    }
    if targetClient.Some? {
      return [Failure(NoClient(targetClient.value), InUnknown)];
    }
    urlsCh := [];
    for i := 0 to |diffCh|
      invariant urlsCh == Plan(job, diffCh[..i])
    {
      var diffMsg := diffCh[i];
      assert WellFormed(diffMsg);
      assert diffCh[..i + 1][..i] == diffCh[..i];
      if diffMsg.DiffFailure? {
        urlsCh := urlsCh + [Failure(NotCompared(diffMsg.error), InUnknown)];
        continue;
      }
      if job.excluded(diffMsg) {
        continue;
      }
      match diffMsg.diff
      case InNone =>
      case InType =>
        urlsCh := urlsCh + [Failure(TypeDiffers(diffMsg.secondURL), InUnknown)];
      case InFirst =>
        urlsCh := urlsCh + [Copy(diffMsg.first.value, job.targetPath(diffMsg.firstURL))];
      case InSecond =>
        if !job.opts.isRemove && !job.opts.isFake {
          continue;
        }
        urlsCh := urlsCh + [Remove(diffMsg.second.value)];
      case InUnknown =>
        urlsCh := urlsCh + [Failure(UnrecognizedDiff, diffMsg.diff)];
      case _ =>
        if !job.opts.isOverwrite && !job.opts.isFake && !job.opts.activeActive {
          urlsCh := urlsCh + [Failure(OverwriteNotAllowed(diffMsg.secondURL), diffMsg.diff)];
          continue;
        }
        urlsCh := urlsCh + [Copy(diffMsg.first.value, job.targetPath(diffMsg.firstURL))];
    }
    assert diffCh[..|diffCh|] == diffCh;
  }

  // ---------- tasks ----------

  datatype Task = DoMirror(source: Content, path: string) | DoRemove(content: Content) {
    /** The name at the target the task works on. */
    function Target(): string {
      if DoMirror? then path else content.url
    }
  }

  function TaskFor(job: Job, u: URLs): seq<Task> {
    match u
    case Failure(_, _) => []
    case Copy(source, target) => if job.wrongAge(source) then [] else [DoMirror(source, target)]
    case Remove(content) => if job.opts.isRemove then [DoRemove(content)] else []
  }

  function TasksOf(job: Job, urls: seq<URLs>): seq<Task> {
    if urls == [] then [] else TasksOf(job, urls[..|urls| - 1]) + TaskFor(job, urls[|urls| - 1])
  }

  function ErrorsOf(urls: seq<URLs>): seq<MirrorError> {
    if urls == [] then []
    else ErrorsOf(urls[..|urls| - 1]) + if urls[|urls| - 1].Failure? then [urls[|urls| - 1].error] else []
  }

  predicate Progresses(job: Job, u: URLs) { !u.Failure? && !(u.Copy? && job.wrongAge(u.source)) }

  /** How many entries the progress bar counts: queued or not, everything that is neither an error nor filtered by age. */
  function CountOf(job: Job, urls: seq<URLs>): nat {
    if urls == [] then 0
    else CountOf(job, urls[..|urls| - 1]) + if Progresses(job, urls[|urls| - 1]) then 1 else 0
  }

  /** The bytes the progress bar is told to expect. */
  function BytesOf(job: Job, urls: seq<URLs>): int {
    if urls == [] then 0
    else
      var u := urls[|urls| - 1];
      BytesOf(job, urls[..|urls| - 1]) + if u.Copy? && !job.wrongAge(u.source) then u.source.size else 0
  }

  lemma Extend(job: Job, urls: seq<URLs>, i: nat)
    requires i < |urls|
    ensures TasksOf(job, urls[..i + 1]) == TasksOf(job, urls[..i]) + TaskFor(job, urls[i])
    ensures ErrorsOf(urls[..i + 1]) == ErrorsOf(urls[..i]) + if urls[i].Failure? then [urls[i].error] else []
    ensures CountOf(job, urls[..i + 1]) == CountOf(job, urls[..i]) + if Progresses(job, urls[i]) then 1 else 0
    ensures BytesOf(job, urls[..i + 1])
         == BytesOf(job, urls[..i]) + if urls[i].Copy? && !job.wrongAge(urls[i].source) then urls[i].source.size else 0
  {
    assert urls[..i + 1][..i] == urls[..i];
  }

  /**
    startMirror: receives the plan, reports its errors and queues its tasks, until the plan ends or, after
    `stopAfter` entries, the run is cancelled or stopped.
   */
  method StartMirror(job: Job, urlsCh: seq<URLs>, stopAfter: nat)
    returns (tasks: seq<Task>, errors: seq<MirrorError>, totalCount: nat, totalSize: int)
    ensures var received := if stopAfter < |urlsCh| then urlsCh[..stopAfter] else urlsCh;
      && tasks == TasksOf(job, received) && errors == ErrorsOf(received)
      && totalSize == BytesOf(job, received) && totalCount == CountOf(job, received)
  {
    tasks, errors, totalCount, totalSize := [], [], 0, 0;
    for i := 0 to |urlsCh|
      invariant i <= stopAfter
      invariant tasks == TasksOf(job, urlsCh[..i])
      invariant errors == ErrorsOf(urlsCh[..i])
      invariant totalSize == BytesOf(job, urlsCh[..i])
      invariant totalCount == CountOf(job, urlsCh[..i])
    {
      if i == stopAfter {
        return;
      }
      var sURLs := urlsCh[i];
      Extend(job, urlsCh, i);
      if sURLs.Failure? {
        errors := errors + [sURLs.error];
        continue;
      }
      if sURLs.Copy? {
        if job.wrongAge(sURLs.source) {
          continue;
        }
        totalSize := totalSize + sURLs.source.size;
      }
      totalCount := totalCount + 1;
      if sURLs.Copy? {
        tasks := tasks + [DoMirror(sURLs.source, sURLs.target)];
      } else if job.opts.isRemove {
        tasks := tasks + [DoRemove(sURLs.content)];
      }
    }
    assert urlsCh[..|urlsCh|] == urlsCh;
  }

  /** Everything from the listings' differences to the queue. */
  function Queued(job: Job, ms: seq<DiffMessage>): seq<Task>
    requires forall m | m in ms :: WellFormed(m)
  {
    TasksOf(job, Plan(job, ms))
  }

  // ---------- effects ----------

  /** The target, by object name. */
  type Store = map<string, Content>

  /** What a finished task leaves at the target; `put(x, name)` is the object an upload of `x` to `name` creates. */
  function Effect(job: Job, put: (Content, string) -> Content, store: Store, t: Task): Store {
    if job.opts.isFake then store
    else if t.DoMirror? then store[t.path := put(t.source, t.path)]
    else store - {t.content.url}
  }

  function Execute(job: Job, put: (Content, string) -> Content, store: Store, tasks: seq<Task>): Store {
    if tasks == [] then store else Effect(job, put, Execute(job, put, store, tasks[..|tasks| - 1]), tasks[|tasks| - 1])
  }

  /** runMirror lists only as far as the source when it neither removes nor runs in both directions. */
  predicate SourceListingOnly(opts: Options) { !opts.activeActive && !opts.isRemove }
}
