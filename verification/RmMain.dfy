/** Listing and removing: which listed entries are handed to the removal, one pass or two. */
module RmMain {
  datatype Content = Content(path: string, objectStorage: bool, isLatest: bool, isDeleteMarker: bool, hasTime: bool,
                             modTime: int, versionID: string)

  /** One entry of a listing; Denied is the permission error which is reported and skipped. */
  datatype Listed = Entry(content: Content) | Denied | Broken

  /**
   * `aged` says that the age limits leave an entry out; `matches` compares an entry's own name with the URL that
   * was asked for.
   */
  datatype Options = Options(withVersions: bool, nonCurrentVersion: bool, isForce: bool, isRecursive: bool,
                             isIncomplete: bool, isFake: bool, timeRef: int, aged: Content -> bool,
                             matches: Content -> bool) {
    predicate NonCurrent() { nonCurrentVersion && isRecursive && withVersions }
  }

  datatype Outcome = Done | NothingFound | Failed

  /** Slash at the start and nowhere else: the name of a bucket. */
  predicate IsBucketName(c: Content) {
    c.objectStorage && c.path != "" && c.path[0] == '/' && forall i | 1 <= i < |c.path| :: c.path[i] != '/'
  }

  /** Entries with a time which the age limits do not leave out; prefixes have no time. */
  predicate Eligible(c: Content, opts: Options) { c.hasTime && !opts.aged(c) }

  /** The live version of an object: the latest, unless that is a delete marker. */
  predicate IsLive(c: Content) { c.isLatest && !c.isDeleteMarker }

  predicate Wanted(c: Content, opts: Options) { Eligible(c, opts) && (opts.NonCurrent() ==> !IsLive(c)) }

  // ---------- the specification: one filter ----------

  /** How a listing ends for the loop: at its end, at a name that does not match, or at an error. */
  datatype Ending = AtEnd | AtMismatch | AtError

  function Stops(l: Listed, opts: Options): bool {
    l.Broken? || (l.Entry? && !IsBucketName(l.content) && !opts.isRecursive && !opts.matches(l.content))
  }

  /** The entries looked at: no bucket names, nothing from the first stop on. */
  function Seen(ls: seq<Listed>, opts: Options): seq<Content> {
    if ls == [] || Stops(ls[0], opts) then []
    else (if ls[0].Entry? && !IsBucketName(ls[0].content) then [ls[0].content] else []) + Seen(ls[1..], opts)
  }

  function EndOf(ls: seq<Listed>, opts: Options): Ending {
    if ls == [] then AtEnd
    else if ls[0].Broken? then AtError
    else if Stops(ls[0], opts) then AtMismatch
    else EndOf(ls[1..], opts)
  }

  function Filter(cs: seq<Content>, opts: Options): seq<Content> {
    if cs == [] then [] else
    Filter(cs[..|cs| - 1], opts) + if Wanted(cs[|cs| - 1], opts) then [cs[|cs| - 1]] else []
  }

  /** The entries of the last path, which are still held back when an error ends the listing. */
  predicate LastRun(cs: seq<Content>, k: nat) {
    && k <= |cs|
    && (cs != [] ==> k < |cs|)
    && (forall i | k <= i < |cs| :: cs[i].path == cs[k].path)
    && (0 < k < |cs| ==> cs[k - 1].path != cs[k].path)
  }

  // ---------- the code ----------

  /** Hands one entry over, or announces it in a dry run; fails if a fatal result arrives first. */
  method Hand(content: Content, opts: Options, contentCh: seq<Content>, fatal: nat -> bool)
    returns (now: seq<Content>, ok: bool)
    ensures ok == (opts.isFake || !fatal(|contentCh|))
    ensures now == if ok then contentCh + [content] else contentCh
  {
    if opts.isFake {
      return contentCh + [content], true;
    }
    if fatal(|contentCh|) {
      return contentCh, false;
    }
    return contentCh + [content], true;
  }

  predicate Smooth(opts: Options, fatal: nat -> bool, n: nat) { opts.isFake || forall i: nat | i < n :: !fatal(i) }

  lemma FilterSnoc(cs: seq<Content>, c: Content, opts: Options)
    ensures Filter(cs + [c], opts) == Filter(cs, opts) + if Wanted(c, opts) then [c] else []
  {
    assert (cs + [c])[..|cs|] == cs;
  }

  lemma {:induction false} FilterConcat(a: seq<Content>, b: seq<Content>, opts: Options)
    ensures Filter(a + b, opts) == Filter(a, opts) + Filter(b, opts)
    decreases |b|
  {
    if b == [] {
      assert a + b == a;
    } else {
      assert (a + b)[..|a + b| - 1] == a + b[..|b| - 1];
      FilterConcat(a, b[..|b| - 1], opts);
    }
  }

  lemma FilterPrefix(a: seq<Content>, b: seq<Content>, opts: Options)
    ensures Filter(a, opts) <= Filter(a + b, opts)
  {
    FilterConcat(a, b, opts);
  }

  lemma SmoothNext(opts: Options, fatal: nat -> bool, n: nat)
    requires Smooth(opts, fatal, n) && (opts.isFake || !fatal(n))
    ensures Smooth(opts, fatal, n + 1)
  {
  }

  /** A fatal result before the next wanted entry is accepted. */
  lemma FlushFails(held: seq<Content>, i: nat, opts: Options, contentCh: seq<Content>, now: seq<Content>,
                   fatal: nat -> bool)
    requires i < |held| && now == contentCh + Filter(held[..i], opts) && Wanted(held[i], opts)
    requires !opts.isFake && fatal(|now|)
    ensures now <= contentCh + Filter(held, opts) && !Smooth(opts, fatal, |contentCh + Filter(held, opts)|)
  {
    hide Wanted;
    FilterSnoc(held[..i], held[i], opts);
    FilterPrefix(held[..i] + [held[i]], held[i + 1..], opts);
    hide Filter;
    assert held == held[..i] + [held[i]] + held[i + 1..];
  }

  /** Flushes the versions of one path. */
  method Flush(perObjectVersions: seq<Content>, opts: Options, contentCh: seq<Content>, fatal: nat -> bool)
    returns (now: seq<Content>, ok: bool)
    requires opts.NonCurrent() && Smooth(opts, fatal, |contentCh|)
    ensures contentCh <= now <= contentCh + Filter(perObjectVersions, opts)
    ensures ok ==> now == contentCh + Filter(perObjectVersions, opts)
    ensures ok == Smooth(opts, fatal, |contentCh + Filter(perObjectVersions, opts)|)
  {
    now := contentCh;
    assert now + Filter(perObjectVersions[..0], opts) == now;
    hide Filter, Smooth;
    for i := 0 to |perObjectVersions|
      invariant now == contentCh + Filter(perObjectVersions[..i], opts)
      invariant Smooth(opts, fatal, |now|)
    {
      var content := perObjectVersions[i];
      FilterSnoc(perObjectVersions[..i], content, opts);
      assert perObjectVersions[..i + 1] == perObjectVersions[..i] + [content];
      if content.isLatest && !content.isDeleteMarker {
        continue;
      }
      if content.hasTime {
        if opts.aged(content) {
          continue;
        }
      } else {
        continue;
      }
      ghost var before := now;
      now, ok := Hand(content, opts, now, fatal);
      if !ok {
        FlushFails(perObjectVersions, i, opts, contentCh, now, fatal);
        return;
      }
      SmoothNext(opts, fatal, |before|);
    }
    assert perObjectVersions[..|perObjectVersions|] == perObjectVersions;
    ok := true;
  }

  /** What a pass hands over, by how its listing ended. */
  ghost predicate HandsOver(ls: seq<Listed>, opts: Options, fatal: nat -> bool, sent: seq<Content>) {
    var seen := Seen(ls, opts);
    && sent <= Filter(seen, opts)
    && (Smooth(opts, fatal, |Filter(seen, opts)|) ==>
          if EndOf(ls, opts).AtError? && opts.NonCurrent() then
            exists k: nat :: LastRun(seen, k) && sent == Filter(seen[..k], opts)
          else sent == Filter(seen, opts))
  }

  predicate Ends(ls: seq<Listed>, opts: Options, fatal: nat -> bool, outcome: Outcome) {
    var seen := Seen(ls, opts);
    outcome ==
    if EndOf(ls, opts).AtError? || !Smooth(opts, fatal, |Filter(seen, opts)| + 1) then Failed
    else if seen == [] && !opts.isForce && !opts.isFake then NothingFound
    else Done
  }

  ghost predicate Progress(ls: seq<Listed>, i: nat, opts: Options, done: seq<Content>) {
    i <= |ls| && Seen(ls, opts) == done + Seen(ls[i..], opts) && EndOf(ls, opts) == EndOf(ls[i..], opts)
  }

  lemma Advance(ls: seq<Listed>, i: nat, opts: Options, done: seq<Content>)
    requires Progress(ls, i, opts, done) && i < |ls| && !Stops(ls[i], opts)
    ensures ls[i].Entry? && !IsBucketName(ls[i].content) ==> Progress(ls, i + 1, opts, done + [ls[i].content])
    ensures !(ls[i].Entry? && !IsBucketName(ls[i].content)) ==> Progress(ls, i + 1, opts, done)
  {
    assert ls[i..][1..] == ls[i + 1..];
  }

  lemma Stopped(ls: seq<Listed>, i: nat, opts: Options, done: seq<Content>)
    requires Progress(ls, i, opts, done) && (i < |ls| ==> Stops(ls[i], opts))
    ensures Seen(ls, opts) == done
    ensures EndOf(ls, opts) == if i == |ls| then AtEnd else if ls[i].Broken? then AtError else AtMismatch
  {
  }

  /** What is sent and what is held back after the entries `done`. */
  ghost predicate Holding(done: seq<Content>, opts: Options, lastPath: string, held: seq<Content>, sent: seq<Content>) {
    if opts.NonCurrent() then
      && (lastPath == if done == [] then "" else done[|done| - 1].path)
      && exists k: nat :: LastRun(done, k) && held == done[k..] && sent == Filter(done[..k], opts)
    else sent == Filter(done, opts)
  }

  lemma HeldIsTheRest(done: seq<Content>, opts: Options, lastPath: string, held: seq<Content>, sent: seq<Content>)
    requires opts.NonCurrent() && Holding(done, opts, lastPath, held, sent)
    ensures sent + Filter(held, opts) == Filter(done, opts)
  {
    var k: nat :| LastRun(done, k) && held == done[k..] && sent == Filter(done[..k], opts);
    FilterConcat(done[..k], done[k..], opts);
    assert done == done[..k] + done[k..];
  }

  lemma LastRunGrows(cs: seq<Content>, k: nat, c: Content)
    requires LastRun(cs, k) && (cs != [] ==> cs[|cs| - 1].path == c.path)
    ensures LastRun(cs + [c], k)
  {
    assert forall i | 0 <= i < |cs| :: (cs + [c])[i] == cs[i];
  }

  lemma SamePath(done: seq<Content>, opts: Options, held: seq<Content>, sent: seq<Content>, c: Content)
    requires opts.NonCurrent() && Holding(done, opts, c.path, held, sent)
    ensures Holding(done + [c], opts, c.path, held + [c], sent)
  {
    hide Filter;
    var k: nat :| LastRun(done, k) && held == done[k..] && sent == Filter(done[..k], opts);
    var now := done + [c];
    assert now[..k] == done[..k] && now[k..] == done[k..] + [c];
    LastRunGrows(done, k, c);
  }

  lemma NewPath(done: seq<Content>, opts: Options, c: Content)
    requires opts.NonCurrent() && (done != [] ==> done[|done| - 1].path != c.path)
    ensures Holding(done + [c], opts, c.path, [] + [c], Filter(done, opts))
  {
    assert [] + [c] == [c];
    var now := done + [c];
    assert now[..|done|] == done && now[|done|..] == [c];
    assert LastRun(now, |done|);
  }

  /** listAndRemovePass, with buffering of the versions of one path in the non-current mode. */
  method ListAndRemovePass(listing: seq<Listed>, opts: Options, fatal: nat -> bool)
    returns (contentCh: seq<Content>, outcome: Outcome)
    ensures HandsOver(listing, opts, fatal, contentCh)
    ensures Ends(listing, opts, fatal, outcome)
  {
    hide IsBucketName, Wanted, Seen, EndOf, Filter, LastRun, Progress, Holding;
    contentCh := [];
    var lastPath := "";
    var perObjectVersions: seq<Content> := [];
    var atLeastOneObjectFound := false;
    ghost var done: seq<Content> := [];
    var i := 0;
    Start(listing, opts);
    while i < |listing|
      invariant i <= |listing|
      invariant Progress(listing, i, opts, done)
      invariant atLeastOneObjectFound == (done != [])
      invariant Smooth(opts, fatal, |contentCh|)
      invariant Holding(done, opts, lastPath, perObjectVersions, contentCh)
    {
      if listing[i].Broken? {
        Stopped(listing, i, opts, done);
        BrokenPass(listing, opts, fatal, lastPath, perObjectVersions, contentCh, done);
        return contentCh, Failed;
      }
      if listing[i].Denied? || IsBucketName(listing[i].content) {
        Advance(listing, i, opts, done);
        i := i + 1;
        continue;
      }
      var content := listing[i].content;
      if !opts.isRecursive {
        if !opts.matches(content) {
          break;
        }
      }
      Advance(listing, i, opts, done);
      if opts.NonCurrent() {
        if lastPath != content.path {
          HeldIsTheRest(done, opts, lastPath, perObjectVersions, contentCh);
          LastPathIs(done, opts, lastPath, perObjectVersions, contentCh);
          NewPath(done, opts, content);
          lastPath := content.path;
          var ok;
          contentCh, ok := Flush(perObjectVersions, opts, contentCh, fatal);
          if !ok {
            FailedPass(listing, i, opts, fatal, contentCh, done);
            return contentCh, Failed;
          }
          perObjectVersions := [];
        } else {
          SamePath(done, opts, perObjectVersions, contentCh, content);
        }
        atLeastOneObjectFound := true;
        perObjectVersions := perObjectVersions + [content];
        done := done + [content];
        i := i + 1;
        continue;
      }
      atLeastOneObjectFound := true;
      PlainEntry(done, opts, lastPath, perObjectVersions, contentCh, content);
      done := done + [content];
      i := i + 1;
      if content.hasTime {
        if opts.aged(content) {
          continue;
        }
      } else {
        continue;
      }
      var ok;
      ghost var before := contentCh;
      contentCh, ok := Hand(content, opts, contentCh, fatal);
      if !ok {
        PlainFailed(listing, i, opts, fatal, contentCh, done);
        return contentCh, Failed;
      }
    }
    Stopped(listing, i, opts, done);
    if opts.NonCurrent() {
      HeldIsTheRest(done, opts, lastPath, perObjectVersions, contentCh);
      var ok;
      contentCh, ok := Flush(perObjectVersions, opts, contentCh, fatal);
      if !ok {
        return contentCh, Failed;
      }
    } else {
      PlainHolds(done, opts, lastPath, perObjectVersions, contentCh);
    }
    if opts.isFake {
      return contentCh, Done;
    }
    if fatal(|contentCh|) {
      return contentCh, Failed;
    }
    if !atLeastOneObjectFound {
      return contentCh, if opts.isForce then Done else NothingFound;
    }
    return contentCh, Done;
  }

  lemma Start(ls: seq<Listed>, opts: Options)
    ensures Progress(ls, 0, opts, []) && Holding([], opts, "", [], [])
  {
    assert ls[0..] == ls;
    var none: seq<Content> := [];
    assert LastRun(none, 0) && none[0..] == none && none[..0] == none;
  }

  lemma LastPathIs(done: seq<Content>, opts: Options, lastPath: string, held: seq<Content>, sent: seq<Content>)
    requires opts.NonCurrent() && Holding(done, opts, lastPath, held, sent)
    ensures done != [] ==> done[|done| - 1].path == lastPath
  {
  }

  lemma PlainHolds(done: seq<Content>, opts: Options, lastPath: string, held: seq<Content>, sent: seq<Content>)
    requires !opts.NonCurrent()
    ensures Holding(done, opts, lastPath, held, sent) <==> sent == Filter(done, opts)
  {
  }

  lemma PlainEntry(done: seq<Content>, opts: Options, lastPath: string, held: seq<Content>, sent: seq<Content>,
                   c: Content)
    requires !opts.NonCurrent() && Holding(done, opts, lastPath, held, sent)
    ensures if c.hasTime && !opts.aged(c) then Holding(done + [c], opts, lastPath, held, sent + [c])
            else Holding(done + [c], opts, lastPath, held, sent)
    ensures c.hasTime && !opts.aged(c) ==> Filter(done + [c], opts) == sent + [c]
  {
    FilterSnoc(done, c, opts);
  }

  lemma BrokenPass(ls: seq<Listed>, opts: Options, fatal: nat -> bool, lastPath: string, held: seq<Content>,
                   sent: seq<Content>, done: seq<Content>)
    requires Seen(ls, opts) == done && EndOf(ls, opts).AtError? && Holding(done, opts, lastPath, held, sent)
    ensures HandsOver(ls, opts, fatal, sent)
  {
    hide Seen, EndOf, Filter, Smooth;
    if opts.NonCurrent() {
      var k: nat :| LastRun(done, k) && held == done[k..] && sent == Filter(done[..k], opts);
      FilterPrefix(done[..k], done[k..], opts);
      assert done == done[..k] + done[k..];
    }
  }

  /** A fatal result while handing over what `done` calls for. */
  lemma FailedPass(ls: seq<Listed>, i: nat, opts: Options, fatal: nat -> bool, sent: seq<Content>, done: seq<Content>)
    requires Progress(ls, i, opts, done) && sent <= Filter(done, opts)
    requires !Smooth(opts, fatal, |Filter(done, opts)|)
    ensures HandsOver(ls, opts, fatal, sent) && Ends(ls, opts, fatal, Failed)
  {
    FilterPrefix(done, Seen(ls[i..], opts), opts);
  }

  lemma PlainFailed(ls: seq<Listed>, i: nat, opts: Options, fatal: nat -> bool, sent: seq<Content>, done: seq<Content>)
    requires Progress(ls, i, opts, done) && !opts.isFake && sent < Filter(done, opts) && fatal(|sent|)
    ensures HandsOver(ls, opts, fatal, sent) && Ends(ls, opts, fatal, Failed)
  {
    FailedPass(ls, i, opts, fatal, sent, done);
  }

  // ---------- what follows ----------

  lemma {:induction false} FilterKeeps(cs: seq<Content>, opts: Options, c: Content)
    ensures c in Filter(cs, opts) <==> c in cs && Wanted(c, opts)
    decreases |cs|
  {
    if cs == [] {
    } else {
      FilterKeeps(cs[..|cs| - 1], opts, c);
      assert cs == cs[..|cs| - 1] + [cs[|cs| - 1]];
    }
  }

  // ---------- in plain terms ----------

  /** A bucket of an object store: its path is a slash and its name. */
  ghost predicate NamesBucket(c: Content) { c.objectStorage && exists name :: c.path == "/" + name && '/' !in name }

  /** The loop gets past this entry of the listing, or stops right behind it. */
  ghost predicate Passable(l: Listed, opts: Options) {
    && l != Broken
    && (l.Entry? && !NamesBucket(l.content) ==> opts.isRecursive || opts.matches(l.content))
  }

  /** The i-th entry is reached and looked at: nothing ends the loop before it, and it is not a bucket. */
  ghost predicate Reached(ls: seq<Listed>, i: nat, opts: Options) {
    i < |ls| && (forall j | 0 <= j <= i :: Passable(ls[j], opts)) && ls[i].Entry? && !NamesBucket(ls[i].content)
  }

  /** And it is to be removed: it has a time within the limits and, in the non-current mode, is not the live version. */
  ghost predicate Picked(ls: seq<Listed>, i: nat, opts: Options) {
    && Reached(ls, i, opts)
    && var c := ls[i].content;
       && c.hasTime && !opts.aged(c)
       && (opts.nonCurrentVersion && opts.isRecursive && opts.withVersions ==> c.isDeleteMarker || !c.isLatest)
  }

  /** What the first `n` entries of a listing call for, in their order. */
  ghost function Picks(ls: seq<Listed>, n: nat, opts: Options): seq<Content>
    requires n <= |ls|
  {
    if n == 0 then [] else Picks(ls, n - 1, opts) + if Picked(ls, n - 1, opts) then [ls[n - 1].content] else []
  }

  lemma BucketNames(c: Content)
    ensures NamesBucket(c) <==> IsBucketName(c)
  {
    if IsBucketName(c) {
      assert c.path == "/" + c.path[1..] && '/' !in c.path[1..];
    }
    if name :| c.path == "/" + name && '/' !in name {
      assert forall i | 1 <= i < |c.path| :: c.path[i] == name[i - 1];
    }
  }

  lemma PassableMeans(l: Listed, opts: Options)
    ensures Passable(l, opts) <==> !Stops(l, opts)
    ensures l.Entry? ==> (NamesBucket(l.content) <==> IsBucketName(l.content))
  {
    if l.Entry? {
      BucketNames(l.content);
    }
    hide NamesBucket, IsBucketName;
  }

  /** The entry if the loop looks at it. */
  function Look(l: Listed): seq<Content> {
    if l.Entry? && !IsBucketName(l.content) then [l.content] else []
  }

  /** One more entry is looked at if the loop gets past it and all before it. */
  lemma {:induction false} SeenSnoc(ls: seq<Listed>, l: Listed, opts: Options)
    ensures
      Seen(ls + [l], opts) == Seen(ls, opts) + if forall k | k in ls + [l] :: !Stops(k, opts) then Look(l) else []
    decreases |ls|
  {
    if ls == [] {
      assert ls + [l] == [l] && [l][1..] == [];
    } else {
      var all := ls + [l];
      assert all[1..] == ls[1..] + [l] && all[0] == ls[0];
      hide *;
      SeenSnoc(ls[1..], l, opts);
      PastAll(ls, l, opts);
      SeenStep(ls, opts);
      SeenStep(all, opts);
      if !Stops(ls[0], opts) {
        Regroup(Look(ls[0]), Seen(ls[1..], opts),
                if forall k | k in ls[1..] + [l] :: !Stops(k, opts) then Look(l) else []);
      }
    }
  }

  lemma Regroup(a: seq<Content>, b: seq<Content>, c: seq<Content>)
    ensures a + (b + c) == a + b + c
  {
  }

  lemma SeenStep(ls: seq<Listed>, opts: Options)
    requires ls != []
    ensures Seen(ls, opts) == if Stops(ls[0], opts) then [] else Look(ls[0]) + Seen(ls[1..], opts)
  {
  }

  lemma PastAll(ls: seq<Listed>, l: Listed, opts: Options)
    requires ls != []
    ensures (forall k | k in ls + [l] :: !Stops(k, opts)) <==>
            !Stops(ls[0], opts) && forall k | k in ls[1..] + [l] :: !Stops(k, opts)
  {
    hide Stops;
    assert ls == [ls[0]] + ls[1..];
    assert forall k :: k in ls + [l] <==> k == ls[0] || k in ls[1..] + [l];
  }

  lemma ReachedMeans(ls: seq<Listed>, n: nat, opts: Options)
    requires n < |ls|
    ensures Reached(ls, n, opts) <==>
            (forall k | k in ls[..n] + [ls[n]] :: !Stops(k, opts)) && ls[n].Entry? && !IsBucketName(ls[n].content)
  {
    forall j | 0 <= j < |ls| ensures Passable(ls[j], opts) <==> !Stops(ls[j], opts) {
      PassableMeans(ls[j], opts);
    }
    PassableMeans(ls[n], opts);
    hide Passable, Stops, IsBucketName, NamesBucket;
    assert ls[..n] + [ls[n]] == ls[..n + 1];
    assert forall j | 0 <= j <= n :: ls[..n + 1][j] == ls[j];
  }

  lemma PickedMeans(ls: seq<Listed>, i: nat, opts: Options)
    ensures Picked(ls, i, opts) <==> Reached(ls, i, opts) && Wanted(ls[i].content, opts)
  {
    hide Passable, NamesBucket;
  }

  lemma {:induction false} PicksAreFiltered(ls: seq<Listed>, n: nat, opts: Options)
    requires n <= |ls|
    ensures Picks(ls, n, opts) == Filter(Seen(ls[..n], opts), opts)
  {
    if n == 0 {
    } else {
      PicksAreFiltered(ls, n - 1, opts);
      assert ls[..n] == ls[..n - 1] + [ls[n - 1]];
      SeenSnoc(ls[..n - 1], ls[n - 1], opts);
      ReachedMeans(ls, n - 1, opts);
      PickedMeans(ls, n - 1, opts);
      hide Seen, Stops, IsBucketName, Reached, Picked, Filter, Wanted;
      var seen := Seen(ls[..n - 1], opts);
      assert seen + [] == seen && Filter(seen, opts) + [] == Filter(seen, opts);
      if Reached(ls, n - 1, opts) {
        FilterSnoc(seen, ls[n - 1].content, opts);
      }
    }
  }

  /** The listing breaks before anything else ends the loop. */
  ghost predicate Breaks(ls: seq<Listed>, opts: Options) {
    exists i: nat | i < |ls| :: ls[i] == Broken && forall j | 0 <= j < i :: Passable(ls[j], opts)
  }

  lemma {:induction false} BreaksAtError(ls: seq<Listed>, opts: Options)
    ensures Breaks(ls, opts) <==> EndOf(ls, opts) == AtError
    decreases |ls|
  {
    if ls == [] {
    } else {
      PassableMeans(ls[0], opts);
      BreaksAtError(ls[1..], opts);
      hide Passable, Stops;
      if Breaks(ls, opts) && ls[0] != Broken {
        var i: nat :| i < |ls| && ls[i] == Broken && forall j | 0 <= j < i :: Passable(ls[j], opts);
        assert ls[1..][i - 1] == Broken && forall j | 0 <= j < i - 1 :: ls[1..][j] == ls[j + 1];
      }
      if Passable(ls[0], opts) && Breaks(ls[1..], opts) {
        var i: nat :| i < |ls[1..]| && ls[1..][i] == Broken && forall j | 0 <= j < i :: Passable(ls[1..][j], opts);
        assert ls[i + 1] == Broken && forall j | 1 <= j < i + 1 :: ls[j] == ls[1..][j - 1];
      }
    }
  }

  /** Some entry is reached. */
  ghost predicate ReachesAny(ls: seq<Listed>, opts: Options) { exists i: nat :: Reached(ls, i, opts) }

  lemma {:induction false} ReachesSeen(ls: seq<Listed>, n: nat, opts: Options)
    requires n <= |ls|
    ensures Seen(ls[..n], opts) == [] <==> forall i: nat | i < n :: !Reached(ls, i, opts)
  {
    if n == 0 {
    } else {
      ReachesSeen(ls, n - 1, opts);
      assert ls[..n] == ls[..n - 1] + [ls[n - 1]];
      SeenSnoc(ls[..n - 1], ls[n - 1], opts);
      ReachedMeans(ls, n - 1, opts);
      hide Seen, Stops, IsBucketName, Reached;
    }
  }

  /**
    What a pass hands over and how it ends, in plain terms. While no result is fatal it hands over what the
    listing calls for, in listing order; only if the listing breaks in the non-current mode the versions of
    the last object are missing. With a fatal result it is a prefix. It fails if the listing breaks or,
    except in a dry run, a result is fatal up to the end; otherwise it has found nothing if no entry was
    reached, and the run is neither forced nor a dry run.
   */
  lemma PassInPlainTerms(ls: seq<Listed>, opts: Options, fatal: nat -> bool, sent: seq<Content>, outcome: Outcome)
    requires HandsOver(ls, opts, fatal, sent) && Ends(ls, opts, fatal, outcome)
    ensures sent <= Picks(ls, |ls|, opts)
    ensures (opts.isFake || forall i: nat | i < |Picks(ls, |ls|, opts)| :: !fatal(i))
            && !(Breaks(ls, opts) && opts.nonCurrentVersion && opts.isRecursive && opts.withVersions) ==>
              sent == Picks(ls, |ls|, opts)
    ensures outcome == Failed <==>
            Breaks(ls, opts) || (!opts.isFake && exists i: nat | i <= |Picks(ls, |ls|, opts)| :: fatal(i))
    ensures outcome == NothingFound <==> outcome != Failed && !ReachesAny(ls, opts) && !opts.isForce && !opts.isFake
  {
    assert ls[..|ls|] == ls;
    PicksAreFiltered(ls, |ls|, opts);
    BreaksAtError(ls, opts);
    ReachesSeen(ls, |ls|, opts);
    hide Seen, Filter, EndOf, Picks, Breaks, Reached;
  }

  /** However a pass ends, it never hands over a live version in the non-current mode, nor a prefix, nor an aged entry. */
  lemma LiveVersionsAreSafe(ls: seq<Listed>, opts: Options, fatal: nat -> bool, sent: seq<Content>, c: Content)
    requires HandsOver(ls, opts, fatal, sent) && c in sent
    ensures Entry(c) in ls && c.hasTime && !opts.aged(c)
    ensures opts.nonCurrentVersion && opts.isRecursive && opts.withVersions ==> !c.isLatest || c.isDeleteMarker
  {
    FilterKeeps(Seen(ls, opts), opts, c);
    SeenIsListed(ls, opts, c);
  }

  lemma {:induction false} SeenIsListed(ls: seq<Listed>, opts: Options, c: Content)
    ensures c in Seen(ls, opts) ==> Entry(c) in ls
    decreases |ls|
  {
    if ls == [] {
    } else {
      SeenIsListed(ls[1..], opts, c);
    }
  }

  lemma LastRunIsUnique(cs: seq<Content>, k: nat, l: nat)
    requires LastRun(cs, k) && LastRun(cs, l)
    ensures k == l
  {
  }

  /** A dry run announces what a real run without fatal results hands over. */
  lemma DryRunTellsTheTruth(ls: seq<Listed>, opts: Options, fatal: nat -> bool, announced: seq<Content>, sent: seq<Content>)
    requires !opts.isFake && forall i: nat :: !fatal(i)
    requires HandsOver(ls, opts.(isFake := true), fatal, announced) && HandsOver(ls, opts, fatal, sent)
    ensures announced == sent
  {
    FakeSeesTheSame(ls, opts);
    var seen := Seen(ls, opts);
    FakeFiltersTheSame(seen, opts);
    hide Seen, Filter, Wanted;
    if EndOf(ls, opts).AtError? && opts.NonCurrent() {
      var k: nat :| LastRun(seen, k) && announced == Filter(seen[..k], opts.(isFake := true));
      var l: nat :| LastRun(seen, l) && sent == Filter(seen[..l], opts);
      LastRunIsUnique(seen, k, l);
      FakeFiltersTheSame(seen[..k], opts);
    }
  }

  lemma {:induction false} FakeSeesTheSame(ls: seq<Listed>, opts: Options)
    ensures Seen(ls, opts.(isFake := true)) == Seen(ls, opts) && EndOf(ls, opts.(isFake := true)) == EndOf(ls, opts)
    decreases |ls|
  {
    if ls == [] {
    } else {
      FakeSeesTheSame(ls[1..], opts);
    }
  }

  lemma {:induction false} FakeFiltersTheSame(cs: seq<Content>, opts: Options)
    ensures Filter(cs, opts.(isFake := true)) == Filter(cs, opts)
    decreases |cs|
  {
    if cs == [] {
    } else {
      FakeFiltersTheSame(cs[..|cs| - 1], opts);
    }
  }

  // ---------- one pass or two ----------

  /** What the store lists for the options of a pass. */
  datatype Store = Store(listing: Options -> seq<Listed>, fatal: Options -> nat -> bool)

  function VersionPass(opts: Options): Options { opts.(isIncomplete := false) }

  function UploadPass(opts: Options): Options { opts.(timeRef := 0, withVersions := false) }

  /** What one pass hands over and how it ends. */
  ghost predicate PassResult(store: Store, opts: Options, handed: seq<Content>, outcome: Outcome) {
    && HandsOver(store.listing(opts), opts, store.fatal(opts), handed)
    && Ends(store.listing(opts), opts, store.fatal(opts), outcome)
  }

  /** Versions first and then unfinished uploads, the latter only if the former are done. */
  ghost predicate Results(opts: Options, store: Store, versions: seq<Content>, uploads: seq<Content>, outcome: Outcome) {
    if opts.withVersions && opts.isIncomplete then
      && HandsOver(store.listing(VersionPass(opts)), VersionPass(opts), store.fatal(VersionPass(opts)), versions)
      && if Ends(store.listing(VersionPass(opts)), VersionPass(opts), store.fatal(VersionPass(opts)), Done)
         then PassResult(store, UploadPass(opts), uploads, outcome)
         else
           && uploads == []
           && Ends(store.listing(VersionPass(opts)), VersionPass(opts), store.fatal(VersionPass(opts)), outcome)
    else PassResult(store, opts, versions, outcome) && uploads == []
  }

  /** listAndRemove: one pass, or two if versions and unfinished uploads were both asked for. */
  method ListAndRemove(opts: Options, store: Store) returns (versions: seq<Content>, uploads: seq<Content>, outcome: Outcome)
    ensures Results(opts, store, versions, uploads, outcome)
  {
    hide HandsOver, Ends;
    uploads := [];
    if opts.withVersions && opts.isIncomplete {
      var versionOpts := opts.(isIncomplete := false);
      versions, outcome := ListAndRemovePass(store.listing(versionOpts), versionOpts, store.fatal(versionOpts));
      OneOutcome(store.listing(versionOpts), versionOpts, store.fatal(versionOpts), outcome);
      if !outcome.Done? {
        return;
      }
      var incompleteOpts := opts.(timeRef := 0, withVersions := false);
      uploads, outcome := ListAndRemovePass(store.listing(incompleteOpts), incompleteOpts, store.fatal(incompleteOpts));
      return;
    }
    versions, outcome := ListAndRemovePass(store.listing(opts), opts, store.fatal(opts));
  }

  lemma OneOutcome(ls: seq<Listed>, opts: Options, fatal: nat -> bool, outcome: Outcome)
    requires Ends(ls, opts, fatal, outcome)
    ensures forall other :: Ends(ls, opts, fatal, other) <==> other == outcome
  {
  }

  /** No fatal result and no failing listing in either pass. */
  ghost predicate NothingFails(store: Store, v: Options, u: Options) {
    && !EndOf(store.listing(v), v).AtError? && !EndOf(store.listing(u), u).AtError?
    && (forall o, i :: !store.fatal(o)(i))
  }

  /**
    Asked for versions and unfinished uploads, a run in which nothing fails hands over the wanted uploads
    exactly if there are none, or the pass over the versions saw an entry, or the run is forced or a dry
    run: otherwise the first pass counts as having found nothing, and the second is never made.
   */
  lemma UploadsNeedVersions(
    opts: Options, store: Store, versions: seq<Content>, uploads: seq<Content>, outcome: Outcome, v: Options, u: Options)
    requires opts.withVersions && opts.isIncomplete && Results(opts, store, versions, uploads, outcome)
    requires v == opts.(isIncomplete := false) && u == opts.(timeRef := 0, withVersions := false)
    requires NothingFails(store, v, u)
    ensures versions == Filter(Seen(store.listing(v), v), v)
    ensures var wanted := Filter(Seen(store.listing(u), u), u);
      uploads == wanted <==> wanted == [] || Seen(store.listing(v), v) != [] || opts.isForce || opts.isFake
  {
    hide Seen, Filter, EndOf;
    assert Smooth(v, store.fatal(v), |Filter(Seen(store.listing(v), v), v)| + 1);
    assert Smooth(v, store.fatal(v), |Filter(Seen(store.listing(v), v), v)|);
    assert Smooth(u, store.fatal(u), |Filter(Seen(store.listing(u), u), u)|);
    assert !u.NonCurrent();
  }

  /** Unless both are asked for there is one pass, with the options as they are. */
  lemma OnePassUnlessBoth(opts: Options, store: Store, versions: seq<Content>, uploads: seq<Content>, outcome: Outcome)
    requires Results(opts, store, versions, uploads, outcome) && !(opts.withVersions && opts.isIncomplete)
    ensures HandsOver(store.listing(opts), opts, store.fatal(opts), versions) && uploads == []
    ensures Ends(store.listing(opts), opts, store.fatal(opts), outcome)
  {
    hide HandsOver, Ends;
  }

  /** With both, the second pass is made exactly if the first was done, and the last pass made decides the outcome. */
  lemma SecondPassIfDone(
    opts: Options, store: Store, versions: seq<Content>, uploads: seq<Content>, outcome: Outcome, v: Options, u: Options)
    requires Results(opts, store, versions, uploads, outcome) && opts.withVersions && opts.isIncomplete
    requires v == opts.(isIncomplete := false) && u == opts.(timeRef := 0, withVersions := false)
    ensures HandsOver(store.listing(v), v, store.fatal(v), versions)
    ensures Ends(store.listing(v), v, store.fatal(v), Done) ==>
      && HandsOver(store.listing(u), u, store.fatal(u), uploads)
      && Ends(store.listing(u), u, store.fatal(u), outcome)
    ensures !Ends(store.listing(v), v, store.fatal(v), Done) ==>
      uploads == [] && outcome != Done && Ends(store.listing(v), v, store.fatal(v), outcome)
  {
    hide HandsOver, Ends;
  }
}
