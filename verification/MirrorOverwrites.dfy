/** When a mirror run without overwriting writes over an object of the target. */
module MirrorOverwrites {
  import opened Strings
  import opened ClientUrl
  import opened Difference
  import opened DifferenceTheorems
  import opened Mirror
  import opened MirrorTheorems

  // ---------- the comparison of listings with invalid names ----------

  /** The listings this is about: sorted, and matching objects agree in type where their names are valid. */
  ghost predicate InOrder(ctx: Context, src: seq<Content>, tgt: seq<Content>) {
    SourceSorted(ctx, src) && TargetSorted(ctx, tgt) && TypesAgree(ctx, src, tgt)
  }

  lemma TailsInOrder(ctx: Context, src: seq<Content>, tgt: seq<Content>)
    requires InOrder(ctx, src, tgt)
    ensures src != [] ==> InOrder(ctx, src[1..], tgt)
    ensures tgt != [] ==> InOrder(ctx, src, tgt[1..])
    ensures src != [] && tgt != [] ==> InOrder(ctx, src[1..], tgt[1..])
  {
    hide Less;
  }

  lemma RoundStaysInOrder(ctx: Context, src: seq<Content>, tgt: seq<Content>)
    requires InOrder(ctx, src, tgt) && (src != [] || tgt != [])
    ensures InOrder(ctx, RoundOn(ctx, src, tgt).1, RoundOn(ctx, src, tgt).2)
  {
    hide InOrder;
    TailsInOrder(ctx, src, tgt);
  }

  /** Every message of kind InFirst is about an object of the source. */
  lemma {:induction false} FirstsComeFromSource(ctx: Context, src: seq<Content>, tgt: seq<Content>, m: DiffMessage)
    requires InOrder(ctx, src, tgt) && m in Sent(ctx, src, tgt).sent && m.Diff? && m.diff == InFirst
    ensures exists x :: x in src && m == OnlyFirst(x)
    decreases |src| + |tgt|
  {
    if src == [] && tgt == [] {
    } else {
      var (sent, src', tgt') := RoundOn(ctx, src, tgt);
      SentRound(ctx, src, tgt);
      RoundStaysInOrder(ctx, src, tgt);
      hide InOrder, Less, Sent;
      if m in sent {
        assert m == OnlyFirst(src[0]);
      } else {
        FirstsComeFromSource(ctx, src', tgt', m);
        var x :| x in src' && m == OnlyFirst(x);
        assert x in src;
      }
    }
  }

  lemma {:induction false} AllCopiedToNothing(ctx: Context, src: seq<Content>, x: Content)
    requires InOrder(ctx, src, []) && x in src
    ensures OnlyFirst(x) in Sent(ctx, src, []).sent
  {
    SentRound(ctx, src, []);
    TailsInOrder(ctx, src, []);
    if x == src[0] {
    } else {
      AllCopiedToNothing(ctx, src[1..], x);
    }
  }

  lemma HeadIsLeast(ctx: Context, src: seq<Content>, x: Content)
    requires SourceSorted(ctx, src) && x in src
    ensures x == src[0] ==> x !in src[1..]
    ensures x != src[0] ==> x in src[1..] && Less(SKey(ctx, src[0]), SKey(ctx, x))
  {
    TailSorted(ctx, src);
    LessIrreflexive(SKey(ctx, x));
    assert src == [src[0]] + src[1..];
  }

  lemma TargetHeadIsLeast(ctx: Context, tgt: seq<Content>, y: Content)
    requires TargetSorted(ctx, tgt) && y in tgt
    ensures y == tgt[0] ==> y !in tgt[1..]
    ensures y != tgt[0] ==> y in tgt[1..] && Less(TKey(ctx, tgt[0]), TKey(ctx, y))
  {
    TargetTailSorted(ctx, tgt);
    LessIrreflexive(TKey(ctx, y));
    assert tgt == [tgt[0]] + tgt[1..];
  }

  /** A round leaves a matching valid pair together, or takes the source object without calling it missing. */
  lemma PairAfterRound(ctx: Context, src: seq<Content>, tgt: seq<Content>, x: Content, y: Content)
    requires SourceSorted(ctx, src) && TargetSorted(ctx, tgt)
    requires x in src && y in tgt && Matches(ctx, x, y) && ctx.validSource(x) && ctx.validTarget(y)
    ensures var (sent, src', tgt') := RoundOn(ctx, src, tgt);
      OnlyFirst(x) !in sent && (x in src' ==> y in tgt')
  {
    HeadIsLeast(ctx, src, x);
    TargetHeadIsLeast(ctx, tgt, y);
    LessIrreflexive(SKey(ctx, x));
    if x == src[0] && y != tgt[0] {
      LessAsymmetric(TKey(ctx, tgt[0]), SKey(ctx, src[0]));
    }
    hide Less, SourceSorted, TargetSorted, SKey, TKey;
  }

  /** A valid object whose valid namesake is listed at the target is never sent as missing there. */
  lemma {:induction false} MatchedIsNotMissing(ctx: Context, src: seq<Content>, tgt: seq<Content>, x: Content, y: Content)
    requires InOrder(ctx, src, tgt)
    requires x in src && y in tgt && Matches(ctx, x, y) && ctx.validSource(x) && ctx.validTarget(y)
    ensures OnlyFirst(x) !in Sent(ctx, src, tgt).sent
    decreases |src| + |tgt|
  {
    var (sent, src', tgt') := RoundOn(ctx, src, tgt);
    SentRound(ctx, src, tgt);
    RoundStaysInOrder(ctx, src, tgt);
    PairAfterRound(ctx, src, tgt, x, y);
    hide *;
    if x in src' {
      MatchedIsNotMissing(ctx, src', tgt', x, y);
    } else if OnlyFirst(x) in Sent(ctx, src', tgt').sent {
      FirstsComeFromSource(ctx, src', tgt', OnlyFirst(x));
    }
  }

  /** A valid source object comes before `b`, and after every valid object of the target. */
  ghost predicate ValidBetween(ctx: Context, src: seq<Content>, tgt: seq<Content>, b: Content) {
    exists a | a in src ::
      && ctx.validSource(a) && Less(SKey(ctx, a), SKey(ctx, b))
      && forall y | y in tgt && ctx.validTarget(y) :: Less(TKey(ctx, y), SKey(ctx, a))
  }

  /** The target's listing reaches as far as `b`, or is empty. */
  predicate ReachesTo(ctx: Context, tgt: seq<Content>, b: Content) {
    tgt != [] ==>
      var last := tgt[|tgt| - 1];
      !Less(TKey(ctx, last), SKey(ctx, b)) && (ctx.validTarget(last) ==> TKey(ctx, last) != SKey(ctx, b))
  }

  lemma FirstIsNotBetween(ctx: Context, src: seq<Content>, tgt: seq<Content>)
    requires SourceSorted(ctx, src) && src != []
    ensures !ValidBetween(ctx, src, tgt, src[0])
  {
    forall a | a in src
      ensures !Less(SKey(ctx, a), SKey(ctx, src[0]))
    {
      HeadIsLeast(ctx, src, a);
      LessIrreflexive(SKey(ctx, src[0]));
      if a != src[0] {
        LessAsymmetric(SKey(ctx, src[0]), SKey(ctx, a));
      }
    }
    hide Less;
  }

  lemma BetweenWithoutSource(ctx: Context, src: seq<Content>, tgt: seq<Content>, b: Content)
    requires src != []
    requires !ctx.validSource(src[0]) || exists y | y in tgt :: ctx.validTarget(y) && !Less(TKey(ctx, y), SKey(ctx, src[0]))
    ensures ValidBetween(ctx, src, tgt, b) <==> ValidBetween(ctx, src[1..], tgt, b)
  {
    hide Less;
    assert src == [src[0]] + src[1..];
  }

  lemma BetweenWithoutTarget(ctx: Context, src: seq<Content>, tgt: seq<Content>, b: Content)
    requires tgt != []
    requires !ctx.validTarget(tgt[0]) || forall a | a in src :: Less(TKey(ctx, tgt[0]), SKey(ctx, a))
    ensures ValidBetween(ctx, src, tgt, b) <==> ValidBetween(ctx, src, tgt[1..], b)
  {
    hide Less;
    assert tgt == [tgt[0]] + tgt[1..];
  }

  lemma NothingValidBefore(ctx: Context, src: seq<Content>, tgt: seq<Content>, b: Content)
    requires src != [] && ctx.validSource(src[0]) && Less(SKey(ctx, src[0]), SKey(ctx, b))
    requires |tgt| == 1 && !ctx.validTarget(tgt[0])
    ensures ValidBetween(ctx, src, tgt, b)
  {
    hide Less;
    assert src[0] in src;
  }

  lemma BelowAllSources(ctx: Context, src: seq<Content>, k: string)
    requires src != [] && SourceSorted(ctx, src) && Less(k, SKey(ctx, src[0]))
    ensures forall a | a in src :: Less(k, SKey(ctx, a))
  {
    HeadBelow(ctx, k, src);
  }

  lemma BetweenAfterPair(ctx: Context, src: seq<Content>, tgt: seq<Content>, b: Content)
    requires InOrder(ctx, src, tgt) && src != [] && tgt != [] && Matches(ctx, src[0], tgt[0]) && ctx.validTarget(tgt[0])
    ensures ValidBetween(ctx, src, tgt, b) <==> ValidBetween(ctx, src[1..], tgt[1..], b)
  {
    LessIrreflexive(SKey(ctx, src[0]));
    TailSorted(ctx, src);
    assert tgt[0] in tgt;
    hide Less, ValidBetween;
    BetweenWithoutSource(ctx, src, tgt, b);
    BetweenWithoutTarget(ctx, src[1..], tgt, b);
  }

  /** The last object of the target goes with its heads only if it is invalid. */
  lemma ReachesFurther(ctx: Context, src: seq<Content>, tgt: seq<Content>, b: Content)
    requires InOrder(ctx, src, tgt) && tgt != [] && ReachesTo(ctx, tgt, b)
    requires b in src && src[0] != b
    ensures ReachesTo(ctx, tgt[1..], b)
    ensures tgt[1..] == [] ==> Less(SKey(ctx, src[0]), TKey(ctx, tgt[0]))
  {
    HeadIsLeast(ctx, src, b);
    if |tgt| == 1 {
      LessTotal(TKey(ctx, tgt[0]), SKey(ctx, b));
      if Less(SKey(ctx, b), TKey(ctx, tgt[0])) {
        LessTransitive(SKey(ctx, src[0]), SKey(ctx, b), TKey(ctx, tgt[0]));
      }
    }
  }

  /** An invalid object is sent as missing exactly if the target is used up before its turn comes. */
  lemma {:induction false} InvalidIsMissingExactly(ctx: Context, src: seq<Content>, tgt: seq<Content>, b: Content)
    requires InOrder(ctx, src, tgt) && b in src && !ctx.validSource(b) && ReachesTo(ctx, tgt, b)
    ensures OnlyFirst(b) in Sent(ctx, src, tgt).sent <==> tgt == [] || ValidBetween(ctx, src, tgt, b)
    decreases |src| + |tgt|
  {
    if tgt == [] {
      AllCopiedToNothing(ctx, src, b);
    } else {
      var x0, y0 := src[0], tgt[0];
      SentRound(ctx, src, tgt);
      TailsInOrder(ctx, src, tgt);
      HeadIsLeast(ctx, src, b);
      hide InOrder, Less, Sent, ReachesTo, ValidBetween;
      if b == x0 {
        FirstIsNotBetween(ctx, src, tgt);
        if OnlyFirst(b) in Sent(ctx, src[1..], tgt).sent {
          FirstsComeFromSource(ctx, src[1..], tgt, OnlyFirst(b));
        }
      } else if !ctx.validSource(x0) {
        BetweenWithoutSource(ctx, src, tgt, b);
        InvalidIsMissingExactly(ctx, src[1..], tgt, b);
      } else {
        ReachesFurther(ctx, src, tgt, b);
        if !ctx.validTarget(y0) {
          BetweenWithoutTarget(ctx, src, tgt, b);
          InvalidIsMissingExactly(ctx, src, tgt[1..], b);
          if tgt[1..] == [] {
            NothingValidBefore(ctx, src, tgt, b);
          }
        } else if Less(SKey(ctx, x0), TKey(ctx, y0)) {
          LessAsymmetric(SKey(ctx, x0), TKey(ctx, y0));
          BetweenWithoutSource(ctx, src, tgt, b);
          InvalidIsMissingExactly(ctx, src[1..], tgt, b);
        } else if Matches(ctx, x0, y0) {
          BetweenAfterPair(ctx, src, tgt, b);
          InvalidIsMissingExactly(ctx, src[1..], tgt[1..], b);
        } else {
          LessTotal(SKey(ctx, x0), TKey(ctx, y0));
          BelowAllSources(ctx, src, TKey(ctx, y0));
          BetweenWithoutTarget(ctx, src, tgt, b);
          InvalidIsMissingExactly(ctx, src, tgt[1..], b);
        }
      }
    }
  }

  // ---------- every invalid name is spoken of ----------

  lemma {:induction false} FailuresComeFromSource(ctx: Context, src: seq<Content>, tgt: seq<Content>, url: string)
    requires InOrder(ctx, src, tgt) && DiffFailure(InvalidSource(url)) in Sent(ctx, src, tgt).sent
    ensures exists x :: x in src && ctx.current(x) == url
    decreases |src| + |tgt|
  {
    if src == [] && tgt == [] {
    } else {
      var (sent, src', tgt') := RoundOn(ctx, src, tgt);
      SentRound(ctx, src, tgt);
      RoundStaysInOrder(ctx, src, tgt);
      hide InOrder, Less, Sent;
      if DiffFailure(InvalidSource(url)) in sent {
        assert src[0] in src;
      } else {
        FailuresComeFromSource(ctx, src', tgt', url);
        var x :| x in src' && ctx.current(x) == url;
        assert x in src;
      }
    }
  }

  lemma {:induction false} FailuresComeFromTarget(ctx: Context, src: seq<Content>, tgt: seq<Content>, url: string)
    requires InOrder(ctx, src, tgt) && DiffFailure(InvalidTarget(url)) in Sent(ctx, src, tgt).sent
    ensures exists y :: y in tgt && ctx.expected(y) == url
    decreases |src| + |tgt|
  {
    if src == [] && tgt == [] {
    } else {
      var (sent, src', tgt') := RoundOn(ctx, src, tgt);
      SentRound(ctx, src, tgt);
      RoundStaysInOrder(ctx, src, tgt);
      hide InOrder, Less, Sent;
      if DiffFailure(InvalidTarget(url)) in sent {
        assert tgt[0] in tgt;
      } else {
        FailuresComeFromTarget(ctx, src', tgt', url);
        var y :| y in tgt' && ctx.expected(y) == url;
        assert y in tgt;
      }
    }
  }

  lemma {:induction false} SecondsComeFromTarget(ctx: Context, src: seq<Content>, tgt: seq<Content>, m: DiffMessage)
    requires InOrder(ctx, src, tgt) && m in Sent(ctx, src, tgt).sent && m.Diff? && m.diff == InSecond
    ensures exists y :: y in tgt && m == OnlySecond(y)
    decreases |src| + |tgt|
  {
    if src == [] && tgt == [] {
    } else {
      var (sent, src', tgt') := RoundOn(ctx, src, tgt);
      SentRound(ctx, src, tgt);
      RoundStaysInOrder(ctx, src, tgt);
      hide InOrder, Less, Sent;
      if m in sent {
        assert m == OnlySecond(tgt[0]);
      } else {
        SecondsComeFromTarget(ctx, src', tgt', m);
        var y :| y in tgt' && m == OnlySecond(y);
        assert y in tgt;
      }
    }
  }

  /** What one round says of an invalid source object: nothing while it is not the first, and then one thing. */
  lemma InvalidSourceRound(ctx: Context, src: seq<Content>, tgt: seq<Content>, b: Content)
    requires SourceSorted(ctx, src) && b in src && !ctx.validSource(b)
    ensures var (sent, src', tgt') := RoundOn(ctx, src, tgt);
      && (b in src' ==> OnlyFirst(b) !in sent && DiffFailure(InvalidSource(ctx.current(b))) !in sent)
      && (b !in src' ==> sent == [if tgt == [] then OnlyFirst(b) else DiffFailure(InvalidSource(ctx.current(b)))])
      && (b !in src' ==> forall x | x in src' :: ctx.current(x) != ctx.current(b))
  {
    HeadIsLeast(ctx, src, b);
    LessIrreflexive(SKey(ctx, b));
    forall x | x in src && x != b ensures ctx.current(x) != ctx.current(b) {
      if ctx.current(x) == ctx.current(b) {
        SameKeySameObject(ctx, src, x, b);
      }
    }
    hide Less, SentForPair, SKey, TKey, SourceSorted;
    assert src == [src[0]] + src[1..];
    PairSaysNeither(ctx, src, tgt, b);
  }

  lemma PairSaysNeither(ctx: Context, src: seq<Content>, tgt: seq<Content>, b: Content)
    ensures src != [] && tgt != [] ==>
      && OnlyFirst(b) !in SentForPair(ctx, src[0], tgt[0], false)
      && forall e :: DiffFailure(e) !in SentForPair(ctx, src[0], tgt[0], false)
  {
    if src != [] && tgt != [] {
      DiffersInSomething(ctx, src[0], tgt[0]);
      hide HowDiffer;
    }
  }

  /**
    An object of the source with an invalid name is spoken of in exactly one way: it is reported as
    invalid, or sent as missing at the target.
   */
  lemma {:induction false} InvalidSourceIsReported(ctx: Context, src: seq<Content>, tgt: seq<Content>, b: Content)
    requires InOrder(ctx, src, tgt) && b in src && !ctx.validSource(b)
    ensures DiffFailure(InvalidSource(ctx.current(b))) in Sent(ctx, src, tgt).sent <==>
            OnlyFirst(b) !in Sent(ctx, src, tgt).sent
    decreases |src| + |tgt|
  {
    var (sent, src', tgt') := RoundOn(ctx, src, tgt);
    SentRound(ctx, src, tgt);
    RoundStaysInOrder(ctx, src, tgt);
    InvalidSourceRound(ctx, src, tgt, b);
    hide *;
    if b in src' {
      InvalidSourceIsReported(ctx, src', tgt', b);
    } else {
      if OnlyFirst(b) in Sent(ctx, src', tgt').sent {
        FirstIsFirst(b);
        SameFirst(b);
        FirstsComeFromSource(ctx, src', tgt', OnlyFirst(b));
      }
      if DiffFailure(InvalidSource(ctx.current(b))) in Sent(ctx, src', tgt').sent {
        FailuresComeFromSource(ctx, src', tgt', ctx.current(b));
      }
      FirstIsFirst(b);
    }
  }

  lemma FirstIsFirst(x: Content)
    ensures OnlyFirst(x).Diff? && OnlyFirst(x).diff == InFirst
  {
  }

  lemma SameFirst(x: Content)
    ensures forall y | OnlyFirst(x) == OnlyFirst(y) :: x == y
  {
  }

  lemma InvalidTargetRound(ctx: Context, src: seq<Content>, tgt: seq<Content>, b: Content)
    requires TargetSorted(ctx, tgt) && b in tgt && !ctx.validTarget(b)
    ensures var (sent, src', tgt') := RoundOn(ctx, src, tgt);
      && (b in tgt' ==> OnlySecond(b) !in sent && DiffFailure(InvalidTarget(ctx.expected(b))) !in sent)
      && (b !in tgt' ==> sent == [if src == [] then OnlySecond(b) else DiffFailure(InvalidTarget(ctx.expected(b)))])
      && (b !in tgt' ==> forall y | y in tgt' :: ctx.expected(y) != ctx.expected(b))
  {
    TargetHeadIsLeast(ctx, tgt, b);
    LessIrreflexive(TKey(ctx, b));
    forall y | y in tgt && y != b ensures ctx.expected(y) != ctx.expected(b) {
      if ctx.expected(y) == ctx.expected(b) {
        SameKeySameTarget(ctx, tgt, y, b);
      }
    }
    hide Less, SentForPair, SKey, TKey, TargetSorted;
    assert tgt == [tgt[0]] + tgt[1..];
    TargetSaysNeither(ctx, src, tgt, b);
  }

  lemma TargetSaysNeither(ctx: Context, src: seq<Content>, tgt: seq<Content>, b: Content)
    ensures src != [] && tgt != [] ==>
      && OnlySecond(b) !in SentForPair(ctx, src[0], tgt[0], false)
      && forall e :: DiffFailure(e) !in SentForPair(ctx, src[0], tgt[0], false)
  {
    if src != [] && tgt != [] {
      DiffersInSomething(ctx, src[0], tgt[0]);
      hide HowDiffer;
    }
  }

  /** And so is an object of the target with an invalid name: it is reported, or sent as missing at the source. */
  lemma {:induction false} InvalidTargetIsReported(ctx: Context, src: seq<Content>, tgt: seq<Content>, b: Content)
    requires InOrder(ctx, src, tgt) && b in tgt && !ctx.validTarget(b)
    ensures DiffFailure(InvalidTarget(ctx.expected(b))) in Sent(ctx, src, tgt).sent <==>
            OnlySecond(b) !in Sent(ctx, src, tgt).sent
    decreases |src| + |tgt|
  {
    var (sent, src', tgt') := RoundOn(ctx, src, tgt);
    SentRound(ctx, src, tgt);
    RoundStaysInOrder(ctx, src, tgt);
    InvalidTargetRound(ctx, src, tgt, b);
    hide *;
    if b in tgt' {
      InvalidTargetIsReported(ctx, src', tgt', b);
    } else {
      SecondIsSecond(b);
      if OnlySecond(b) in Sent(ctx, src', tgt').sent {
        SecondsComeFromTarget(ctx, src', tgt', OnlySecond(b));
      }
      if DiffFailure(InvalidTarget(ctx.expected(b))) in Sent(ctx, src', tgt').sent {
        FailuresComeFromTarget(ctx, src', tgt', ctx.expected(b));
      }
    }
  }

  lemma SecondIsSecond(y: Content)
    ensures OnlySecond(y).Diff? && OnlySecond(y).diff == InSecond
    ensures forall z | OnlySecond(y) == OnlySecond(z) :: y == z
  {
  }

  // ---------- what is overwritten ----------

  /** Objects spelled alike at the target agree in the validity of their names. */
  ghost predicate SpellingDecidesValidity(ctx: Context, src: seq<Content>, tgt: seq<Content>) {
    forall x, y | x in src && y in tgt && ctx.current(x) == y.url :: ctx.validSource(x) == ctx.validTarget(y)
  }

  /** The options under which a run is meant to leave all existing objects alone. */
  predicate Preserving(opts: Options) { !opts.isOverwrite && !opts.isRemove && !opts.isFake && !opts.activeActive }

  /**
    An object with an invalid name is present on both sides and passes the filters, and a valid source
    object lies before it and after every valid object of the target.
   */
  ghost predicate LateInvalidName(ctx: Context, job: Job, src: seq<Content>, tgt: seq<Content>, store: Store) {
    exists b | b in src ::
      && !ctx.validSource(b) && ctx.current(b) in store && ValidBetween(ctx, src, tgt, b)
      && !job.excluded(OnlyFirst(b)) && !job.wrongAge(b)
  }

  lemma NamesakeIsReached(ctx: Context, src: seq<Content>, tgt: seq<Content>, store: Store, b: Content)
    requires TargetSorted(ctx, tgt) && Lists(ctx, tgt, store) && SpellingDecidesValidity(ctx, src, tgt)
    requires b in src && ctx.current(b) in store
    ensures var y := store[ctx.current(b)];
      && y in tgt && y.url == ctx.current(b) && Matches(ctx, b, y) && ctx.validTarget(y) == ctx.validSource(b)
    ensures tgt != [] && (!ctx.validSource(b) ==> ReachesTo(ctx, tgt, b))
  {
    var y := store[ctx.current(b)];
    var last := tgt[|tgt| - 1];
    var i :| 0 <= i < |tgt| && tgt[i] == y;
    assert i < |tgt| - 1 ==> Less(TKey(ctx, y), TKey(ctx, last));
    LessIrreflexive(TKey(ctx, y));
    if i < |tgt| - 1 {
      LessAsymmetric(TKey(ctx, y), TKey(ctx, last));
    }
  }

  /** A message that only the source has an object leads to its copy, unless a filter skips it. */
  lemma TaskOfMissing(job: Job, x: Content)
    ensures TasksFor(job, OnlyFirst(x))
         == if job.excluded(OnlyFirst(x)) || job.wrongAge(x) then [] else [DoMirror(x, job.targetPath(x.url))]
  {
    if !job.excluded(OnlyFirst(x)) {
      SinglePlan(job, Copy(x, job.targetPath(x.url)));
    }
  }

  /** Under preserving options every task is the copy of an object sent as missing at the target. */
  lemma OnlyMissingAreCopied(ctx: Context, job: Job, src: seq<Content>, tgt: seq<Content>, t: Task)
    requires InOrder(ctx, src, tgt) && Serves(ctx, job) && Preserving(job.opts)
    ensures t in PlannedTasks(ctx, job, src, tgt) <==>
            && t.DoMirror? && t.source in src && t.path == ctx.current(t.source)
            && OnlyFirst(t.source) in Sent(ctx, src, tgt).sent
            && !job.excluded(OnlyFirst(t.source)) && !job.wrongAge(t.source)
  {
    var ms := RunMessages(ctx, Listing(src), Listing(tgt), false);
    PlannedInFull(ctx, job, src, tgt);
    QueuedFrom(job, ms, t);
    hide PlannedTasks, Queued;
    if t in PlannedTasks(ctx, job, src, tgt) {
      var m :| m in ms && t in TasksFor(job, m);
      TasksOfMessage(job, m, t);
      FirstsComeFromSource(ctx, src, tgt, m);
      TaskOfMissing(job, t.source);
    } else if t.DoMirror? {
      TaskOfMissing(job, t.source);
    }
  }

  /**
    With overwriting, removing, dry run and active-active all off, some planned copy writes a name the
    target has exactly if an invalid name comes late: the comparison skips invalid names on either side
    while both listings last, but copies them once the target's is used up.
   */
  lemma OverwritesExactly(ctx: Context, job: Job, src: seq<Content>, tgt: seq<Content>, store: Store)
    requires InOrder(ctx, src, tgt) && Serves(ctx, job) && Lists(ctx, tgt, store)
    requires SpellingDecidesValidity(ctx, src, tgt) && Preserving(job.opts)
    ensures (exists t :: t in PlannedTasks(ctx, job, src, tgt) && t.Target() in store) <==>
            LateInvalidName(ctx, job, src, tgt, store)
  {
    if t :| t in PlannedTasks(ctx, job, src, tgt) && t.Target() in store {
      OnlyMissingAreCopied(ctx, job, src, tgt, t);
      var b := t.source;
      NamesakeIsReached(ctx, src, tgt, store, b);
      if ctx.validSource(b) {
        MatchedIsNotMissing(ctx, src, tgt, b, store[ctx.current(b)]);
      }
      InvalidIsMissingExactly(ctx, src, tgt, b);
    }
    if LateInvalidName(ctx, job, src, tgt, store) {
      var b :| && b in src && !ctx.validSource(b) && ctx.current(b) in store && ValidBetween(ctx, src, tgt, b)
               && !job.excluded(OnlyFirst(b)) && !job.wrongAge(b);
      NamesakeIsReached(ctx, src, tgt, store, b);
      InvalidIsMissingExactly(ctx, src, tgt, b);
      OnlyMissingAreCopied(ctx, job, src, tgt, DoMirror(b, ctx.current(b)));
      assert DoMirror(b, ctx.current(b)).Target() in store;
    }
  }

  lemma {:induction false} Untouched(
    job: Job, put: (Content, string) -> Content, store: Store, tasks: seq<Task>, k: string)
    requires forall t | t in tasks :: t.Target() != k
    ensures k in Execute(job, put, store, tasks) <==> k in store
    ensures k in store ==> Execute(job, put, store, tasks)[k] == store[k]
    decreases |tasks|
  {
    if tasks == [] {
    } else {
      assert tasks[|tasks| - 1] in tasks;
      Untouched(job, put, store, tasks[..|tasks| - 1], k);
    }
  }

  /**
    Without a late invalid name, no execution of planned tasks, in any order, complete or not, changes
    an object the target had: tasks only write absent names.
   */
  lemma NothingIsOverwritten(
    ctx: Context, job: Job, src: seq<Content>, tgt: seq<Content>, store: Store,
    put: (Content, string) -> Content, tasks: seq<Task>)
    requires InOrder(ctx, src, tgt) && Serves(ctx, job) && Lists(ctx, tgt, store)
    requires SpellingDecidesValidity(ctx, src, tgt) && Preserving(job.opts)
    requires !LateInvalidName(ctx, job, src, tgt, store)
    requires forall t | t in tasks :: t in PlannedTasks(ctx, job, src, tgt)
    ensures forall t | t in tasks :: t.DoMirror? && t.path !in store
    ensures forall k | k in store :: k in Execute(job, put, store, tasks) && Execute(job, put, store, tasks)[k] == store[k]
  {
    OverwritesExactly(ctx, job, src, tgt, store);
    forall t | t in tasks
      ensures t.DoMirror? && t.path !in store
    {
      OnlyMissingAreCopied(ctx, job, src, tgt, t);
      assert t.Target() !in store;
    }
    forall k | k in store
      ensures k in Execute(job, put, store, tasks) && Execute(job, put, store, tasks)[k] == store[k]
    {
      Untouched(job, put, store, tasks, k);
    }
  }

  /** Listings whose names are all valid hold no such name. */
  lemma ValidNamesAreSafe(ctx: Context, job: Job, src: seq<Content>, tgt: seq<Content>, store: Store)
    requires Comparable(ctx, src, tgt)
    ensures InOrder(ctx, src, tgt) && SpellingDecidesValidity(ctx, src, tgt)
    ensures !LateInvalidName(ctx, job, src, tgt, store)
  {
  }

  /** What is sent in the smallest such run: a valid object, an invalid one after it, and only the latter at the target. */
  lemma InvalidNameIsSent(ctx: Context, a: Content, b: Content, y: Content)
    requires ctx.validSource(a) && !ctx.validTarget(y)
    ensures Sent(ctx, [a, b], [y])
         == Run([DiffFailure(InvalidTarget(ctx.expected(y))), OnlyFirst(a), OnlyFirst(b)], Completed)
  {
    hide Less, TypesAgree, Sent;
    assert [a, b][1..] == [b] && [b][1..] == [] && [y][1..] == [];
    SentRound(ctx, [a, b], [y]);
    SentRound(ctx, [a, b], []);
    SentRound(ctx, [b], []);
    NothingIsSent(ctx);
  }

  lemma NothingIsSent(ctx: Context)
    ensures Sent(ctx, [], []) == Run([], Completed)
  {
  }

  /** There the object at the target is written over. */
  lemma InvalidNameIsOverwritten(ctx: Context, job: Job, a: Content, b: Content, y: Content)
    requires Serves(ctx, job) && (forall m :: !job.excluded(m)) && (forall x :: !job.wrongAge(x))
    requires ctx.validSource(a) && !ctx.validSource(b) && !ctx.validTarget(y)
    requires ctx.current(b) == y.url
    ensures DoMirror(b, y.url) in PlannedTasks(ctx, job, [a, b], [y])
  {
    InvalidNameIsSent(ctx, a, b, y);
    var ms := RunMessages(ctx, Listing([a, b]), Listing([y]), false);
    assert OnlyFirst(b) in ms;
    TaskOfMissing(job, b);
    assert DoMirror(b, y.url) in TasksFor(job, OnlyFirst(b));
    hide *;
    PlannedInFull(ctx, job, [a, b], [y]);
    QueuedFrom(job, ms, DoMirror(b, y.url));
  }
}
