/** The comparison reports exactly the differences of two sorted listings, in key order. */
module DifferenceTheorems {
  import opened Strings
  import opened ClientUrl
  import opened Difference

  function Listing(cs: seq<Content>): (es: seq<Entry>)
    ensures |es| == |cs|
  {
    if cs == [] then [] else [Listed(cs[0])] + Listing(cs[1..])
  }

  /** Strictly increasing keys. */
  ghost predicate SourceSorted(ctx: Context, src: seq<Content>) {
    forall i, j | 0 <= i < j < |src| :: Less(SKey(ctx, src[i]), SKey(ctx, src[j]))
  }

  ghost predicate TargetSorted(ctx: Context, tgt: seq<Content>) {
    forall i, j | 0 <= i < j < |tgt| :: Less(TKey(ctx, tgt[i]), TKey(ctx, tgt[j]))
  }

  /** Listings the comparison is made for: sorted, valid UTF-8, and matching keys agree on being regular. */
  ghost predicate Comparable(ctx: Context, src: seq<Content>, tgt: seq<Content>) {
    && SourceSorted(ctx, src) && TargetSorted(ctx, tgt) && TypesAgree(ctx, src, tgt)
    && (forall x | x in src :: ctx.validSource(x))
    && (forall y | y in tgt :: ctx.validTarget(y))
  }

  /** Matching objects with valid names agree in type. */
  ghost predicate TypesAgree(ctx: Context, src: seq<Content>, tgt: seq<Content>) {
    forall x, y | x in src && y in tgt && Matches(ctx, x, y) && ctx.validSource(x) && ctx.validTarget(y) ::
      x.regular == y.regular
  }

  predicate Matches(ctx: Context, x: Content, y: Content) { SKey(ctx, x) == TKey(ctx, y) }

  ghost predicate InTarget(ctx: Context, x: Content, tgt: seq<Content>) { exists y :: y in tgt && Matches(ctx, x, y) }

  ghost predicate InSource(ctx: Context, y: Content, src: seq<Content>) { exists x :: x in src && Matches(ctx, x, y) }

  /** The symmetric difference: what is on one side only, and what is on both sides but differs. */
  ghost predicate IsDifference(ctx: Context, src: seq<Content>, tgt: seq<Content>, m: DiffMessage) {
    || (exists x :: x in src && !InTarget(ctx, x, tgt) && m == OnlyFirst(x))
    || (exists y :: y in tgt && !InSource(ctx, y, src) && m == OnlySecond(y))
    || (exists x, y :: x in src && y in tgt && Matches(ctx, x, y) && HowDiffer(ctx, x, y) != InNone
                       && m == Both(x, y, HowDiffer(ctx, x, y)))
  }

  /** The key a difference is about. */
  function KeyOf(ctx: Context, m: DiffMessage): string {
    match m
    case Diff(_, _, _, Some(x), _) => SKey(ctx, x)
    case Diff(_, _, _, None, Some(y)) => TKey(ctx, y)
    case _ => ""
  }

  ghost predicate InKeyOrder(ctx: Context, ms: seq<DiffMessage>) {
    forall i, j | 0 <= i < j < |ms| :: Less(KeyOf(ctx, ms[i]), KeyOf(ctx, ms[j]))
  }

  function Sent(ctx: Context, src: seq<Content>, tgt: seq<Content>): Run {
    RunOf(ctx, Listing(src), Listing(tgt), false, false)
  }

  // ---------- one round ----------

  /** Removing the head of the source when its key is below all target keys. */
  lemma PopSource(ctx: Context, src: seq<Content>, tgt: seq<Content>)
    requires src != [] && SourceSorted(ctx, src)
    requires forall y | y in tgt :: Less(SKey(ctx, src[0]), TKey(ctx, y))
    ensures forall m :: IsDifference(ctx, src, tgt, m) <==> m == OnlyFirst(src[0]) || IsDifference(ctx, src[1..], tgt, m)
  {
    var x0 := src[0];
    assert src == [x0] + src[1..];
    assert !InTarget(ctx, x0, tgt) by {
      forall y | y in tgt ensures !Matches(ctx, x0, y) {
        LessIrreflexive(SKey(ctx, x0));
      }
    }
    forall y | y in tgt
      ensures !Matches(ctx, x0, y)
      ensures InSource(ctx, y, src) <==> InSource(ctx, y, src[1..])
    {
      LessIrreflexive(SKey(ctx, x0));
    }
  }

  lemma PopTarget(ctx: Context, src: seq<Content>, tgt: seq<Content>)
    requires tgt != [] && TargetSorted(ctx, tgt)
    requires forall x | x in src :: Less(TKey(ctx, tgt[0]), SKey(ctx, x))
    ensures forall m :: IsDifference(ctx, src, tgt, m) <==> m == OnlySecond(tgt[0]) || IsDifference(ctx, src, tgt[1..], m)
  {
    var y0 := tgt[0];
    assert tgt == [y0] + tgt[1..];
    assert !InSource(ctx, y0, src) by {
      forall x | x in src ensures !Matches(ctx, x, y0) {
        LessIrreflexive(TKey(ctx, y0));
      }
    }
    forall x | x in src
      ensures !Matches(ctx, x, y0)
      ensures InTarget(ctx, x, tgt) <==> InTarget(ctx, x, tgt[1..])
    {
      LessIrreflexive(TKey(ctx, y0));
    }
  }

  lemma SourceTailApart(ctx: Context, src: seq<Content>, y0: Content, tgt: seq<Content>, x: Content)
    requires src != [] && tgt != [] && y0 == tgt[0] && SourceSorted(ctx, src) && Matches(ctx, src[0], y0) && x in src[1..]
    ensures !Matches(ctx, x, y0)
    ensures InTarget(ctx, x, tgt) <==> InTarget(ctx, x, tgt[1..])
  {
    var i :| 0 <= i < |src| - 1 && src[1..][i] == x;
    assert Less(SKey(ctx, src[0]), SKey(ctx, src[i + 1]));
    LessIrreflexive(SKey(ctx, src[0]));
    hide Less;
    assert tgt == [y0] + tgt[1..];
  }

  lemma TargetTailApart(ctx: Context, src: seq<Content>, x0: Content, tgt: seq<Content>, y: Content)
    requires src != [] && tgt != [] && x0 == src[0] && TargetSorted(ctx, tgt) && Matches(ctx, x0, tgt[0]) && y in tgt[1..]
    ensures !Matches(ctx, x0, y)
    ensures InSource(ctx, y, src) <==> InSource(ctx, y, src[1..])
  {
    var i :| 0 <= i < |tgt| - 1 && tgt[1..][i] == y;
    assert Less(TKey(ctx, tgt[0]), TKey(ctx, tgt[i + 1]));
    LessIrreflexive(TKey(ctx, tgt[0]));
    hide Less;
    assert src == [x0] + src[1..];
  }

  lemma PopBoth(ctx: Context, src: seq<Content>, tgt: seq<Content>)
    requires src != [] && tgt != [] && SourceSorted(ctx, src) && TargetSorted(ctx, tgt)
    requires Matches(ctx, src[0], tgt[0])
    ensures
      forall m :: IsDifference(ctx, src, tgt, m) <==>
        m in SentForPair(ctx, src[0], tgt[0], false) || IsDifference(ctx, src[1..], tgt[1..], m)
  {
    var x0, y0 := src[0], tgt[0];
    assert src == [x0] + src[1..] && tgt == [y0] + tgt[1..];
    assert InTarget(ctx, x0, tgt) && InSource(ctx, y0, src);
    forall x | x in src[1..]
      ensures !Matches(ctx, x, y0)
      ensures InTarget(ctx, x, tgt) <==> InTarget(ctx, x, tgt[1..])
    {
      SourceTailApart(ctx, src, y0, tgt, x);
    }
    forall y | y in tgt[1..]
      ensures !Matches(ctx, x0, y)
      ensures InSource(ctx, y, src) <==> InSource(ctx, y, src[1..])
    {
      TargetTailApart(ctx, src, x0, tgt, y);
    }
    hide Less, SourceSorted, TargetSorted, InTarget, InSource;
  }

  lemma HeadBelow(ctx: Context, k: string, src: seq<Content>)
    requires SourceSorted(ctx, src) && (src != [] ==> Less(k, SKey(ctx, src[0])))
    ensures forall x | x in src :: Less(k, SKey(ctx, x))
  {
    forall x | x in src ensures Less(k, SKey(ctx, x)) {
      var i :| 0 <= i < |src| && src[i] == x;
      if i > 0 {
        LessTransitive(k, SKey(ctx, src[0]), SKey(ctx, src[i]));
      }
    }
  }

  lemma TargetHeadBelow(ctx: Context, k: string, tgt: seq<Content>)
    requires TargetSorted(ctx, tgt) && (tgt != [] ==> Less(k, TKey(ctx, tgt[0])))
    ensures forall y | y in tgt :: Less(k, TKey(ctx, y))
  {
    forall y | y in tgt ensures Less(k, TKey(ctx, y)) {
      var i :| 0 <= i < |tgt| && tgt[i] == y;
      if i > 0 {
        LessTransitive(k, TKey(ctx, tgt[0]), TKey(ctx, tgt[i]));
      }
    }
  }

  lemma TailSorted(ctx: Context, src: seq<Content>)
    requires src != [] && SourceSorted(ctx, src)
    ensures SourceSorted(ctx, src[1..])
    ensures forall x | x in src[1..] :: Less(SKey(ctx, src[0]), SKey(ctx, x))
  {
  }

  lemma TargetTailSorted(ctx: Context, tgt: seq<Content>)
    requires tgt != [] && TargetSorted(ctx, tgt)
    ensures TargetSorted(ctx, tgt[1..])
    ensures forall y | y in tgt[1..] :: Less(TKey(ctx, tgt[0]), TKey(ctx, y))
  {
  }

  // ---------- the whole run ----------

  ghost predicate Exact(ctx: Context, src: seq<Content>, tgt: seq<Content>, run: Run) {
    && run.outcome == Completed
    && (forall m :: m in run.sent <==> IsDifference(ctx, src, tgt, m))
    && InKeyOrder(ctx, run.sent)
  }

  /** Putting the messages of one round in front of an exact remainder whose keys are all larger. */
  lemma Prepend(ctx: Context, k: string, sent: seq<DiffMessage>, src: seq<Content>, tgt: seq<Content>, later: Run)
    requires Exact(ctx, src, tgt, later) && |sent| <= 1
    requires forall m | m in sent :: KeyOf(ctx, m) == k
    requires forall x | x in src :: Less(k, SKey(ctx, x))
    requires forall y | y in tgt :: Less(k, TKey(ctx, y))
    ensures InKeyOrder(ctx, sent + later.sent)
  {
    forall m | m in later.sent ensures Less(k, KeyOf(ctx, m)) {
      assert IsDifference(ctx, src, tgt, m);
    }
  }

  lemma SourceStep(ctx: Context, src: seq<Content>, tgt: seq<Content>)
    requires Comparable(ctx, src, tgt)
    requires src != [] && (tgt == [] || Less(SKey(ctx, src[0]), TKey(ctx, tgt[0])))
    requires Exact(ctx, src[1..], tgt, Sent(ctx, src[1..], tgt))
    ensures Exact(ctx, src, tgt, Sent(ctx, src, tgt))
  {
    TailSorted(ctx, src);
    TargetHeadBelow(ctx, SKey(ctx, src[0]), tgt);
    PopSource(ctx, src, tgt);
    Advance(ctx, Listing(src), Listing(tgt), false, false, [OnlyFirst(src[0])], Listing(src[1..]), Listing(tgt));
    Prepend(ctx, SKey(ctx, src[0]), [OnlyFirst(src[0])], src[1..], tgt, Sent(ctx, src[1..], tgt));
  }

  lemma PairStep(ctx: Context, src: seq<Content>, tgt: seq<Content>)
    requires Comparable(ctx, src, tgt) && src != [] && tgt != [] && Matches(ctx, src[0], tgt[0])
    requires Exact(ctx, src[1..], tgt[1..], Sent(ctx, src[1..], tgt[1..]))
    ensures Exact(ctx, src, tgt, Sent(ctx, src, tgt))
  {
    LessIrreflexive(SKey(ctx, src[0]));
    TailSorted(ctx, src);
    TargetTailSorted(ctx, tgt);
    PopBoth(ctx, src, tgt);
    var sent := SentForPair(ctx, src[0], tgt[0], false);
    Advance(ctx, Listing(src), Listing(tgt), false, false, sent, Listing(src[1..]), Listing(tgt[1..]));
    Prepend(ctx, SKey(ctx, src[0]), sent, src[1..], tgt[1..], Sent(ctx, src[1..], tgt[1..]));
  }

  lemma TargetStep(ctx: Context, src: seq<Content>, tgt: seq<Content>)
    requires Comparable(ctx, src, tgt)
    requires tgt != [] && (src == [] || Less(TKey(ctx, tgt[0]), SKey(ctx, src[0])))
    requires Exact(ctx, src, tgt[1..], Sent(ctx, src, tgt[1..]))
    ensures Exact(ctx, src, tgt, Sent(ctx, src, tgt))
  {
    if src != [] {
      LessAsymmetric(TKey(ctx, tgt[0]), SKey(ctx, src[0]));
    }
    TargetTailSorted(ctx, tgt);
    HeadBelow(ctx, TKey(ctx, tgt[0]), src);
    PopTarget(ctx, src, tgt);
    Advance(ctx, Listing(src), Listing(tgt), false, false, [OnlySecond(tgt[0])], Listing(src), Listing(tgt[1..]));
    Prepend(ctx, TKey(ctx, tgt[0]), [OnlySecond(tgt[0])], src, tgt[1..], Sent(ctx, src, tgt[1..]));
  }

  /**
    On comparable listings without errors the comparison completes and sends exactly the differences:
    one message per source-only key, per target-only key and per common key whose objects differ,
    in increasing key order.
   */
  lemma {:induction false} ReportsExactlyTheDifferences(ctx: Context, src: seq<Content>, tgt: seq<Content>)
    requires Comparable(ctx, src, tgt)
    ensures Exact(ctx, src, tgt, Sent(ctx, src, tgt))
    decreases |src| + |tgt|
  {
    if src == [] && tgt == [] {
    } else {
      hide Exact, Sent, Less;
      if tgt == [] || (src != [] && Less(SKey(ctx, src[0]), TKey(ctx, tgt[0]))) {
        TailSorted(ctx, src);
        ReportsExactlyTheDifferences(ctx, src[1..], tgt);
        SourceStep(ctx, src, tgt);
      } else if src != [] && Matches(ctx, src[0], tgt[0]) {
        TailSorted(ctx, src);
        TargetTailSorted(ctx, tgt);
        ReportsExactlyTheDifferences(ctx, src[1..], tgt[1..]);
        PairStep(ctx, src, tgt);
      } else {
        if src != [] {
          LessTotal(SKey(ctx, src[0]), TKey(ctx, tgt[0]));
        }
        TargetTailSorted(ctx, tgt);
        ReportsExactlyTheDifferences(ctx, src, tgt[1..]);
        TargetStep(ctx, src, tgt);
      }
    }
  }

  // ---------- which kind of difference ----------

  /** The source's data is known to have been written later than the target's. */
  predicate Newer(lib: Library, x: Content, y: Content) {
    DataTime(lib, x).Some? && DataTime(lib, y).Some? && DataTime(lib, x).value > DataTime(lib, y).value
  }

  /** Some key other than the two replication stamps has different values, absent counting as empty. */
  ghost predicate MetadataDiffer(m1: map<string, string>, m2: map<string, string>) {
    exists k :: k != "X-Amz-Meta-Mm-Source-Mtime" && k != "x-amz-meta-mm-source-mtime" && Get(m1, k) != Get(m2, k)
  }

  lemma DifferMeansNotSame(m1: map<string, string>, m2: map<string, string>)
    ensures MetadataDiffer(m1, m2) <==> !MetadataAgree(m1, m2)
  {
    AgreeMeansSame(m1, m2);
  }

  /** The one kind that is reported for two objects, if any. */
  lemma HowTheyDiffer(ctx: Context, x: Content, y: Content)
    ensures HowDiffer(ctx, x, y) == InSize <==> x.size != y.size
    ensures HowDiffer(ctx, x, y) == InAASourceMTime <==> x.size == y.size && Newer(ctx.lib, x, y)
    ensures HowDiffer(ctx, x, y) == InMetadata <==>
            && x.size == y.size && !Newer(ctx.lib, x, y) && ctx.isMetadata
            && MetadataDiffer(x.userMetadata, y.userMetadata) && MetadataDiffer(x.metadata, y.metadata)
    ensures HowDiffer(ctx, x, y) in {InSize, InAASourceMTime, InMetadata, InNone}
  {
    UpdatedMeansLater(ctx.lib, x, y);
    DifferMeansNotSame(x.userMetadata, y.userMetadata);
    DifferMeansNotSame(x.metadata, y.metadata);
  }

  /**
    What is sent about two objects under one key: a difference in size exactly if the sizes differ; in
    time exactly if they agree and the source's data is newer; in metadata exactly if neither holds,
    metadata are compared and both kinds of them differ; and nothing else about either object.
   */
  lemma KindsAreExact(ctx: Context, src: seq<Content>, tgt: seq<Content>, x: Content, y: Content)
    requires Comparable(ctx, src, tgt) && x in src && y in tgt && Matches(ctx, x, y)
    ensures
      var sent := Sent(ctx, src, tgt).sent;
      && (Both(x, y, InSize) in sent <==> x.size != y.size)
      && (Both(x, y, InAASourceMTime) in sent <==> x.size == y.size && Newer(ctx.lib, x, y))
      && (Both(x, y, InMetadata) in sent <==>
            && x.size == y.size && !Newer(ctx.lib, x, y) && ctx.isMetadata
            && MetadataDiffer(x.userMetadata, y.userMetadata) && MetadataDiffer(x.metadata, y.metadata))
      && (forall m | m in sent && m.Diff? && (m.first == Some(x) || m.second == Some(y)) ::
            m in {Both(x, y, InSize), Both(x, y, InAASourceMTime), Both(x, y, InMetadata)})
  {
    ReportsExactlyTheDifferences(ctx, src, tgt);
    HowTheyDiffer(ctx, x, y);
    var sent, d := Sent(ctx, src, tgt).sent, HowDiffer(ctx, x, y);
    hide HowDiffer, Sent, Newer, MetadataDiffer;
    forall m | IsDifference(ctx, src, tgt, m) && (m.first == Some(x) || m.second == Some(y))
      ensures m == Both(x, y, d) && d != InNone
    {
      OnlyOneMatch(ctx, src, tgt, x, y, m);
    }
    assert d != InNone ==> IsDifference(ctx, src, tgt, Both(x, y, d));
  }

  /** A difference about one of two matching objects is about both. */
  lemma OnlyOneMatch(ctx: Context, src: seq<Content>, tgt: seq<Content>, x: Content, y: Content, m: DiffMessage)
    requires SourceSorted(ctx, src) && TargetSorted(ctx, tgt)
    requires x in src && y in tgt && Matches(ctx, x, y)
    requires IsDifference(ctx, src, tgt, m) && (m.first == Some(x) || m.second == Some(y))
    ensures m == Both(x, y, HowDiffer(ctx, x, y)) && HowDiffer(ctx, x, y) != InNone
  {
    hide HowDiffer;
    assert InTarget(ctx, x, tgt) && InSource(ctx, y, src);
    var x', y' :| x' in src && y' in tgt && Matches(ctx, x', y') && HowDiffer(ctx, x', y') != InNone
                  && m == Both(x', y', HowDiffer(ctx, x', y'));
    SameKeySameObject(ctx, src, x, x');
    SameKeySameTarget(ctx, tgt, y, y');
  }

  lemma SameKeySameObject(ctx: Context, src: seq<Content>, x: Content, x': Content)
    requires SourceSorted(ctx, src) && x in src && x' in src && SKey(ctx, x) == SKey(ctx, x')
    ensures x == x'
  {
    var i :| 0 <= i < |src| && src[i] == x;
    var j :| 0 <= j < |src| && src[j] == x';
    LessIrreflexive(SKey(ctx, x));
  }

  lemma SameKeySameTarget(ctx: Context, tgt: seq<Content>, y: Content, y': Content)
    requires TargetSorted(ctx, tgt) && y in tgt && y' in tgt && TKey(ctx, y) == TKey(ctx, y')
    ensures y == y'
  {
    var i :| 0 <= i < |tgt| && tgt[i] == y;
    var j :| 0 <= j < |tgt| && tgt[j] == y';
    LessIrreflexive(TKey(ctx, y));
  }

  // ---------- when the comparison ends ----------

  /** One round on two listings of objects: what it sends and what is left. */
  function RoundOn(ctx: Context, src: seq<Content>, tgt: seq<Content>): (seq<DiffMessage>, seq<Content>, seq<Content>)
    requires src != [] || tgt != []
  {
    if src == [] then ([OnlySecond(tgt[0])], src, tgt[1..])
    else if tgt == [] then ([OnlyFirst(src[0])], src[1..], tgt)
    else if !ctx.validSource(src[0]) then ([DiffFailure(InvalidSource(ctx.current(src[0])))], src[1..], tgt)
    else if !ctx.validTarget(tgt[0]) then ([DiffFailure(InvalidTarget(ctx.expected(tgt[0])))], src, tgt[1..])
    else if Less(SKey(ctx, src[0]), TKey(ctx, tgt[0])) then ([OnlyFirst(src[0])], src[1..], tgt)
    else if Matches(ctx, src[0], tgt[0]) then (SentForPair(ctx, src[0], tgt[0], false), src[1..], tgt[1..])
    else ([OnlySecond(tgt[0])], src, tgt[1..])
  }

  /** The first objects match, with valid names, and differ in type. */
  predicate Clash(ctx: Context, src: seq<Content>, tgt: seq<Content>) {
    && src != [] && tgt != [] && ctx.validSource(src[0]) && ctx.validTarget(tgt[0])
    && Matches(ctx, src[0], tgt[0]) && src[0].regular != tgt[0].regular
  }

  lemma SentRound(ctx: Context, src: seq<Content>, tgt: seq<Content>)
    requires (src != [] || tgt != []) && !Clash(ctx, src, tgt)
    ensures var (sent, src', tgt') := RoundOn(ctx, src, tgt);
      && |src'| + |tgt'| < |src| + |tgt|
      && Sent(ctx, src, tgt) == Run(sent + Sent(ctx, src', tgt').sent, Sent(ctx, src', tgt').outcome)
  {
    hide Less, SentForPair;
    var (sent, src', tgt') := RoundOn(ctx, src, tgt);
    assert src != [] ==> Listing(src)[1..] == Listing(src[1..]);
    assert tgt != [] ==> Listing(tgt)[1..] == Listing(tgt[1..]);
    Advance(ctx, Listing(src), Listing(tgt), false, false, sent, Listing(src'), Listing(tgt'));
  }

  lemma ClashSpins(ctx: Context, src: seq<Content>, tgt: seq<Content>)
    requires Clash(ctx, src, tgt)
    ensures Sent(ctx, src, tgt).outcome == Spinning
  {
    LessIrreflexive(SKey(ctx, src[0]));
  }

  /** A source object which no valid target object matches plays no part in the agreement of types. */
  lemma AgreeWithoutSource(ctx: Context, src: seq<Content>, tgt: seq<Content>)
    requires src != []
    requires forall y | y in tgt && Matches(ctx, src[0], y) && ctx.validSource(src[0]) && ctx.validTarget(y) ::
               src[0].regular == y.regular
    ensures TypesAgree(ctx, src, tgt) <==> TypesAgree(ctx, src[1..], tgt)
  {
    assert src == [src[0]] + src[1..];
  }

  lemma AgreeWithoutTarget(ctx: Context, src: seq<Content>, tgt: seq<Content>)
    requires tgt != []
    requires forall x | x in src && Matches(ctx, x, tgt[0]) && ctx.validSource(x) && ctx.validTarget(tgt[0]) ::
               x.regular == tgt[0].regular
    ensures TypesAgree(ctx, src, tgt) <==> TypesAgree(ctx, src, tgt[1..])
  {
    assert tgt == [tgt[0]] + tgt[1..];
  }

  lemma AgreeWithoutPair(ctx: Context, src: seq<Content>, tgt: seq<Content>)
    requires src != [] && tgt != [] && SourceSorted(ctx, src) && TargetSorted(ctx, tgt)
    requires Matches(ctx, src[0], tgt[0]) && src[0].regular == tgt[0].regular
    ensures TypesAgree(ctx, src, tgt) <==> TypesAgree(ctx, src[1..], tgt[1..])
  {
    forall y | y in tgt && Matches(ctx, src[0], y)
      ensures y == tgt[0]
    {
      if y in tgt[1..] {
        TargetTailApart(ctx, src, src[0], tgt, y);
      }
    }
    forall x | x in src[1..]
      ensures !Matches(ctx, x, tgt[0])
    {
      SourceTailApart(ctx, src, tgt[0], tgt, x);
    }
    hide Less, SourceSorted, TargetSorted, Matches, TypesAgree;
    AgreeWithoutSource(ctx, src, tgt);
    AgreeWithoutTarget(ctx, src[1..], tgt);
  }

  /** A round which takes something takes no pair of matching objects of different types apart. */
  lemma AgreeAfterRound(ctx: Context, src: seq<Content>, tgt: seq<Content>)
    requires (src != [] || tgt != []) && SourceSorted(ctx, src) && TargetSorted(ctx, tgt) && !Clash(ctx, src, tgt)
    ensures var (_, src', tgt') := RoundOn(ctx, src, tgt);
      && SourceSorted(ctx, src') && TargetSorted(ctx, tgt')
      && (TypesAgree(ctx, src, tgt) <==> TypesAgree(ctx, src', tgt'))
  {
    if src != [] && tgt != [] {
      LessTotal(SKey(ctx, src[0]), TKey(ctx, tgt[0]));
      LessIrreflexive(SKey(ctx, src[0]));
      LessIrreflexive(TKey(ctx, tgt[0]));
      if !ctx.validSource(src[0]) {
        AgreeWithoutSource(ctx, src, tgt);
      } else if !ctx.validTarget(tgt[0]) {
        AgreeWithoutTarget(ctx, src, tgt);
      } else if Less(SKey(ctx, src[0]), TKey(ctx, tgt[0])) {
        TargetHeadBelow(ctx, SKey(ctx, src[0]), tgt);
        AgreeWithoutSource(ctx, src, tgt);
      } else if Matches(ctx, src[0], tgt[0]) {
        AgreeWithoutPair(ctx, src, tgt);
      } else {
        HeadBelow(ctx, TKey(ctx, tgt[0]), src);
        AgreeWithoutTarget(ctx, src, tgt);
      }
    }
  }

  /**
    On any sorted listings without errors, names valid or not, the comparison completes exactly if
    matching objects with valid names agree in type.
   */
  lemma {:induction false} CompletesExactly(ctx: Context, src: seq<Content>, tgt: seq<Content>)
    requires SourceSorted(ctx, src) && TargetSorted(ctx, tgt)
    ensures Sent(ctx, src, tgt).outcome == if TypesAgree(ctx, src, tgt) then Completed else Spinning
    decreases |src| + |tgt|
  {
    if src == [] && tgt == [] {
    } else if Clash(ctx, src, tgt) {
      ClashSpins(ctx, src, tgt);
      assert src[0] in src && tgt[0] in tgt;
    } else {
      var (_, src', tgt') := RoundOn(ctx, src, tgt);
      SentRound(ctx, src, tgt);
      AgreeAfterRound(ctx, src, tgt);
      hide Sent, TypesAgree, SourceSorted, TargetSorted;
      CompletesExactly(ctx, src', tgt');
    }
  }

  /** Being in key order and holding exactly the differences leaves no freedom at all. */
  lemma {:induction false} OrderedContentsAreUnique(ctx: Context, ms: seq<DiffMessage>, ns: seq<DiffMessage>)
    requires InKeyOrder(ctx, ms) && InKeyOrder(ctx, ns)
    requires forall m :: m in ms <==> m in ns
    ensures ms == ns
  {
    if ns != [] {
      assert ns[0] in ms;
    }
    if ms == [] {
    } else {
      assert ms[0] in ns;
      var i :| 0 <= i < |ns| && ns[i] == ms[0];
      var j :| 0 <= j < |ms| && ms[j] == ns[0];
      if i > 0 && j > 0 {
        LessAsymmetric(KeyOf(ctx, ns[0]), KeyOf(ctx, ms[0]));
      }
      assert ms[0] == ns[0];
      forall m ensures m in ms[1..] <==> m in ns[1..] {
        TailHoldsTheRest(ctx, ms, m);
        TailHoldsTheRest(ctx, ns, m);
      }
      OrderedContentsAreUnique(ctx, ms[1..], ns[1..]);
      assert ms == [ms[0]] + ms[1..] && ns == [ns[0]] + ns[1..];
    }
  }

  lemma TailHoldsTheRest(ctx: Context, ms: seq<DiffMessage>, m: DiffMessage)
    requires ms != [] && InKeyOrder(ctx, ms)
    ensures m in ms[1..] <==> m in ms && m != ms[0]
  {
    if m in ms[1..] {
      var i :| 0 <= i < |ms| - 1 && ms[1..][i] == m;
      assert Less(KeyOf(ctx, ms[0]), KeyOf(ctx, ms[i + 1]));
      LessIrreflexive(KeyOf(ctx, m));
    }
    if m in ms && m != ms[0] {
      var i :| 0 <= i < |ms| && ms[i] == m;
      assert ms[1..][i - 1] == m;
    }
  }

  // ---------- stopping with the source ----------

  /** What is left of the target's listing when the loop has used up the source's, if it gets that far. */
  function TargetLeft(ctx: Context, src: seq<Entry>, tgt: seq<Entry>): Option<seq<Entry>>
    decreases |src| + |tgt|
  {
    if src == [] then Some(tgt)
    else
      var r := RoundOf(ctx, src, tgt, true, false);
      if r.Continue? && |r.src| + |r.tgt| < |src| + |tgt| then TargetLeft(ctx, r.src, r.tgt) else None
  }

  /** How a listing ends when it is read to its end. */
  function ReadOn(tgt: seq<Entry>): Outcome {
    if tgt == [] then Completed
    else if tgt[0].ListError? then ListingFailed(tgt[0].error)
    else ReadOn(tgt[1..])
  }

  ghost predicate TargetOnly(ms: seq<DiffMessage>) {
    forall i | 0 <= i < |ms| :: ms[i].Diff? && ms[i].diff == InSecond && ms[i].first.None?
  }

  lemma {:induction false} TargetReadOn(ctx: Context, tgt: seq<Entry>)
    ensures TargetOnly(RunOf(ctx, [], tgt, false, false).sent)
    ensures RunOf(ctx, [], tgt, false, false).outcome == ReadOn(tgt)
  {
    if tgt == [] {
    } else if tgt[0].Listed? {
      TargetReadOn(ctx, tgt[1..]);
      Advance(ctx, [], tgt, false, false, [OnlySecond(tgt[0].content)], [], tgt[1..]);
    }
  }

  /**
    On any input at all, a run that stops when the source is exhausted sends a prefix of what the full
    run sends, and the rest of the full run are objects only at the target. It completes exactly if it
    uses up the source, and then the full run ends as the rest of the target's listing does; otherwise
    both runs end alike.
   */
  lemma {:induction false} SourceListingIsAPrefix(ctx: Context, src: seq<Entry>, tgt: seq<Entry>)
    ensures
      var only, full := RunOf(ctx, src, tgt, true, false), RunOf(ctx, src, tgt, false, false);
      && only.sent <= full.sent && TargetOnly(full.sent[|only.sent|..])
      && (only.outcome == Completed <==> TargetLeft(ctx, src, tgt).Some?)
      && (full.outcome == match TargetLeft(ctx, src, tgt) case Some(left) => ReadOn(left) case None => only.outcome)
    decreases |src| + |tgt|
  {
    if src == [] {
      TargetReadOn(ctx, tgt);
    } else {
      var r := RoundOf(ctx, src, tgt, false, false);
      assert r == RoundOf(ctx, src, tgt, true, false);
      if r.Continue? {
        RoundPops(ctx, src, tgt, false, false);
        if |r.src| + |r.tgt| < |src| + |tgt| {
          SourceListingIsAPrefix(ctx, r.src, r.tgt);
          Advance(ctx, src, tgt, false, false, r.sent, r.src, r.tgt);
          Advance(ctx, src, tgt, true, false, r.sent, r.src, r.tgt);
          PrefixUnder(r.sent, RunOf(ctx, r.src, r.tgt, true, false).sent, RunOf(ctx, r.src, r.tgt, false, false).sent);
        }
      }
    }
  }

  lemma PrefixUnder(first: seq<DiffMessage>, a: seq<DiffMessage>, b: seq<DiffMessage>)
    requires a <= b
    ensures first + a <= first + b && (first + b)[|first + a|..] == b[|a|..]
  {
  }

  /** No source key lies beyond the target's keys. */
  ghost predicate WithinTarget(ctx: Context, src: seq<Content>, tgt: seq<Content>) {
    forall x | x in src :: exists y | y in tgt :: !Less(TKey(ctx, y), SKey(ctx, x))
  }

  lemma WithinShorterTarget(ctx: Context, src: seq<Content>, tgt: seq<Content>)
    requires tgt != [] && forall x | x in src :: Less(TKey(ctx, tgt[0]), SKey(ctx, x))
    ensures WithinTarget(ctx, src, tgt) <==> WithinTarget(ctx, src, tgt[1..])
  {
    hide Less;
    assert tgt == [tgt[0]] + tgt[1..];
  }

  lemma WithinShorterSource(ctx: Context, src: seq<Content>, tgt: seq<Content>)
    requires src != [] && tgt != [] && !Less(TKey(ctx, tgt[0]), SKey(ctx, src[0]))
    ensures WithinTarget(ctx, src, tgt) <==> WithinTarget(ctx, src[1..], tgt)
  {
    hide Less;
    assert src == [src[0]] + src[1..];
  }

  lemma LeftStep(ctx: Context, src: seq<Entry>, tgt: seq<Entry>, sent: seq<DiffMessage>, src': seq<Entry>, tgt': seq<Entry>)
    requires src != [] && RoundOf(ctx, src, tgt, true, false) == Continue(sent, src', tgt')
    requires |src'| + |tgt'| < |src| + |tgt|
    ensures TargetLeft(ctx, src, tgt) == TargetLeft(ctx, src', tgt')
  {
  }

  /** One round of the loop on valid heads, as far as what will be left is concerned. */
  lemma LeftAfterRound(ctx: Context, src: seq<Content>, tgt: seq<Content>, failing: seq<Entry>)
    requires src != [] && tgt != [] && ctx.validSource(src[0]) && ctx.validTarget(tgt[0])
    requires Matches(ctx, src[0], tgt[0]) ==> src[0].regular == tgt[0].regular
    ensures TargetLeft(ctx, Listing(src), Listing(tgt) + failing)
         == if Less(SKey(ctx, src[0]), TKey(ctx, tgt[0])) then
              TargetLeft(ctx, Listing(src[1..]), Listing(tgt) + failing)
            else if Matches(ctx, src[0], tgt[0]) then
              TargetLeft(ctx, Listing(src[1..]), Listing(tgt[1..]) + failing)
            else
              TargetLeft(ctx, Listing(src), Listing(tgt[1..]) + failing)
  {
    hide Less, SentForPair, TargetLeft;
    var x0, y0, ss, es := src[0], tgt[0], Listing(src), Listing(tgt) + failing;
    assert es == [Listed(y0)] + (Listing(tgt[1..]) + failing);
    assert es[1..] == Listing(tgt[1..]) + failing && ss[1..] == Listing(src[1..]);
    if Less(SKey(ctx, x0), TKey(ctx, y0)) {
      LeftStep(ctx, ss, es, [OnlyFirst(x0)], ss[1..], es);
    } else if Matches(ctx, x0, y0) {
      LeftStep(ctx, ss, es, SentForPair(ctx, x0, y0, false), ss[1..], es[1..]);
    } else {
      LeftStep(ctx, ss, es, [OnlySecond(y0)], ss, es[1..]);
    }
  }

  lemma FailsAtOnce(ctx: Context, src: seq<Content>, failing: seq<Entry>)
    requires src != [] && failing != [] && failing[0].ListError?
    ensures TargetLeft(ctx, Listing(src), Listing([]) + failing).None?
  {
    assert Listing([]) + failing == failing;
  }

  /**
    When the target's listing fails after the objects `tgt`, the loop uses up a comparable source first
    exactly if no source key lies beyond those of `tgt`.
   */
  lemma {:induction false} UsesUpSourceFirst(
    ctx: Context, src: seq<Content>, tgt: seq<Content>, failing: seq<Entry>)
    requires Comparable(ctx, src, tgt) && failing != [] && failing[0].ListError?
    ensures var left := TargetLeft(ctx, Listing(src), Listing(tgt) + failing);
      && (left.Some? <==> WithinTarget(ctx, src, tgt))
      && (left.Some? ==> ReadOn(left.value) == ListingFailed(failing[0].error))
    decreases |src| + |tgt|
  {
    if src == [] {
      ReadOnToFailure(tgt, failing);
    } else if tgt == [] {
      FailsAtOnce(ctx, src, failing);
      assert src[0] in src;
    } else {
      LeftAfterRound(ctx, src, tgt, failing);
      hide TargetLeft, Listing, Less, WithinTarget, ReadOn;
      TailSorted(ctx, src);
      TargetTailSorted(ctx, tgt);
      if Less(SKey(ctx, src[0]), TKey(ctx, tgt[0])) {
        LessAsymmetric(SKey(ctx, src[0]), TKey(ctx, tgt[0]));
        WithinShorterSource(ctx, src, tgt);
        UsesUpSourceFirst(ctx, src[1..], tgt, failing);
      } else if Matches(ctx, src[0], tgt[0]) {
        LessIrreflexive(SKey(ctx, src[0]));
        WithinShorterSource(ctx, src, tgt);
        WithinShorterTarget(ctx, src[1..], tgt);
        UsesUpSourceFirst(ctx, src[1..], tgt[1..], failing);
      } else {
        LessTotal(SKey(ctx, src[0]), TKey(ctx, tgt[0]));
        HeadBelow(ctx, TKey(ctx, tgt[0]), src);
        WithinShorterTarget(ctx, src, tgt);
        UsesUpSourceFirst(ctx, src, tgt[1..], failing);
      }
    }
  }

  lemma {:induction false} ReadOnToFailure(tgt: seq<Content>, failing: seq<Entry>)
    requires failing != [] && failing[0].ListError?
    ensures ReadOn(Listing(tgt) + failing) == ListingFailed(failing[0].error)
  {
    if tgt == [] {
      assert Listing(tgt) + failing == failing;
    } else {
      assert Listing(tgt) + failing == [Listed(tgt[0])] + (Listing(tgt[1..]) + failing);
      ReadOnToFailure(tgt[1..], failing);
    }
  }

  // ---------- when listings of object storage are comparable ----------

  /** The listing of a folder: each object's URL is the folder followed by its plain key, keys increasing. */
  ghost predicate FolderListing(folder: string, keys: seq<string>, cs: seq<Content>) {
    && |cs| == |keys|
    && (forall i | 0 <= i < |keys| :: cs[i].url == folder + keys[i] && Plain(keys[i]))
    && (forall i, j | 0 <= i < j < |keys| :: Less(keys[i], keys[j]))
  }

  lemma FolderJoin(folder: string, target: string, key: string)
    requires Folder(target) && Plain(key)
    ensures UrlJoinPath(target, TrimPrefix(folder + key, folder)) == target + key
  {
    assert (folder + key)[|folder|..] == key;
    JoinAppends(target, key);
  }

  /** Where the objects of a folder listing belong, and under which keys they are compared. */
  lemma FolderKeys(
    lib: Library, source: string, target: string, isMetadata: bool,
    keys: seq<string>, src: seq<Content>, keys': seq<string>, tgt: seq<Content>)
    requires Folder(target) && FolderListing(source, keys, src) && FolderListing(target, keys', tgt)
    ensures
      var ctx := UrlContext(lib, source, target, isMetadata);
      && (forall i | 0 <= i < |src| :: ctx.current(src[i]) == target + keys[i])
      && (forall i | 0 <= i < |src| :: SKey(ctx, src[i]) == lib.nfc(target + keys[i]))
      && (forall i | 0 <= i < |tgt| :: ctx.expected(tgt[i]) == target + keys'[i] == tgt[i].url)
      && (forall i | 0 <= i < |tgt| :: TKey(ctx, tgt[i]) == lib.nfc(target + keys'[i]))
  {
    var ctx := UrlContext(lib, source, target, isMetadata);
    forall i | 0 <= i < |src| ensures ctx.current(src[i]) == target + keys[i] {
      FolderJoin(source, target, keys[i]);
    }
    forall i | 0 <= i < |tgt| ensures ctx.expected(tgt[i]) == target + keys'[i] == tgt[i].url {
      FolderJoin(target, target, keys'[i]);
    }
  }

  /** Normalising the names below a folder keeps their order. */
  ghost predicate KeepsOrder(lib: Library, folder: string, keys: seq<string>) {
    forall i, j | 0 <= i < j < |keys| :: Less(lib.nfc(folder + keys[i]), lib.nfc(folder + keys[j]))
  }

  /**
    Listings of two folders in byte order of their keys are sorted for the comparison exactly if
    normalising their names at the target keeps the order; it does where it leaves the names alone.
   */
  lemma FolderListingsAreSorted(
    lib: Library, source: string, target: string, isMetadata: bool,
    keys: seq<string>, src: seq<Content>, keys': seq<string>, tgt: seq<Content>)
    requires Folder(target) && FolderListing(source, keys, src) && FolderListing(target, keys', tgt)
    ensures var ctx := UrlContext(lib, source, target, isMetadata);
      && (SourceSorted(ctx, src) <==> KeepsOrder(lib, target, keys))
      && (TargetSorted(ctx, tgt) <==> KeepsOrder(lib, target, keys'))
    ensures (forall k | k in keys :: lib.nfc(target + k) == target + k) ==> KeepsOrder(lib, target, keys)
    ensures (forall k | k in keys' :: lib.nfc(target + k) == target + k) ==> KeepsOrder(lib, target, keys')
  {
    FolderKeys(lib, source, target, isMetadata, keys, src, keys', tgt);
    StableKeepsOrder(lib, target, keys);
    StableKeepsOrder(lib, target, keys');
    assert |src| == |keys| && |tgt| == |keys'|;
    hide Less, Folder, FolderListing, UrlContext, SKey, TKey;
  }

  lemma StableKeepsOrder(lib: Library, folder: string, keys: seq<string>)
    requires forall i, j | 0 <= i < j < |keys| :: Less(keys[i], keys[j])
    ensures (forall k | k in keys :: lib.nfc(folder + k) == folder + k) ==> KeepsOrder(lib, folder, keys)
  {
    forall i, j | 0 <= i < j < |keys| ensures Less(folder + keys[i], folder + keys[j]) {
      LessUnderPrefix(folder, keys[i], keys[j]);
    }
    hide Less;
  }
}
