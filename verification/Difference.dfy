/** The streaming comparison of two sorted listings. */
module Difference {
  import opened Strings
  import opened ClientUrl

  /** What a listing says about one object; the zero instant of the clock is 0. */
  datatype Content = Content(
    url: string, size: int, time: int, regular: bool, storageClass: string,
    userMetadata: map<string, string>, metadata: map<string, string>)

  /** One element of a listing channel. */
  datatype Entry = Listed(content: Content) | ListError(error: ListingError)

  datatype ListingError =
    | PathNotFound | PathInsufficientPermission | PathNotADirectory
    | ErrorResponse(code: string)
    | OtherError(text: string)

  datatype DiffType =
    | InUnknown | InNone | InSize | InMetadata | InType | InFirst | InSecond | InAASourceMTime

  datatype DiffError = InvalidSource(url: string) | InvalidTarget(url: string) | CannotList(failure: ListingError)

  datatype DiffMessage =
    | Diff(firstURL: string, secondURL: string, diff: DiffType, first: Option<Content>, second: Option<Content>)
    | DiffFailure(error: DiffError)

  /** The parts of the standard library the comparison calls. */
  datatype Library = Library(nfc: string -> string, validUtf8: string -> bool, parseTime: string -> Option<int>)

  /**
    What one comparison works with. `current` and `expected` say where a source and a target object
    belong at the target, `validSource` and `validTarget` whether its suffix is valid UTF-8.
   */
  datatype Context = Context(
    lib: Library,
    current: Content -> string, expected: Content -> string,
    validSource: Content -> bool, validTarget: Content -> bool,
    isMetadata: bool)

  /** The context of comparing the listings below two URLs. */
  function UrlContext(lib: Library, sourceURL: string, targetURL: string, isMetadata: bool): Context {
    Context(
      lib,
      (x: Content) => UrlJoinPath(targetURL, TrimPrefix(x.url, sourceURL)),
      (y: Content) => UrlJoinPath(targetURL, TrimPrefix(y.url, targetURL)),
      (x: Content) => lib.validUtf8(TrimPrefix(x.url, sourceURL)),
      (y: Content) => lib.validUtf8(TrimPrefix(y.url, targetURL)),
      isMetadata)
  }

  // ---------- comparing two objects ----------

  const MTIME_KEY := "X-Amz-Meta-Mm-Source-Mtime"
  const MTIME_KEY_LOWER := "x-amz-meta-mm-source-mtime"
  const MTIME_SHORT_LOWER := "mm-source-mtime"
  const MTIME_SHORT := "Mm-Source-Mtime"

  function Get(m: map<string, string>, k: string): string {
    if k in m then m[k] else ""
  }

  function SourceModTimeKey(m: map<string, string>): string {
    if Get(m, MTIME_KEY) != "" then Get(m, MTIME_KEY)
    else if Get(m, MTIME_KEY_LOWER) != "" then Get(m, MTIME_KEY_LOWER)
    else if Get(m, MTIME_SHORT_LOWER) != "" then Get(m, MTIME_SHORT_LOWER)
    else Get(m, MTIME_SHORT)
  }

  /** The stamp is the first nonempty value under the four spellings of its key, and empty only if none has one. */
  lemma StampIsFirst(m: map<string, string>)
    ensures
      var keys := ["X-Amz-Meta-Mm-Source-Mtime", "x-amz-meta-mm-source-mtime", "mm-source-mtime", "Mm-Source-Mtime"];
      var stamp := SourceModTimeKey(m);
      && (stamp == "" <==> forall i | 0 <= i < 4 :: Get(m, keys[i]) == "")
      && (stamp != "" ==> exists i | 0 <= i < 4 ::
            && keys[i] in m && m[keys[i]] == stamp
            && forall j | 0 <= j < i :: Get(m, keys[j]) == "")
  {
    var keys := ["X-Amz-Meta-Mm-Source-Mtime", "x-amz-meta-mm-source-mtime", "mm-source-mtime", "Mm-Source-Mtime"];
    assert keys[0] == MTIME_KEY && keys[1] == MTIME_KEY_LOWER && keys[2] == MTIME_SHORT_LOWER && keys[3] == MTIME_SHORT;
  }

  /** activeActiveModTimeUpdated: is the data at the target older than the data at the source? */
  function ModTimeUpdated(lib: Library, src: Content, dst: Content): bool {
    if src.time == 0 || dst.time == 0 then false
    else
      var srcModTime, dstModTime := SourceModTimeKey(src.userMetadata), SourceModTimeKey(dst.userMetadata);
      if srcModTime == "" && dstModTime == "" then src.time > dst.time
      else
        var srcOrigin := if srcModTime != "" then lib.parseTime(srcModTime) else Some(0);
        var dstOrigin := if dstModTime != "" then lib.parseTime(dstModTime) else Some(0);
        if srcOrigin.None? || dstOrigin.None? then false
        else
          var srcActual := if srcOrigin.value != 0 && srcOrigin.value > src.time then srcOrigin.value else src.time;
          var dstActual := if dstOrigin.value != 0 && dstOrigin.value > dst.time then dstOrigin.value else dst.time;
          srcActual > dstActual
  }

  /** When an object's data was last written anywhere: none if nothing trustworthy is known. */
  function DataTime(lib: Library, c: Content): Option<int> {
    if c.time == 0 then None
    else if SourceModTimeKey(c.userMetadata) == "" then Some(c.time)
    else
      match lib.parseTime(SourceModTimeKey(c.userMetadata))
      case None => None
      case Some(t) => Some(if t > c.time && t != 0 then t else c.time)
  }

  /** The test says: both data times are known, and the source's is later. */
  lemma UpdatedMeansLater(lib: Library, src: Content, dst: Content)
    ensures ModTimeUpdated(lib, src, dst) <==>
            DataTime(lib, src).Some? && DataTime(lib, dst).Some? && DataTime(lib, src).value > DataTime(lib, dst).value
  {
  }

  predicate Ignored(k: string) { k == MTIME_KEY || k == MTIME_KEY_LOWER }

  /** Same value for every key, absent counting as empty, the replication stamps aside. */
  ghost predicate SameMetadata(m1: map<string, string>, m2: map<string, string>) {
    forall k :: !Ignored(k) ==> Get(m1, k) == Get(m2, k)
  }

  predicate CoveredBy(m1: map<string, string>, m2: map<string, string>) {
    forall k | k in m1 :: Ignored(k) || Get(m2, k) == m1[k]
  }

  predicate MetadataAgree(m1: map<string, string>, m2: map<string, string>) {
    CoveredBy(m1, m2) && CoveredBy(m2, m1)
  }

  lemma AgreeMeansSame(m1: map<string, string>, m2: map<string, string>)
    ensures MetadataAgree(m1, m2) <==> SameMetadata(m1, m2)
  {
    if SameMetadata(m1, m2) {
      forall k | k in m1 ensures Ignored(k) || Get(m2, k) == m1[k] {
        assert Get(m1, k) == m1[k];
      }
      forall k | k in m2 ensures Ignored(k) || Get(m1, k) == m2[k] {
        assert Get(m2, k) == m2[k];
      }
    }
  }

  method Covers(m1: map<string, string>, m2: map<string, string>) returns (equal: bool)
    ensures equal == CoveredBy(m1, m2)
  {
    var keys := m1.Keys;
    while keys != {}
      invariant keys <= m1.Keys
      invariant forall k | k in m1 && k !in keys :: Ignored(k) || Get(m2, k) == m1[k]
      decreases |keys|
    {
      var k :| k in keys;
      keys := keys - {k};
      if Ignored(k) {
        continue;
      }
      if Get(m2, k) != m1[k] {
        return false;
      }
    }
    return true;
  }

  /** metadataEqual, one loop per map. */
  method MetadataEqual(m1: map<string, string>, m2: map<string, string>) returns (equal: bool)
    ensures equal <==> SameMetadata(m1, m2)
    ensures equal == MetadataAgree(m1, m2)
  {
    AgreeMeansSame(m1, m2);
    var first := Covers(m1, m2);
    if !first {
      return false;
    }
    equal := Covers(m2, m1);
  }

  /** How two objects under one key differ: size, else data time, else (when asked) both kinds of metadata. */
  function HowDiffer(ctx: Context, x: Content, y: Content): DiffType {
    if x.size != y.size then InSize
    else if ModTimeUpdated(ctx.lib, x, y) then InAASourceMTime
    else if ctx.isMetadata && !MetadataAgree(x.userMetadata, y.userMetadata) && !MetadataAgree(x.metadata, y.metadata)
    then InMetadata
    else InNone
  }

  /** A pair which differs in nothing but metadata is reported exactly if both kinds of metadata differ. */
  lemma MetadataNeedsBoth(ctx: Context, x: Content, y: Content)
    requires ctx.isMetadata && x.size == y.size && !ModTimeUpdated(ctx.lib, x, y)
    ensures HowDiffer(ctx, x, y) == InMetadata <==>
            !SameMetadata(x.userMetadata, y.userMetadata) && !SameMetadata(x.metadata, y.metadata)
    ensures HowDiffer(ctx, x, y) == InNone <==>
            SameMetadata(x.userMetadata, y.userMetadata) || SameMetadata(x.metadata, y.metadata)
  {
    AgreeMeansSame(x.userMetadata, y.userMetadata);
    AgreeMeansSame(x.metadata, y.metadata);
  }

  // ---------- keys ----------

  function SKey(ctx: Context, x: Content): string { ctx.lib.nfc(ctx.current(x)) }

  function TKey(ctx: Context, y: Content): string { ctx.lib.nfc(ctx.expected(y)) }

  function OnlyFirst(x: Content): DiffMessage { Diff(x.url, "", InFirst, Some(x), None) }

  function OnlySecond(y: Content): DiffMessage { Diff("", y.url, InSecond, None, Some(y)) }

  function Both(x: Content, y: Content, diff: DiffType): DiffMessage { Diff(x.url, y.url, diff, Some(x), Some(y)) }

  // ---------- one round of the loop ----------

  datatype Round =
    | Exit
    | Fail(error: ListingError)
    | Continue(sent: seq<DiffMessage>, src: seq<Entry>, tgt: seq<Entry>)

  /** What is sent for two objects with one key, types agreeing. */
  function SentForPair(ctx: Context, x: Content, y: Content, returnSimilar: bool): seq<DiffMessage> {
    (if HowDiffer(ctx, x, y) != InNone then [Both(x, y, HowDiffer(ctx, x, y))] else [])
    + (if returnSimilar then [Both(x, y, InNone)] else [])
  }

  function RoundOf(ctx: Context, src: seq<Entry>, tgt: seq<Entry>, sourceListingOnly: bool,
                   returnSimilar: bool): Round {
    if src == [] && (sourceListingOnly || tgt == []) then Exit
    else if src != [] && src[0].ListError? then Fail(src[0].error)
    else if tgt != [] && tgt[0].ListError? then Fail(tgt[0].error)
    else if src == [] then Continue([OnlySecond(tgt[0].content)], src, tgt[1..])
    else if tgt == [] then Continue([OnlyFirst(src[0].content)], src[1..], tgt)
    else
      var x, y := src[0].content, tgt[0].content;
      if !ctx.validSource(x) then
        Continue([DiffFailure(InvalidSource(ctx.current(x)))], src[1..], tgt)
      else if !ctx.validTarget(y) then
        Continue([DiffFailure(InvalidTarget(ctx.expected(y)))], src, tgt[1..])
      else if Less(SKey(ctx, x), TKey(ctx, y)) then
        Continue([OnlyFirst(x)], src[1..], tgt)
      else if SKey(ctx, x) == TKey(ctx, y) then
        if x.regular != y.regular then Continue([Both(x, y, InType)], src, tgt)
        else Continue(SentForPair(ctx, x, y, returnSimilar), src[1..], tgt[1..])
      else
        Continue([OnlySecond(y)], src, tgt[1..])
  }

  /** The loop either pops an entry or stays where it is, and it stays only on a type mismatch. */
  lemma RoundPops(ctx: Context, src: seq<Entry>, tgt: seq<Entry>, only: bool, similar: bool)
    requires RoundOf(ctx, src, tgt, only, similar).Continue?
    ensures
      var r := RoundOf(ctx, src, tgt, only, similar);
      || |r.src| + |r.tgt| < |src| + |tgt|
      || (r.src == src && r.tgt == tgt && StuckAt(ctx, src, tgt))
  {
  }

  predicate StuckAt(ctx: Context, src: seq<Entry>, tgt: seq<Entry>) {
    && src != [] && tgt != [] && src[0].Listed? && tgt[0].Listed?
    && ctx.validSource(src[0].content) && ctx.validTarget(tgt[0].content)
    && SKey(ctx, src[0].content) == TKey(ctx, tgt[0].content)
    && src[0].content.regular != tgt[0].content.regular
  }

  /** The state of the loop after `n` rounds, if it is still running then. */
  function Rounds(ctx: Context, src: seq<Entry>, tgt: seq<Entry>, only: bool, similar: bool, n: nat): Round {
    var r := RoundOf(ctx, src, tgt, only, similar);
    if n == 0 || !r.Continue? then Continue([], src, tgt)
    else
      var later := Rounds(ctx, r.src, r.tgt, only, similar, n - 1);
      if later.Continue? then later.(sent := r.sent + later.sent) else later
  }

  /** A matching key with one regular side and one not is reported again and again, and the loop never ends. */
  lemma {:induction false} MismatchSpinsForever(
    ctx: Context, src: seq<Entry>, tgt: seq<Entry>, only: bool, similar: bool, n: nat)
    requires StuckAt(ctx, src, tgt)
    ensures
      var r := Rounds(ctx, src, tgt, only, similar, n);
      && r.Continue? && r.src == src && r.tgt == tgt && |r.sent| == n
      && forall i | 0 <= i < n :: r.sent[i] == Both(src[0].content, tgt[0].content, InType)
  {
    LessIrreflexive(SKey(ctx, src[0].content));
    if n == 0 {
    } else {
      MismatchSpinsForever(ctx, src, tgt, only, similar, n - 1);
    }
  }

  // ---------- the whole loop ----------

  datatype Outcome = Completed | ListingFailed(error: ListingError) | Spinning

  datatype Run = Run(sent: seq<DiffMessage>, outcome: Outcome)

  /** All messages of a run; a run that comes to a round that leaves everything as it is never gets past it. */
  function RunOf(ctx: Context, src: seq<Entry>, tgt: seq<Entry>, only: bool, similar: bool): Run
    decreases |src| + |tgt|
  {
    match RoundOf(ctx, src, tgt, only, similar)
    case Exit => Run([], Completed)
    case Fail(error) => Run([], ListingFailed(error))
    case Continue(sent, src', tgt') =>
      RoundPops(ctx, src, tgt, only, similar);
      if |src'| + |tgt'| < |src| + |tgt| then
        var later := RunOf(ctx, src', tgt', only, similar);
        Run(sent + later.sent, later.outcome)
      else Run(sent, Spinning)
  }

  lemma Advance(
    ctx: Context, src: seq<Entry>, tgt: seq<Entry>, only: bool, similar: bool,
    sent: seq<DiffMessage>, src': seq<Entry>, tgt': seq<Entry>)
    requires RoundOf(ctx, src, tgt, only, similar) == Continue(sent, src', tgt')
    requires |src'| + |tgt'| < |src| + |tgt|
    ensures RunOf(ctx, src, tgt, only, similar)
         == Run(sent + RunOf(ctx, src', tgt', only, similar).sent, RunOf(ctx, src', tgt', only, similar).outcome)
  {
  }

  /** The part of the loop that compares two objects with the same key and type. */
  method ComparePair(ctx: Context, x: Content, y: Content, returnSimilar: bool) returns (sent: seq<DiffMessage>)
    ensures sent == SentForPair(ctx, x, y, returnSimilar)
  {
    sent := [];
    if x.size != y.size {
      sent := sent + [Both(x, y, InSize)];
    } else if ModTimeUpdated(ctx.lib, x, y) {
      sent := sent + [Both(x, y, InAASourceMTime)];
    } else if ctx.isMetadata {
      var userEqual := MetadataEqual(x.userMetadata, y.userMetadata);
      var equal := MetadataEqual(x.metadata, y.metadata);
      if !userEqual && !equal {
        sent := sent + [Both(x, y, InMetadata)];
      }
    }
    if returnSimilar {
      sent := sent + [Both(x, y, InNone)];
    }
  }

  /** The body of the loop: `src` and `tgt` start with the entries popped and not yet dealt with. */
  method NextRound(ctx: Context, src: seq<Entry>, tgt: seq<Entry>, sourceListingOnly: bool, returnSimilar: bool)
    returns (r: Round)
    ensures r == RoundOf(ctx, src, tgt, sourceListingOnly, returnSimilar)
  {
    var srcEOF, tgtEOF := src == [], tgt == [];
    if sourceListingOnly {
      if srcEOF {
        return Exit;
      }
    } else {
      if srcEOF && tgtEOF {
        return Exit;
      }
    }
    if !srcEOF && src[0].ListError? {
      return Fail(src[0].error);
    }
    if !tgtEOF && tgt[0].ListError? {
      return Fail(tgt[0].error);
    }
    if srcEOF {
      return Continue([OnlySecond(tgt[0].content)], src, tgt[1..]);
    }
    if tgtEOF {
      return Continue([OnlyFirst(src[0].content)], src[1..], tgt);
    }
    var x, y := src[0].content, tgt[0].content;
    var current, expected := ctx.current(x), ctx.expected(y);
    if !ctx.validSource(x) {
      return Continue([DiffFailure(InvalidSource(current))], src[1..], tgt);
    }
    if !ctx.validTarget(y) {
      return Continue([DiffFailure(InvalidTarget(expected))], src, tgt[1..]);
    }
    var normalizedCurrent, normalizedExpected := ctx.lib.nfc(current), ctx.lib.nfc(expected);
    if Less(normalizedCurrent, normalizedExpected) {
      return Continue([OnlyFirst(x)], src[1..], tgt);
    }
    if normalizedExpected == normalizedCurrent {
      if (x.regular && !y.regular) || (!x.regular && y.regular) {
        return Continue([Both(x, y, InType)], src, tgt);
      }
      var sent := ComparePair(ctx, x, y, returnSimilar);
      return Continue(sent, src[1..], tgt[1..]);
    }
    return Continue([OnlySecond(y)], src, tgt[1..]);
  }

  /**
    differenceInternal. When a round leaves both sides as they are, everything the loop looks at is
    unchanged: it would run the same round for ever, so the run is reported as spinning.
   */
  method DifferenceInternal(ctx: Context, srcCh: seq<Entry>, tgtCh: seq<Entry>, sourceListingOnly: bool,
                            returnSimilar: bool)
    returns (diffCh: seq<DiffMessage>, outcome: Outcome, rounds: nat)
    ensures Run(diffCh, outcome) == RunOf(ctx, srcCh, tgtCh, sourceListingOnly, returnSimilar)
    ensures outcome.Completed? ==> rounds <= |srcCh| + |tgtCh|
  {
    diffCh, outcome, rounds := [], Completed, 0;
    var src, tgt := srcCh, tgtCh;
    while true
      invariant
        var later := RunOf(ctx, src, tgt, sourceListingOnly, returnSimilar);
        RunOf(ctx, srcCh, tgtCh, sourceListingOnly, returnSimilar) == Run(diffCh + later.sent, later.outcome)
      invariant rounds + |src| + |tgt| <= |srcCh| + |tgtCh|
      decreases |src| + |tgt|
    {
      var r := NextRound(ctx, src, tgt, sourceListingOnly, returnSimilar);
      match r
      case Exit =>
        return;
      case Fail(error) =>
        outcome := ListingFailed(error);
        return;
      case Continue(sent, src', tgt') =>
        RoundPops(ctx, src, tgt, sourceListingOnly, returnSimilar);
        diffCh, rounds := diffCh + sent, rounds + 1;
        if |src'| + |tgt'| == |src| + |tgt| {
          outcome := Spinning;
          return;
        }
        Advance(ctx, src, tgt, sourceListingOnly, returnSimilar, sent, src', tgt');
        src, tgt := src', tgt';
    }
  }

  // ---------- failures of a listing ----------

  /** The failures of a listing which are sent on; any other is printed and ends the comparison without a message. */
  predicate Reported(e: ListingError) {
    match e
    case ErrorResponse(code) => code == "NoSuchBucket" || code == "NoSuchKey" || code == "SignatureDoesNotMatch"
    case OtherError(_) => false
    case _ => true
  }

  function FailureMessage(outcome: Outcome): seq<DiffMessage> {
    if outcome.ListingFailed? && Reported(outcome.error) then [DiffFailure(CannotList(outcome.error))] else []
  }

  /** Everything a comparison sends: the messages of its loop and the failure of a listing, if it is reported. */
  function MessagesOf(ctx: Context, src: seq<Entry>, tgt: seq<Entry>, only: bool, similar: bool): seq<DiffMessage> {
    var run := RunOf(ctx, src, tgt, only, similar);
    run.sent + FailureMessage(run.outcome)
  }

  /** difference, the wrapper around the loop; `ends` is false if the loop spins and the wrapper is never reached. */
  method ObjectDifference(ctx: Context, sourceCh: seq<Entry>, targetCh: seq<Entry>, sourceListingOnly: bool,
                          returnSimilar: bool)
    returns (diffCh: seq<DiffMessage>, ends: bool)
    ensures diffCh == MessagesOf(ctx, sourceCh, targetCh, sourceListingOnly, returnSimilar)
    ensures ends <==> !RunOf(ctx, sourceCh, targetCh, sourceListingOnly, returnSimilar).outcome.Spinning?
  {
    var outcome, rounds;
    diffCh, outcome, rounds := DifferenceInternal(ctx, sourceCh, targetCh, sourceListingOnly, returnSimilar);
    ends := !outcome.Spinning?;
    if outcome.ListingFailed? {
      match outcome.error
      case ErrorResponse(code) =>
        if code == "NoSuchBucket" || code == "NoSuchKey" || code == "SignatureDoesNotMatch" {
          diffCh := diffCh + [DiffFailure(CannotList(outcome.error))];
        }
      case OtherError(_) =>
      case _ =>
        diffCh := diffCh + [DiffFailure(CannotList(outcome.error))];
    }
  }
}
