/** Listing object versions as of a point in time, with a memory of one key. */
module S3Versions {
  import opened Strings

  datatype Version = Version(key: string, lastModified: int, isDeleteMarker: bool, versionID: string)

  /** One entry of the server's listing. */
  datatype Info = Listed(version: Version) | Failure(error: string)

  /** `timeRef` is None when no point in time was asked for. */
  datatype ListOptions = ListOptions(withOlderVersions: bool, withDeleteMarkers: bool, timeRef: Option<int>) {
    /** The version existed at the point in time. */
    predicate Existed(v: Version) { timeRef.Some? ==> v.lastModified < timeRef.value }

    predicate Shown(v: Version) { v.isDeleteMarker ==> withDeleteMarkers }
  }

  /** The key remembered after a bucket's entries. */
  function SkipKey(infos: seq<Info>, opts: ListOptions): string {
    if infos == [] then ""
    else
      var skip, info := SkipKey(infos[..|infos| - 1], opts), infos[|infos| - 1];
      if info.Failure? || (!opts.withOlderVersions && skip == info.version.key) || !opts.Existed(info.version) then skip
      else info.version.key
  }

  predicate Passes(skipKey: string, info: Info, opts: ListOptions) {
    info.Failure? || ((opts.withOlderVersions || skipKey != info.version.key)
                      && opts.Existed(info.version) && opts.Shown(info.version))
  }

  /** What is sent on for one bucket. */
  function Emitted(infos: seq<Info>, opts: ListOptions): seq<Info> {
    if infos == [] then []
    else
      var n := |infos| - 1;
      Emitted(infos[..n], opts) + if Passes(SkipKey(infos[..n], opts), infos[n], opts) then [infos[n]] else []
  }

  function EmittedAll(buckets: seq<seq<Info>>, opts: ListOptions): seq<Info> {
    if buckets == [] then []
    else EmittedAll(buckets[..|buckets| - 1], opts) + Emitted(buckets[|buckets| - 1], opts)
  }

  /** listVersionsRoutine: the listings of one or all buckets, or the failure to name the buckets. */
  method ListVersionsRoutine(buckets: Option<seq<seq<Info>>>, listError: string, opts: ListOptions)
    returns (objectInfoCh: seq<Info>)
    ensures objectInfoCh == if buckets.None? then [Failure(listError)] else EmittedAll(buckets.value, opts)
  {
    if buckets.None? {
      return [Failure(listError)];
    }
    objectInfoCh := [];
    for i := 0 to |buckets.value|
      invariant objectInfoCh == EmittedAll(buckets.value[..i], opts)
    {
      assert buckets.value[..i + 1][..i] == buckets.value[..i];
      var infos := buckets.value[i];
      var skipKey := "";
      ghost var before := objectInfoCh;
      for j := 0 to |infos|
        invariant skipKey == SkipKey(infos[..j], opts)
        invariant objectInfoCh == before + Emitted(infos[..j], opts)
      {
        assert infos[..j + 1][..j] == infos[..j];
        var info := infos[j];
        if info.Failure? {
          objectInfoCh := objectInfoCh + [info];
          continue;
        }
        if !opts.withOlderVersions && skipKey == info.version.key {
          continue;
        }
        if opts.timeRef.None? || info.version.lastModified < opts.timeRef.value {
          skipKey := info.version.key;
          if !opts.withDeleteMarkers && info.version.isDeleteMarker {
            continue;
          }
          objectInfoCh := objectInfoCh + [info];
        }
      }
      assert infos[..|infos|] == infos;
    }
    assert buckets.value[..|buckets.value|] == buckets.value;
  }

  // ---------- failures do not disturb the selection ----------

  function Versions(infos: seq<Info>): seq<Version> {
    if infos == [] then [] else
    Versions(infos[..|infos| - 1]) + if infos[|infos| - 1].Listed? then [infos[|infos| - 1].version] else []
  }

  function Failures(infos: seq<Info>): seq<Info> {
    if infos == [] then [] else
    Failures(infos[..|infos| - 1]) + if infos[|infos| - 1].Failure? then [infos[|infos| - 1]] else []
  }

  lemma Snoc(infos: seq<Info>, info: Info)
    ensures Versions(infos + [info]) == Versions(infos) + if info.Listed? then [info.version] else []
    ensures Failures(infos + [info]) == Failures(infos) + if info.Failure? then [info] else []
  {
    assert (infos + [info])[..|infos|] == infos;
  }

  /** Failures are all passed on, in order. */
  lemma {:induction false} FailuresPassThrough(infos: seq<Info>, opts: ListOptions)
    ensures Failures(Emitted(infos, opts)) == Failures(infos)
    decreases |infos|
  {
    if infos == [] {
    } else {
      var n := |infos| - 1;
      FailuresPassThrough(infos[..n], opts);
      var sent := Emitted(infos[..n], opts);
      Snoc(sent, infos[n]);
      assert Emitted(infos, opts) == if Passes(SkipKey(infos[..n], opts), infos[n], opts) then sent + [infos[n]] else sent;
      assert Failures(sent) + [] == Failures(sent);
    }
  }

  // ---------- the snapshot ----------

  /** Versions of one key stand together, newest first. */
  predicate ServerOrder(vs: seq<Version>) {
    && (forall i, j, k | 0 <= i < j < k < |vs| :: vs[i].key == vs[k].key ==> vs[j].key == vs[i].key)
    && (forall i, j | 0 <= i < j < |vs| :: vs[i].key == vs[j].key ==> vs[i].lastModified >= vs[j].lastModified)
  }

  /** The version is the newest of its key among those which existed; of two equally new ones, the first listed. */
  predicate IsCurrent(vs: seq<Version>, i: nat, opts: ListOptions)
    requires i < |vs|
  {
    && opts.Existed(vs[i])
    && forall j: nat | j < |vs| && vs[j].key == vs[i].key && opts.Existed(vs[j]) ::
         vs[j].lastModified < vs[i].lastModified || (vs[j].lastModified == vs[i].lastModified && i <= j)
  }

  /** The bucket at the point in time: current versions, without the deleted objects unless asked for. */
  function Snapshot(vs: seq<Version>, n: nat, opts: ListOptions): seq<Version>
    requires n <= |vs|
  {
    if n == 0 then []
    else Snapshot(vs, n - 1, opts) + if IsCurrent(vs, n - 1, opts) && opts.Shown(vs[n - 1]) then [vs[n - 1]] else []
  }

  /** No version listed before this one existed at the point in time. */
  predicate NoneBefore(vs: seq<Version>, n: nat, opts: ListOptions)
    requires n <= |vs|
  {
    forall i: nat | i < n :: !opts.Existed(vs[i])
  }

  /** Which key is remembered: that of the last version which existed, and at first the empty key. */
  predicate Remembers(vs: seq<Version>, n: nat, opts: ListOptions, skipKey: string)
    requires n <= |vs|
  {
    || (skipKey == "" && NoneBefore(vs, n, opts))
    || exists i: nat | i < n :: && vs[i].key == skipKey && opts.Existed(vs[i])
                                && forall j: nat | i < j < n :: opts.Existed(vs[j]) ==> vs[j].key == skipKey
  }

  /** A version with the empty key which is the first to have existed: its key counts as listed already. */
  predicate Lost(vs: seq<Version>, n: nat, opts: ListOptions)
    requires n < |vs|
  {
    vs[n].key == "" && NoneBefore(vs, n, opts)
  }

  /** A key with an earlier version which existed is the one remembered. */
  lemma EarlierIsRemembered(vs: seq<Version>, n: nat, opts: ListOptions, skipKey: string, j: nat)
    requires ServerOrder(vs) && n < |vs| && Remembers(vs, n, opts, skipKey)
    requires j < n && vs[j].key == vs[n].key && opts.Existed(vs[j])
    ensures skipKey == vs[n].key
  {
    var i: nat :| i < n && vs[i].key == skipKey && opts.Existed(vs[i])
                  && forall k: nat | i < k < n :: opts.Existed(vs[k]) ==> vs[k].key == skipKey;
    assert j <= i ==> vs[i].key == vs[n].key;
  }

  /** In server order, a version which existed is current unless its key is remembered from a version before. */
  lemma RememberedOrCurrent(vs: seq<Version>, n: nat, opts: ListOptions, skipKey: string)
    requires ServerOrder(vs) && n < |vs| && Remembers(vs, n, opts, skipKey) && opts.Existed(vs[n])
    ensures IsCurrent(vs, n, opts) <==> skipKey != vs[n].key || Lost(vs, n, opts)
  {
    if skipKey == vs[n].key && !NoneBefore(vs, n, opts) {
      var i: nat :| i < n && vs[i].key == skipKey && opts.Existed(vs[i]);
      assert vs[i].lastModified >= vs[n].lastModified;
    }
    forall j: nat | j < n && vs[j].key == vs[n].key && opts.Existed(vs[j])
      ensures skipKey == vs[n].key
    {
      EarlierIsRemembered(vs, n, opts, skipKey, j);
    }
  }

  lemma RemembersNext(vs: seq<Version>, n: nat, opts: ListOptions, skipKey: string)
    requires n < |vs| && Remembers(vs, n, opts, skipKey)
    ensures Remembers(vs, n + 1, opts, if opts.Existed(vs[n]) then vs[n].key else skipKey)
  {
    if !opts.Existed(vs[n]) && !NoneBefore(vs, n, opts) {
      var i: nat :| i < n && vs[i].key == skipKey && opts.Existed(vs[i])
                    && forall j: nat | i < j < n :: opts.Existed(vs[j]) ==> vs[j].key == skipKey;
    }
  }

  /** The snapshot without a lost version. */
  function Selection(vs: seq<Version>, n: nat, opts: ListOptions): seq<Version>
    requires n <= |vs|
  {
    if n == 0 then []
    else
      var i := n - 1;
      Selection(vs, i, opts) + if IsCurrent(vs, i, opts) && opts.Shown(vs[i]) && !Lost(vs, i, opts) then [vs[i]] else []
  }

  lemma {:induction false} RoutineRemembers(infos: seq<Info>, vs: seq<Version>, opts: ListOptions)
    requires !opts.withOlderVersions && Versions(infos) <= vs && ServerOrder(vs)
    ensures Remembers(vs, |Versions(infos)|, opts, SkipKey(infos, opts))
    ensures Versions(Emitted(infos, opts)) == Selection(vs, |Versions(infos)|, opts)
    decreases |infos|
  {
    if infos == [] {
    } else {
      hide Remembers, ServerOrder, IsCurrent, Lost;
      var n := |infos| - 1;
      var rest, info := infos[..n], infos[n];
      var k := |Versions(rest)|;
      RoutineRemembers(rest, vs, opts);
      Snoc(Emitted(rest, opts), info);
      var sent := Emitted(rest, opts);
      assert Emitted(infos, opts) == if Passes(SkipKey(rest, opts), info, opts) then sent + [info] else sent;
      assert Versions(sent) + [] == Versions(sent);
      if info.Listed? {
        assert vs[k] == Versions(infos)[k] == info.version;
        RemembersNext(vs, k, opts, SkipKey(rest, opts));
        OneMore(vs, k, rest, info, opts);
      }
    }
  }

  /** What happens to the next version is what the snapshot says of it, unless it is lost. */
  lemma OneMore(vs: seq<Version>, k: nat, rest: seq<Info>, info: Info, opts: ListOptions)
    requires !opts.withOlderVersions && ServerOrder(vs) && k < |vs| && info == Listed(vs[k])
    requires Remembers(vs, k, opts, SkipKey(rest, opts))
    ensures Passes(SkipKey(rest, opts), info, opts) <==>
            IsCurrent(vs, k, opts) && opts.Shown(vs[k]) && !Lost(vs, k, opts)
  {
    hide SkipKey;
    if opts.Existed(vs[k]) {
      RememberedOrCurrent(vs, k, opts, SkipKey(rest, opts));
    }
  }

  /** A current version that is to be shown, and is lost. */
  predicate LosesCurrent(vs: seq<Version>, i: nat, opts: ListOptions)
    requires i < |vs|
  {
    IsCurrent(vs, i, opts) && opts.Shown(vs[i]) && Lost(vs, i, opts)
  }

  lemma {:induction false} SelectionOrSnapshot(vs: seq<Version>, n: nat, opts: ListOptions)
    requires n <= |vs|
    ensures (forall i: nat | i < n :: !LosesCurrent(vs, i, opts)) ==> Selection(vs, n, opts) == Snapshot(vs, n, opts)
    ensures |Selection(vs, n, opts)| <= |Snapshot(vs, n, opts)|
    ensures (exists i: nat | i < n :: LosesCurrent(vs, i, opts)) ==>
            |Selection(vs, n, opts)| < |Snapshot(vs, n, opts)|
  {
    if n == 0 {
    } else {
      var i: nat := n - 1;
      SelectionOrSnapshot(vs, i, opts);
      hide IsCurrent, Lost;
      assert LosesCurrent(vs, i, opts) <==> IsCurrent(vs, i, opts) && opts.Shown(vs[i]) && Lost(vs, i, opts);
      assert Selection(vs, i, opts) + [] == Selection(vs, i, opts);
    }
  }

  /**
   * Without older versions, the versions sent on are the bucket's state at the point in time, however many
   * failures are mixed in, exactly if no current version to be shown has the empty key and no version that
   * existed before it: the memory starts out as the empty key.
   */
  lemma ListsTheSnapshotExactly(infos: seq<Info>, opts: ListOptions)
    requires !opts.withOlderVersions && ServerOrder(Versions(infos))
    ensures var vs := Versions(infos);
      Versions(Emitted(infos, opts)) == Snapshot(vs, |vs|, opts) <==>
      forall i: nat | i < |vs| :: !LosesCurrent(vs, i, opts)
  {
    RoutineRemembers(infos, Versions(infos), opts);
    SelectionOrSnapshot(Versions(infos), |Versions(infos)|, opts);
  }

  /** In particular if no key is empty. */
  lemma ListsTheSnapshot(infos: seq<Info>, opts: ListOptions)
    requires !opts.withOlderVersions && ServerOrder(Versions(infos))
    requires forall v | v in Versions(infos) :: v.key != ""
    ensures Versions(Emitted(infos, opts)) == Snapshot(Versions(infos), |Versions(infos)|, opts)
  {
    ListsTheSnapshotExactly(infos, opts);
  }

  lemma {:induction false} InSnapshot(vs: seq<Version>, n: nat, opts: ListOptions, v: Version)
    requires n <= |vs|
    ensures v in Snapshot(vs, n, opts) <==> exists i: nat | i < n :: vs[i] == v && IsCurrent(vs, i, opts) && opts.Shown(v)
  {
    if n == 0 {
    } else {
      InSnapshot(vs, n - 1, opts, v);
    }
  }

  /** A deleted object stays deleted: none of its versions is listed if a delete marker was the current one. */
  lemma DeletedStaysDeleted(vs: seq<Version>, opts: ListOptions, d: nat, v: Version)
    requires d < |vs| && IsCurrent(vs, d, opts) && vs[d].isDeleteMarker && !opts.withDeleteMarkers
    requires v.key == vs[d].key
    ensures v !in Snapshot(vs, |vs|, opts)
  {
    InSnapshot(vs, |vs|, opts, v);
  }

  /** Every object which existed is listed with its current version, and with no other. */
  lemma EveryKeyOnce(vs: seq<Version>, opts: ListOptions, v: Version, w: Version)
    requires v in Snapshot(vs, |vs|, opts) && w in Snapshot(vs, |vs|, opts) && v.key == w.key
    ensures v == w
  {
    InSnapshot(vs, |vs|, opts, v);
    InSnapshot(vs, |vs|, opts, w);
    var i: nat :| i < |vs| && vs[i] == v && IsCurrent(vs, i, opts);
    var j: nat :| j < |vs| && vs[j] == w && IsCurrent(vs, j, opts);
  }

  lemma {:induction false} SomeIsCurrent(vs: seq<Version>, i: nat, opts: ListOptions) returns (current: nat)
    requires ServerOrder(vs) && i < |vs| && opts.Existed(vs[i])
    ensures current < |vs| && vs[current].key == vs[i].key && IsCurrent(vs, current, opts)
    decreases i
  {
    if IsCurrent(vs, i, opts) {
      current := i;
    } else {
      var j: nat :| j < |vs| && vs[j].key == vs[i].key && opts.Existed(vs[j])
                    && !(vs[j].lastModified < vs[i].lastModified || (vs[j].lastModified == vs[i].lastModified && i <= j));
      current := SomeIsCurrent(vs, j, opts);
    }
  }

  /** No object which existed is missing: its current version is listed, or was a delete marker. */
  lemma NoObjectIsMissing(vs: seq<Version>, i: nat, opts: ListOptions)
    requires ServerOrder(vs) && i < |vs| && opts.Existed(vs[i])
    ensures exists c: nat | c < |vs| && IsCurrent(vs, c, opts) ::
              vs[c].key == vs[i].key && (vs[c] in Snapshot(vs, |vs|, opts) || !opts.Shown(vs[c]))
  {
    var c := SomeIsCurrent(vs, i, opts);
    InSnapshot(vs, |vs|, opts, vs[c]);
  }

  /** With older versions, the point in time and the delete markers are the only filter. */
  lemma {:induction false} OlderVersionsAreAllListed(infos: seq<Info>, opts: ListOptions, info: Info)
    requires opts.withOlderVersions
    ensures info in Emitted(infos, opts) <==>
            && info in infos
            && (info.Listed? && opts.timeRef.Some? ==> info.version.lastModified < opts.timeRef.value)
            && (info.Listed? && info.version.isDeleteMarker ==> opts.withDeleteMarkers)
    decreases |infos|
  {
    if infos == [] {
    } else {
      OlderVersionsAreAllListed(infos[..|infos| - 1], opts, info);
      assert infos == infos[..|infos| - 1] + [infos[|infos| - 1]];
    }
  }

  /** Entry by entry: what becomes of the next one, wherever it stands and whatever comes after it. */
  lemma SentEntryByEntry(infos: seq<Info>, n: nat, opts: ListOptions)
    requires !opts.withOlderVersions && n < |infos| && WellListed(infos)
    ensures
      var vs, k := Versions(infos), |Versions(infos[..n])|;
      && (infos[n].Listed? ==> k < |vs| && vs[k] == infos[n].version)
      && Emitted(infos[..n + 1], opts)
         == Emitted(infos[..n], opts)
            + if infos[n].Failure? || (IsCurrent(vs, k, opts) && opts.Shown(vs[k])) then [infos[n]] else []
  {
    var vs, k := Versions(infos), |Versions(infos[..n])|;
    assert infos == infos[..n + 1] + infos[n + 1..] && infos[..n + 1] == infos[..n] + [infos[n]];
    VersionsConcat(infos[..n + 1], infos[n + 1..]);
    Snoc(infos[..n], infos[n]);
    assert infos[..n + 1][..n] == infos[..n];
    RoutineRemembers(infos[..n], vs, opts);
    hide Versions, ServerOrder, IsCurrent, Remembers, SkipKey;
    if infos[n].Listed? {
      assert vs[k] == infos[n].version && vs[k] in vs;
      OneMore(vs, k, infos[..n], infos[n], opts);
    }
  }

  /**
    Older than the point in time, if one was asked for, no delete marker, unless they were asked for, and of
    the versions of its key older than that point none is newer, nor as new and listed before it.
   */
  predicate LatestBefore(vs: seq<Version>, i: nat, opts: ListOptions)
    requires i < |vs|
  {
    && (opts.timeRef == None || vs[i].lastModified < opts.timeRef.value)
    && (vs[i].isDeleteMarker ==> opts.withDeleteMarkers)
    && forall j: nat | j < |vs| && vs[j].key == vs[i].key && (opts.timeRef == None || vs[j].lastModified < opts.timeRef.value) ::
         vs[j].lastModified < vs[i].lastModified || (vs[j].lastModified == vs[i].lastModified && i <= j)
  }

  lemma CurrentInPlainTerms(vs: seq<Version>, i: nat, opts: ListOptions)
    requires i < |vs|
    ensures LatestBefore(vs, i, opts) <==> IsCurrent(vs, i, opts) && opts.Shown(vs[i])
  {
  }

  /** In plain terms: which versions are sent on. */
  lemma SentExactly(infos: seq<Info>, opts: ListOptions, v: Version)
    requires !opts.withOlderVersions && WellListed(infos)
    ensures
      var vs := Versions(infos);
      v in Versions(Emitted(infos, opts)) <==> exists i: nat | i < |vs| :: vs[i] == v && LatestBefore(vs, i, opts)
  {
    var vs := Versions(infos);
    ListsTheSnapshot(infos, opts);
    hide *;
    InSnapshot(vs, |vs|, opts, v);
    forall i: nat | i < |vs| ensures LatestBefore(vs, i, opts) <==> IsCurrent(vs, i, opts) && opts.Shown(vs[i]) {
      CurrentInPlainTerms(vs, i, opts);
    }
  }

  // ---------- all buckets ----------

  function Flatten<T>(parts: seq<seq<T>>): seq<T> {
    if parts == [] then [] else parts[0] + Flatten(parts[1..])
  }

  lemma {:induction false} FlattenSnoc<T>(parts: seq<seq<T>>, last: seq<T>)
    ensures Flatten(parts + [last]) == Flatten(parts) + last
  {
    if parts == [] {
      assert parts + [last] == [last] && [last][1..] == [];
    } else {
      assert (parts + [last])[1..] == parts[1..] + [last];
      FlattenSnoc(parts[1..], last);
    }
  }

  lemma {:induction false} VersionsConcat(a: seq<Info>, b: seq<Info>)
    ensures Versions(a + b) == Versions(a) + Versions(b)
    ensures Failures(a + b) == Failures(a) + Failures(b)
    decreases |b|
  {
    if b == [] {
      assert a + b == a;
    } else {
      assert (a + b)[..|a + b| - 1] == a + b[..|b| - 1];
      VersionsConcat(a, b[..|b| - 1]);
    }
  }

  /** A bucket's versions at the point in time with all older ones: what existed, and is to be shown. */
  function History(vs: seq<Version>, opts: ListOptions): seq<Version> {
    if vs == [] then []
    else (if opts.Existed(vs[0]) && opts.Shown(vs[0]) then [vs[0]] else []) + History(vs[1..], opts)
  }

  lemma {:induction false} HistorySnoc(vs: seq<Version>, v: Version, opts: ListOptions)
    ensures History(vs + [v], opts) == History(vs, opts) + if opts.Existed(v) && opts.Shown(v) then [v] else []
  {
    if vs == [] {
      assert vs + [v] == [v] && [v][1..] == [];
    } else {
      assert (vs + [v])[1..] == vs[1..] + [v];
      HistorySnoc(vs[1..], v, opts);
    }
  }

  lemma {:induction false} HistoryIsSent(infos: seq<Info>, opts: ListOptions)
    requires opts.withOlderVersions
    ensures Versions(Emitted(infos, opts)) == History(Versions(infos), opts)
    decreases |infos|
  {
    if infos == [] {
    } else {
      var n := |infos| - 1;
      var sent := Emitted(infos[..n], opts);
      HistoryIsSent(infos[..n], opts);
      if infos[n].Listed? {
        HistorySnoc(Versions(infos[..n]), infos[n].version, opts);
      }
      Snoc(sent, infos[n]);
      assert Emitted(infos, opts) == if Passes(SkipKey(infos[..n], opts), infos[n], opts) then sent + [infos[n]] else sent;
      assert Versions(infos) == Versions(infos[..n]) + if infos[n].Listed? then [infos[n].version] else [];
      assert Versions(infos[..n]) + [] == Versions(infos[..n]);
    }
  }

  /** The state of each bucket at the point in time. */
  function States(buckets: seq<seq<Info>>, opts: ListOptions): (states: seq<seq<Version>>)
    ensures |states| == |buckets|
  {
    seq(|buckets|, i requires 0 <= i < |buckets| =>
      var vs := Versions(buckets[i]);
      if opts.withOlderVersions then History(vs, opts) else Snapshot(vs, |vs|, opts))
  }

  /** The failures of each bucket's listing. */
  function AllFailures(buckets: seq<seq<Info>>): seq<seq<Info>> {
    seq(|buckets|, i requires 0 <= i < |buckets| => Failures(buckets[i]))
  }

  /** Each bucket is listed as the server orders it, and has no object with the empty key. */
  predicate WellListed(infos: seq<Info>) {
    ServerOrder(Versions(infos)) && forall v | v in Versions(infos) :: v.key != ""
  }

  /**
    On any list of buckets, what the routine sends is bucket by bucket the state at the point in time:
    the snapshot, or with older versions the history. All failures are passed on, in order.
   */
  lemma {:induction false} EveryBucketIsListed(buckets: seq<seq<Info>>, opts: ListOptions)
    requires forall i | 0 <= i < |buckets| :: opts.withOlderVersions || WellListed(buckets[i])
    ensures Versions(EmittedAll(buckets, opts)) == Flatten(States(buckets, opts))
    ensures Failures(EmittedAll(buckets, opts)) == Flatten(AllFailures(buckets))
    decreases |buckets|
  {
    if buckets == [] {
    } else {
      var n := |buckets| - 1;
      var rest, infos := buckets[..n], buckets[n];
      EveryBucketIsListed(rest, opts);
      hide Emitted, Snapshot, History, ServerOrder, Versions, Failures, Flatten;
      if opts.withOlderVersions {
        HistoryIsSent(infos, opts);
      } else {
        ListsTheSnapshot(infos, opts);
      }
      FailuresPassThrough(infos, opts);
      VersionsConcat(EmittedAll(rest, opts), Emitted(infos, opts));
      var states, failures := States(buckets, opts), AllFailures(buckets);
      assert states == States(rest, opts) + [states[n]];
      assert failures == AllFailures(rest) + [failures[n]];
      FlattenSnoc(States(rest, opts), states[n]);
      FlattenSnoc(AllFailures(rest), failures[n]);
    }
  }
}
