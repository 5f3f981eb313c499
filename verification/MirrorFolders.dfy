/** A mirror run between two folders of an object store. */
module MirrorFolders {
  import opened Strings
  import opened ClientUrl
  import opened Difference
  import opened DifferenceTheorems
  import opened Mirror
  import opened MirrorOverwrites
  import opened MirrorTheorems

  /** Names which are valid, and which normalisation leaves alone. */
  ghost predicate StableNames(lib: Library, folder: string, keys: seq<string>) {
    forall k | k in keys :: lib.validUtf8(k) && lib.nfc(folder + k) == folder + k
  }

  /** Objects of one name agree in type. */
  predicate NamesakesAgree(keys: seq<string>, src: seq<Content>, keys': seq<string>, tgt: seq<Content>)
    requires |keys| == |src| && |keys'| == |tgt|
  {
    forall i, j | 0 <= i < |src| && 0 <= j < |tgt| && keys[i] == keys'[j] :: src[i].regular == tgt[j].regular
  }

  lemma NameBelow(folder: string, key: string)
    ensures TrimPrefix(folder + key, folder) == key
  {
    assert (folder + key)[|folder|..] == key;
  }

  lemma NamesAreValid(
    lib: Library, source: string, target: string, isMetadata: bool,
    keys: seq<string>, src: seq<Content>, keys': seq<string>, tgt: seq<Content>)
    requires FolderListing(source, keys, src) && FolderListing(target, keys', tgt)
    requires StableNames(lib, target, keys) && StableNames(lib, target, keys')
    ensures var ctx := UrlContext(lib, source, target, isMetadata);
      (forall x | x in src :: ctx.validSource(x)) && (forall y | y in tgt :: ctx.validTarget(y))
  {
    hide UrlJoinPath, TrimPrefix, Less, Plain;
    var ctx := UrlContext(lib, source, target, isMetadata);
    forall x | x in src
      ensures ctx.validSource(x)
    {
      var i :| 0 <= i < |src| && src[i] == x;
      NameBelow(source, keys[i]);
    }
    forall y | y in tgt
      ensures ctx.validTarget(y)
    {
      var i :| 0 <= i < |tgt| && tgt[i] == y;
      NameBelow(target, keys'[i]);
    }
  }

  /** Two objects match exactly if they have one name below their folders, and are then spelled alike. */
  lemma MatchingIsByName(
    lib: Library, source: string, target: string, isMetadata: bool,
    keys: seq<string>, src: seq<Content>, keys': seq<string>, tgt: seq<Content>, x: Content, y: Content)
    requires Folder(target) && FolderListing(source, keys, src) && FolderListing(target, keys', tgt)
    requires StableNames(lib, target, keys) && StableNames(lib, target, keys') && NamesakesAgree(keys, src, keys', tgt)
    requires x in src && y in tgt && Matches(UrlContext(lib, source, target, isMetadata), x, y)
    ensures UrlContext(lib, source, target, isMetadata).current(x) == y.url && x.regular == y.regular
  {
    FolderKeys(lib, source, target, isMetadata, keys, src, keys', tgt);
    hide Folder, FolderListing, UrlContext, Less, Plain;
    var i :| 0 <= i < |src| && src[i] == x;
    var j :| 0 <= j < |tgt| && tgt[j] == y;
    assert target + keys[i] == target + keys'[j];
    NameBelow(target, keys[i]);
    NameBelow(target, keys'[j]);
  }

  lemma FoldersAreComparable(
    lib: Library, source: string, target: string, isMetadata: bool,
    keys: seq<string>, src: seq<Content>, keys': seq<string>, tgt: seq<Content>)
    requires Folder(target) && FolderListing(source, keys, src) && FolderListing(target, keys', tgt)
    requires StableNames(lib, target, keys) && StableNames(lib, target, keys') && NamesakesAgree(keys, src, keys', tgt)
    ensures var ctx := UrlContext(lib, source, target, isMetadata);
      && Comparable(ctx, src, tgt)
      && forall x, y | x in src && y in tgt && Matches(ctx, x, y) :: ctx.current(x) == y.url
  {
    hide Folder, FolderListing, UrlContext, Less, SourceSorted, TargetSorted, KeepsOrder;
    var ctx := UrlContext(lib, source, target, isMetadata);
    FolderListingsAreSorted(lib, source, target, isMetadata, keys, src, keys', tgt);
    NamesAreValid(lib, source, target, isMetadata, keys, src, keys', tgt);
    forall x, y | x in src && y in tgt && Matches(ctx, x, y)
      ensures ctx.current(x) == y.url && x.regular == y.regular
    {
      MatchingIsByName(lib, source, target, isMetadata, keys, src, keys', tgt, x, y);
    }
  }

  lemma FolderIsListed(
    lib: Library, source: string, target: string, isMetadata: bool,
    keys: seq<string>, src: seq<Content>, keys': seq<string>, tgt: seq<Content>, store: Store)
    requires Folder(target) && FolderListing(source, keys, src) && FolderListing(target, keys', tgt)
    requires forall y | y in tgt :: y.url in store && store[y.url] == y
    requires forall k | k in store :: store[k] in tgt && store[k].url == k
    ensures Lists(UrlContext(lib, source, target, isMetadata), tgt, store)
  {
    FolderKeys(lib, source, target, isMetadata, keys, src, keys', tgt);
    hide Folder, FolderListing, UrlContext;
  }

  /**
    Between two folders whose names normalisation leaves alone, a run with overwriting and removing on
    makes the target mirror what passes the filters and keep what they skip, whatever the filters are.
   */
  lemma FolderMirrorConverges(
    lib: Library, source: string, target: string, isMetadata: bool, opts: Options, filters: Filters,
    keys: seq<string>, src: seq<Content>, keys': seq<string>, tgt: seq<Content>, store: Store,
    put: (Content, string) -> Content, tasks: seq<Task>)
    requires Folder(target) && FolderListing(source, keys, src) && FolderListing(target, keys', tgt)
    requires StableNames(lib, target, keys) && StableNames(lib, target, keys') && NamesakesAgree(keys, src, keys', tgt)
    requires forall y | y in tgt :: y.url in store && store[y.url] == y
    requires forall k | k in store :: store[k] in tgt && store[k].url == k
    requires Mirroring(opts) && Faithful(put)
    requires Executes(UrlContext(lib, source, target, isMetadata), UrlJob(source, target, opts, filters), src, tgt, tasks)
    ensures var ctx, job := UrlContext(lib, source, target, isMetadata), UrlJob(source, target, opts, filters);
      MirrorsWhatPasses(ctx, job, src, tgt, store, Execute(job, put, store, tasks))
  {
    hide *;
    var ctx, job := UrlContext(lib, source, target, isMetadata), UrlJob(source, target, opts, filters);
    UrlContextServes(lib, source, target, isMetadata, opts, filters);
    UrlJobOptions(source, target, opts, filters);
    FoldersAreComparable(lib, source, target, isMetadata, keys, src, keys', tgt);
    FolderIsListed(lib, source, target, isMetadata, keys, src, keys', tgt, store);
    SpelledAlikeWherePassing(ctx, job, src, tgt);
    MirrorConverges(ctx, job, src, tgt, store, put, tasks);
  }

  /** Without filters, such a run makes the target hold the source's names with their sizes and nothing else. */
  lemma FolderMirrorIsFull(
    lib: Library, source: string, target: string, isMetadata: bool, opts: Options, filters: Filters,
    keys: seq<string>, src: seq<Content>, keys': seq<string>, tgt: seq<Content>, store: Store,
    put: (Content, string) -> Content, tasks: seq<Task>)
    requires Folder(target) && FolderListing(source, keys, src) && FolderListing(target, keys', tgt)
    requires StableNames(lib, target, keys) && StableNames(lib, target, keys') && NamesakesAgree(keys, src, keys', tgt)
    requires forall y | y in tgt :: y.url in store && store[y.url] == y
    requires forall k | k in store :: store[k] in tgt && store[k].url == k
    requires Mirroring(opts) && NoFilters(opts) && Faithful(put)
    requires Executes(UrlContext(lib, source, target, isMetadata), UrlJob(source, target, opts, filters), src, tgt, tasks)
    ensures var ctx, job := UrlContext(lib, source, target, isMetadata), UrlJob(source, target, opts, filters);
      Mirrors(ctx, src, Execute(job, put, store, tasks))
  {
    hide *;
    var ctx, job := UrlContext(lib, source, target, isMetadata), UrlJob(source, target, opts, filters);
    UrlContextServes(lib, source, target, isMetadata, opts, filters);
    UrlJobIsFull(source, target, opts, filters);
    FoldersAreComparable(lib, source, target, isMetadata, keys, src, keys', tgt);
    FolderIsListed(lib, source, target, isMetadata, keys, src, keys', tgt, store);
    SpelledAlike(ctx, src, tgt);
    FullMirrorConverges(ctx, job, src, tgt, store, put, tasks);
  }

  lemma SpelledAlike(ctx: Context, src: seq<Content>, tgt: seq<Content>)
    requires forall x, y | x in src && y in tgt && Matches(ctx, x, y) :: ctx.current(x) == y.url
    ensures SameSpelling(ctx, src, tgt)
  {
  }

  lemma UrlJobIsFull(source: string, target: string, opts: Options, filters: Filters)
    requires Mirroring(opts) && NoFilters(opts)
    ensures FullMirror(UrlJob(source, target, opts, filters))
  {
    hide Excluded, TooYoungOrOld;
    NoFiltersSkipNothing(source, target, opts, filters);
  }

  lemma UrlJobOptions(source: string, target: string, opts: Options, filters: Filters)
    ensures UrlJob(source, target, opts, filters).opts == opts
  {
  }

  lemma SpelledAlikeWherePassing(ctx: Context, job: Job, src: seq<Content>, tgt: seq<Content>)
    requires forall x, y | x in src && y in tgt && Matches(ctx, x, y) :: ctx.current(x) == y.url
    ensures SameSpellingWherePassing(ctx, job, src, tgt)
  {
  }

  /** Below two folders one spelling means one name, so it decides whether the name is valid. */
  lemma FolderSpellingDecidesValidity(
    lib: Library, source: string, target: string, isMetadata: bool,
    keys: seq<string>, src: seq<Content>, keys': seq<string>, tgt: seq<Content>)
    requires Folder(target) && FolderListing(source, keys, src) && FolderListing(target, keys', tgt)
    ensures SpellingDecidesValidity(UrlContext(lib, source, target, isMetadata), src, tgt)
  {
    var ctx := UrlContext(lib, source, target, isMetadata);
    FolderKeys(lib, source, target, isMetadata, keys, src, keys', tgt);
    hide Folder, UrlJoinPath, TrimPrefix, Less, Plain;
    forall x, y | x in src && y in tgt && ctx.current(x) == y.url
      ensures ctx.validSource(x) == ctx.validTarget(y)
    {
      var i :| 0 <= i < |src| && src[i] == x;
      var j :| 0 <= j < |tgt| && tgt[j] == y;
      NameBelow(source, keys[i]);
      NameBelow(target, keys[i]);
      NameBelow(target, keys'[j]);
    }
  }
}
