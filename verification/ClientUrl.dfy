/** Parsing, printing and joining of client URLs (on systems whose path separator is the slash). */
module ClientUrl {
  import opened Strings

  datatype UrlType = ObjectStorage | FileSystem

  datatype ClientURL = ClientURL(
    typ: UrlType, scheme: string, host: string, path: string, schemeSeparator: string, separator: char)
  {
    /** The canonical form of the URL. */
    function ToString(): string {
      if typ.FileSystem? then path
      else
        scheme + "://" + host + (if path != "" && path[0] != '/' && host != "" then "/" else "") + path
    }
  }

  const SEP := "://"

  predicate IsLetter(c: char) { 'a' <= c <= 'z' || 'A' <= c <= 'Z' }

  predicate ValidScheme(scheme: string) {
    scheme != "" && forall i | 0 <= i < |scheme| :: IsLetter(scheme[i])
  }

  /** Splits off the scheme when the separator occurs exactly once, after letters only. */
  function GetScheme(rawurl: string): (string, string) {
    match Find(rawurl, SEP, 0)
    case None => ("", rawurl)
    case Some(i) =>
      if Find(rawurl, SEP, i + |SEP|).None? && ValidScheme(rawurl[..i])
      then (rawurl[..i], "//" + rawurl[i + |SEP|..])
      else ("", rawurl)
  }

  function SplitSpecial(s: string, delimiter: string, cutDelimiter: bool): (string, string) {
    match Find(s, delimiter, 0)
    case None => (s, "")
    case Some(i) => if cutDelimiter then (s[..i], s[i + |delimiter|..]) else (s[..i], s[i..])
  }

  function GetHost(authority: string): string {
    if '@' in authority then "" else authority
  }

  function FilePath(path: string): ClientURL {
    ClientURL(FileSystem, "", "", path, "", '/')
  }

  function NewClientURL(urlStr: string): ClientURL {
    var (scheme, rest) := GetScheme(urlStr);
    if "//" <= rest then
      var (authority, tail) := SplitSpecial(rest[2..], "/", false);
      var path := if tail == "" then "/" else tail;
      var host := GetHost(authority);
      if host != "" && (scheme == "http" || scheme == "https")
      then ClientURL(ObjectStorage, scheme, host, path, SEP, '/')
      else FilePath(path)
    else FilePath(rest)
  }

  function JoinURLs(url1: ClientURL, url2: ClientURL): ClientURL {
    if HasSuffix(url1.path, "/")
    then url1.(path := url1.path + TrimPrefix(url2.path, "/"))
    else url1.(path := url1.path + "/" + TrimPrefix(url2.path, "/"))
  }

  function UrlJoinPath(url1: string, url2: string): string {
    JoinURLs(NewClientURL(url1), NewClientURL(url2)).ToString()
  }

  // ---------- printing, then parsing ----------

  /** The URLs that survive being printed and parsed again. */
  ghost predicate Canonical(u: ClientURL) {
    match u.typ
    case FileSystem => u == ClientURL(FileSystem, "", "", u.path, "", '/') && GetScheme(u.path).0 == "" && !("//" <= u.path)
    case ObjectStorage =>
      && (u.scheme == "http" || u.scheme == "https")
      && u.host != "" && '/' !in u.host && '@' !in u.host
      && "/" <= u.path
      && !Contains(u.host + u.path, SEP)
      && u.schemeSeparator == SEP && u.separator == '/'
  }

  lemma HttpSchemes(scheme: string)
    requires scheme == "http" || scheme == "https"
    ensures ValidScheme(scheme) && ':' !in scheme
  {
  }

  lemma SchemeFirst(scheme: string, tail: string)
    requires ':' !in scheme
    ensures Find(scheme + SEP + tail, SEP, 0) == Some(|scheme|)
    ensures Find(scheme + SEP + tail, SEP, |scheme| + |SEP|).None? <==> !Contains(tail, SEP)
  {
    var s := scheme + SEP + tail;
    assert s[|scheme|..|scheme| + 3] == SEP;
    assert OccursAt(s, SEP, |scheme|);
    forall j | 0 <= j < |scheme| ensures !OccursAt(s, SEP, j) {
      assert s[j..j + 3][0] == s[j] == scheme[j];
    }
    forall i ensures OccursAt(tail, SEP, i) <==> i >= 0 && OccursAt(s, SEP, |scheme| + 3 + i) {
      OccursInSuffix(scheme + SEP, tail, SEP, i);
    }
    match Find(s, SEP, |scheme| + 3)
    case None =>
    case Some(k) => assert OccursAt(tail, SEP, k - |scheme| - 3);
  }

  lemma SplitAtFirstSlash(host: string, path: string)
    requires '/' !in host && "/" <= path
    ensures SplitSpecial(host + path, "/", false) == (host, path)
  {
    var s := host + path;
    assert s[|host|..|host| + 1] == "/";
    assert OccursAt(s, "/", |host|);
    forall j | 0 <= j < |host| ensures !OccursAt(s, "/", j) {
      assert s[j..j + 1][0] == host[j];
    }
    assert Find(s, "/", 0) == Some(|host|);
    assert s[..|host|] == host && s[|host|..] == path;
  }

  /** A printed URL parses back to itself exactly when it is canonical. */
  lemma PrintThenParse(u: ClientURL)
    ensures NewClientURL(u.ToString()) == u <==> Canonical(u)
  {
    if u.typ.ObjectStorage? {
      if Canonical(u) {
        CanonicalParses(u);
      }
      if NewClientURL(u.ToString()) == u {
        ParsedIsCanonical(u.ToString());
      }
    } else {
      FilePathParses(u.path);
    }
  }

  lemma CanonicalParses(u: ClientURL)
    requires u.typ.ObjectStorage? && Canonical(u)
    ensures NewClientURL(u.ToString()) == u
  {
    HttpSchemes(u.scheme);
    var tail := u.host + u.path;
    assert u.ToString() == u.scheme + SEP + tail;
    SchemeFirst(u.scheme, tail);
    assert (u.scheme + SEP + tail)[..|u.scheme|] == u.scheme;
    assert (u.scheme + SEP + tail)[|u.scheme| + 3..] == tail;
    assert ("//" + tail)[2..] == tail;
    SplitAtFirstSlash(u.host, u.path);
  }

  lemma SchemeParts(s: string)
    requires GetScheme(s).0 != ""
    ensures
      var (scheme, rest) := GetScheme(s);
      "//" <= rest && s == scheme + SEP + rest[2..] && !Contains(rest[2..], SEP)
  {
    var i := Find(s, SEP, 0).value;
    var scheme, tail := s[..i], s[i + 3..];
    assert s[i..i + 3] == SEP;
    assert s == scheme + SEP + tail;
    assert ("//" + tail)[2..] == tail;
    forall j ensures !OccursAt(tail, SEP, j) {
      OccursInSuffix(scheme + SEP, tail, SEP, j);
    }
  }

  /** A scheme is recognised exactly if it consists of letters and is followed by the only separator. */
  lemma SchemeExactly(s: string, scheme: string, tail: string)
    requires scheme != ""
    ensures GetScheme(s) == (scheme, "//" + tail) <==>
            && s == scheme + "://" + tail && !Contains(tail, "://")
            && forall c | c in scheme :: 'a' <= c <= 'z' || 'A' <= c <= 'Z'
  {
    assert forall i | 0 <= i < |scheme| :: scheme[i] in scheme;
    assert ValidScheme(scheme) <==> forall c | c in scheme :: 'a' <= c <= 'z' || 'A' <= c <= 'Z';
    if GetScheme(s) == (scheme, "//" + tail) {
      SchemeParts(s);
      assert ("//" + tail)[2..] == tail;
    }
    if s == scheme + "://" + tail && !Contains(tail, "://") && ValidScheme(scheme) {
      SchemeFirst(scheme, tail);
      assert s[..|scheme|] == scheme && s[|scheme| + 3..] == tail;
    }
  }

  lemma SplitParts(s: string)
    ensures
      var (head, tail) := SplitSpecial(s, "/", false);
      && s == head + tail && '/' !in head && (tail == "" || "/" <= tail)
  {
    var (head, tail) := SplitSpecial(s, "/", false);
    forall j | 0 <= j < |head| ensures head[j] != '/' {
      assert !OccursAt(s, "/", j);
      assert s[j..j + 1] == [head[j]];
    }
  }

  /** The parts an object URL is read from. */
  lemma ObjectForm(s: string) returns (scheme: string, host: string, tail: string)
    requires NewClientURL(s).typ.ObjectStorage?
    ensures scheme == "http" || scheme == "https"
    ensures host != "" && '@' !in host && '/' !in host && (tail == "" || "/" <= tail)
    ensures s == scheme + SEP + (host + tail) && !Contains(host + tail, SEP)
    ensures NewClientURL(s) == ObjectUrl(scheme, host, if tail == "" then "/" else tail)
  {
    SchemeParts(s);
    scheme := GetScheme(s).0;
    var rest := GetScheme(s).1[2..];
    SplitParts(rest);
    host, tail := SplitSpecial(rest, "/", false).0, SplitSpecial(rest, "/", false).1;
  }

  function ObjectUrl(scheme: string, host: string, path: string): ClientURL {
    ClientURL(ObjectStorage, scheme, host, path, SEP, '/')
  }

  lemma PrintedForm(scheme: string, host: string, path: string)
    requires "/" <= path
    ensures ObjectUrl(scheme, host, path).ToString() == scheme + SEP + (host + path)
  {
    assert scheme + SEP + (host + path) == scheme + SEP + host + "" + path;
  }

  lemma FormIsCanonical(scheme: string, host: string, tail: string)
    requires scheme == "http" || scheme == "https"
    requires host != "" && '@' !in host && '/' !in host && (tail == "" || "/" <= tail)
    requires !Contains(host + tail, SEP)
    ensures
      var u := ObjectUrl(scheme, host, if tail == "" then "/" else tail);
      var s := scheme + SEP + (host + tail);
      && Canonical(u)
      && u.ToString() == if tail == "" then s + "/" else s
  {
    if tail == "" {
      assert host + tail == host;
      NoSeparatorAdded(host);
      PrintedForm(scheme, host, "/");
      assert scheme + SEP + (host + "/") == scheme + SEP + host + "/";
    } else {
      PrintedForm(scheme, host, tail);
    }
  }

  /** Parsing yields canonical object URLs only. */
  lemma ParsedIsCanonical(s: string)
    requires NewClientURL(s).typ.ObjectStorage?
    ensures Canonical(NewClientURL(s))
    ensures NewClientURL(s).ToString() == s || NewClientURL(s).ToString() == s + "/"
  {
    var scheme, host, tail := ObjectForm(s);
    FormIsCanonical(scheme, host, tail);
  }

  lemma NoSeparatorAdded(host: string)
    requires !Contains(host, SEP) && '/' !in host
    ensures !Contains(host + "/", SEP)
  {
    forall i | 0 <= i <= |host| - 2 ensures !OccursAt(host + "/", SEP, i) {
      assert (host + "/")[i..i + 3][1] == host[i + 1];
      assert host[i + 1] in host && SEP[1] == '/';
    }
  }

  lemma FilePathParses(p: string)
    ensures NewClientURL(p) == FilePath(p) <==> GetScheme(p).0 == "" && !("//" <= p)
  {
    if GetScheme(p).0 != "" {
      SchemeParts(p);
    }
    var (scheme, rest) := GetScheme(p);
    if "//" <= rest {
      SplitParts(rest[2..]);
    }
  }

  // ---------- joining ----------

  /** Suffixes the join takes as they are. */
  predicate Plain(s: string) {
    GetScheme(s).0 == "" && !("/" <= s)
  }

  predicate Folder(target: string) {
    NewClientURL(target).typ.ObjectStorage? && HasSuffix(target, "/")
  }

  lemma SlashAtEnd(front: string, host: string, tail: string)
    requires HasSuffix(front + (host + tail), "/") && host != "" && '/' !in host
    ensures tail != "" && HasSuffix(tail, "/")
  {
    var s := front + (host + tail);
    assert s[|s| - 1..][0] == s[|s| - 1] == '/';
    var body := host + tail;
    assert s[|s| - 1] == body[|body| - 1];
    assert host[|host| - 1] in host;
    assert host + "" == host;
  }

  /** The parts of a folder's URL. */
  lemma FolderForm(target: string) returns (scheme: string, host: string, path: string)
    requires Folder(target)
    ensures scheme == "http" || scheme == "https"
    ensures host != "" && '@' !in host && '/' !in host && "/" <= path && HasSuffix(path, "/")
    ensures target == scheme + SEP + (host + path) && !Contains(host + path, SEP)
    ensures NewClientURL(target) == ObjectUrl(scheme, host, path)
  {
    scheme, host, path := ObjectForm(target);
    SlashAtEnd(scheme + SEP, host, path);
  }

  lemma JoinedForm(scheme: string, host: string, path: string, other: ClientURL)
    requires "/" <= path && HasSuffix(path, "/")
    ensures JoinURLs(ObjectUrl(scheme, host, path), other).ToString()
         == scheme + SEP + (host + path) + TrimPrefix(other.path, "/")
  {
    var added := TrimPrefix(other.path, "/");
    PrintedForm(scheme, host, path + added);
    assert scheme + SEP + (host + (path + added)) == scheme + SEP + (host + path) + added;
  }

  /** What joining does to a folder: it appends the other URL's path, less one leading slash. */
  lemma JoinForm(target: string, s: string)
    requires Folder(target)
    ensures UrlJoinPath(target, s) == target + TrimPrefix(NewClientURL(s).path, "/")
  {
    var scheme, host, path := FolderForm(target);
    JoinedForm(scheme, host, path, NewClientURL(s));
  }

  /** Joining a folder with a suffix appends the suffix exactly when the suffix is plain. */
  lemma JoinAppends(target: string, s: string)
    requires Folder(target)
    ensures UrlJoinPath(target, s) == target + s <==> Plain(s)
  {
    JoinForm(target, s);
    if Plain(s) {
      FilePathParses(s);
    } else {
      ShorterPath(s);
    }
  }

  lemma ShorterPath(s: string)
    requires !Plain(s)
    ensures |TrimPrefix(NewClientURL(s).path, "/")| < |s|
  {
    var (scheme, rest) := GetScheme(s);
    if scheme != "" {
      SchemeParts(s);
    }
    if "//" <= rest {
      SplitParts(rest[2..]);
    }
  }

  /** On plain suffixes the join is undone by trimming, keeps the order, and is therefore injective. */
  lemma JoinIsFaithful(target: string, s: string, t: string)
    requires Folder(target) && Plain(s) && Plain(t)
    ensures TrimPrefix(UrlJoinPath(target, s), target) == s
    ensures Less(UrlJoinPath(target, s), UrlJoinPath(target, t)) <==> Less(s, t)
    ensures UrlJoinPath(target, s) == UrlJoinPath(target, t) <==> s == t
  {
    JoinAppends(target, s);
    JoinAppends(target, t);
    LessUnderPrefix(target, s, t);
    assert (target + s)[|target|..] == s;
    assert (target + t)[|target|..] == t;
  }

  lemma NoSepIsPlain(s: string)
    requires !Contains(s, SEP)
    ensures GetScheme(s) == ("", s)
  {
  }

  lemma FormIsFolder(scheme: string, host: string, path: string)
    requires scheme == "http" || scheme == "https"
    requires host != "" && '@' !in host && '/' !in host && "/" <= path && HasSuffix(path, "/")
    requires !Contains(host + path, SEP)
    ensures Folder(scheme + SEP + (host + path))
  {
    PrintedForm(scheme, host, path);
    CanonicalParses(ObjectUrl(scheme, host, path));
    var target := scheme + SEP + (host + path);
    assert target[|target| - 1..] == path[|path| - 1..];
  }

  lemma FolderBelow(target: string, s: string)
    requires Folder(target) && !Contains(s, SEP) && !("/" <= s) && HasSuffix(s, "/")
    ensures Folder(target + s)
  {
    var scheme, host, path := FolderForm(target);
    BelowParts(host, path, s);
    FormIsFolder(scheme, host, path + s);
    Regroup(scheme + SEP, host, path, s);
  }

  lemma Regroup(a: string, b: string, c: string, d: string)
    ensures a + (b + (c + d)) == a + (b + c) + d
  {
  }

  lemma BelowParts(host: string, path: string, s: string)
    requires "/" <= path && HasSuffix(path, "/") && !Contains(host + path, SEP)
    requires !Contains(s, SEP) && !("/" <= s) && HasSuffix(s, "/")
    ensures "/" <= path + s && HasSuffix(path + s, "/") && !Contains(host + (path + s), SEP)
  {
    assert (host + path)[|host + path| - 1..] == path[|path| - 1..];
    NoSepAcross(host + path, s);
    assert host + (path + s) == host + path + s;
    assert (path + s)[|path + s| - 1..] == s[|s| - 1..];
  }

  /** Without a separator in the suffix, a folder below a folder is a folder again, and joins compose. */
  lemma JoinComposes(target: string, s: string, t: string)
    requires Folder(target)
    requires !Contains(s, SEP) && !("/" <= s) && HasSuffix(s, "/")
    requires !Contains(t, SEP) && !("/" <= t)
    ensures Folder(UrlJoinPath(target, s))
    ensures UrlJoinPath(UrlJoinPath(target, s), t) == UrlJoinPath(target, s + t)
  {
    FolderBelow(target, s);
    PlainPair(s, t);
    JoinAppends(target, s);
    JoinAppends(target + s, t);
    JoinAppends(target, s + t);
    Associate(target, s, t);
  }

  lemma Associate(a: string, b: string, c: string)
    ensures a + b + c == a + (b + c)
  {
  }

  lemma PlainPair(s: string, t: string)
    requires !Contains(s, SEP) && !("/" <= s) && HasSuffix(s, "/")
    requires !Contains(t, SEP) && !("/" <= t)
    ensures Plain(s) && Plain(t) && Plain(s + t)
  {
    NoSepIsPlain(s);
    NoSepIsPlain(t);
    NoSepAcross(s, t);
    NoSepIsPlain(s + t);
  }

  lemma NoSepAcross(a: string, b: string)
    requires !Contains(a, SEP) && !Contains(b, SEP) && HasSuffix(a, "/") && !("/" <= b)
    ensures !Contains(a + b, SEP)
  {
    assert a[|a| - 1..][0] == '/';
    forall i | 0 <= i <= |a + b| - 3 ensures !OccursAt(a + b, SEP, i) {
      var w := (a + b)[i..i + 3];
      if i + 3 <= |a| {
        OccursInPrefix(a, b, SEP, i);
      } else if i >= |a| {
        OccursInSuffix(a, b, SEP, i - |a|);
      } else if i == |a| - 2 {
        assert w[2] == b[0] && b[0] != '/';
      } else {
        assert w[0] == a[|a| - 1];
      }
    }
  }

  /** A key that looks like a URL is not appended: different keys join to the same path. */
  lemma JoinLosesSchemes(target: string, a: string, b: string, k: string)
    requires Folder(target) && ValidScheme(a) && ValidScheme(b)
    requires a != "http" && a != "https" && b != "http" && b != "https"
    requires ':' !in k && '/' !in k
    ensures UrlJoinPath(target, a + SEP + k) == UrlJoinPath(target, b + SEP + k) == target
  {
    Collapses(a, k);
    Collapses(b, k);
    JoinForm(target, a + SEP + k);
    JoinForm(target, b + SEP + k);
    assert TrimPrefix("/", "/") == "";
  }

  lemma NoSlashPairs(s: string)
    requires ':' !in s
    ensures !Contains(s, SEP)
  {
    forall i | 0 <= i <= |s| - 3 ensures !OccursAt(s, SEP, i) {
      assert s[i..i + 3][0] == s[i];
    }
  }

  lemma Collapses(scheme: string, tail: string)
    requires ValidScheme(scheme) && scheme != "http" && scheme != "https"
    requires ':' !in tail && '/' !in tail
    ensures NewClientURL(scheme + SEP + tail) == FilePath("/")
  {
    var s := scheme + SEP + tail;
    assert ':' !in scheme;
    NoSlashPairs(tail);
    SchemeFirst(scheme, tail);
    assert s[..|scheme|] == scheme && s[|scheme| + 3..] == tail;
    assert ("//" + tail)[2..] == tail;
    forall j | 0 <= j < |tail| ensures !OccursAt(tail, "/", j) {
      assert tail[j..j + 1][0] == tail[j];
    }
  }

  // ---------- joining to a URL without a slash at its end ----------

  lemma SepWithSlash(s: string, i: int)
    requires !HasSuffix(s, "/")
    ensures OccursAt(s + "/", "://", i) <==> OccursAt(s, "://", i)
  {
    if 0 <= i <= |s| - 3 {
      OccursInPrefix(s, "/", "://", i);
    } else if 0 <= i == |s| - 2 {
      assert (s + "/")[i..i + 3][1] == s[|s| - 1];
      assert s[|s| - 1..] == [s[|s| - 1]];
    }
  }

  /** A slash at the end changes neither where a separator is found nor whether one is. */
  lemma FindWithSlash(s: string, from: nat)
    requires !HasSuffix(s, "/") && from <= |s|
    ensures Find(s + "/", "://", from) == Find(s, "://", from)
  {
    forall i ensures OccursAt(s + "/", "://", i) <==> OccursAt(s, "://", i) {
      SepWithSlash(s, i);
    }
    FindSame(s + "/", s, "://", from);
  }

  lemma FindSame(s: string, t: string, d: string, from: nat)
    requires from <= |s| && from <= |t| && forall i :: OccursAt(s, d, i) <==> OccursAt(t, d, i)
    ensures Find(s, d, from) == Find(t, d, from)
  {
    hide OccursAt;
  }

  lemma SlashAtEndOf(s: string)
    ensures HasSuffix(s, "/") <==> s != "" && s[|s| - 1] == '/'
  {
    assert s != "" ==> s[|s| - 1..] == [s[|s| - 1]];
  }

  lemma SchemeWithSlash(s: string)
    requires !HasSuffix(s, "/")
    ensures GetScheme(s + "/") == (GetScheme(s).0, GetScheme(s).1 + "/")
    ensures !HasSuffix(GetScheme(s).1, "/")
  {
    FindWithSlash(s, 0);
    hide ValidScheme, HasSuffix;
    SlashAtEndOf(s);
    match Find(s, SEP, 0)
    case None =>
    case Some(i) =>
      FindWithSlash(s, i + 3);
      var tail := s[i + 3..];
      assert (s + "/")[..i] == s[..i] && (s + "/")[i + 3..] == tail + "/";
      assert "//" + tail + "/" == "//" + (tail + "/");
      assert OccursAt(s, "://", i) && s[i + 2] == s[i..i + 3][2] == '/';
      assert tail != "";
      SlashAtEndOf("//" + tail);
  }

  /** What is made of the parts of a URL. */
  function FromParts(scheme: string, authority: string, tail: string): ClientURL {
    var path := if tail == "" then "/" else tail;
    if GetHost(authority) != "" && (scheme == "http" || scheme == "https")
    then ObjectUrl(scheme, GetHost(authority), path)
    else FilePath(path)
  }

  lemma ParsedFromParts(s: string)
    ensures var (scheme, rest) := GetScheme(s);
      NewClientURL(s)
      == if "//" <= rest
         then FromParts(scheme, SplitSpecial(rest[2..], "/", false).0, SplitSpecial(rest[2..], "/", false).1)
         else FilePath(rest)
  {
    hide GetScheme, SplitSpecial, GetHost;
  }

  lemma PartsWithSlash(scheme: string, authority: string, tail: string)
    requires !HasSuffix(tail, "/")
    ensures var u := FromParts(scheme, authority, tail);
      FromParts(scheme, authority, tail + "/") == if HasSuffix(u.path, "/") then u else u.(path := u.path + "/")
  {
    hide GetHost;
    assert "" + "/" == "/";
  }

  lemma RestWithSlash(rest: string)
    requires !HasSuffix(rest, "/")
    ensures "//" <= rest + "/" <==> "//" <= rest
    ensures "//" <= rest ==> (rest + "/")[2..] == rest[2..] + "/" && !HasSuffix(rest[2..], "/")
  {
    assert |rest| >= 2 ==> (rest + "/")[..2] == rest[..2];
    assert |rest| == 1 ==> (rest + "/")[0] == rest[0] && rest[|rest| - 1..] == rest;
    assert |rest| > 2 ==> rest[2..][|rest[2..]| - 1..] == rest[|rest| - 1..];
  }

  /** How parsing treats one more slash at the end. */
  lemma ParseWithSlash(s: string)
    requires !HasSuffix(s, "/")
    ensures var u := NewClientURL(s);
      NewClientURL(s + "/") == if HasSuffix(u.path, "/") then u else u.(path := u.path + "/")
  {
    hide *;
    SchemeWithSlash(s);
    ParsedFromParts(s);
    ParsedFromParts(s + "/");
    var (scheme, rest) := GetScheme(s);
    RestWithSlash(rest);
    if "//" <= rest {
      AuthorityWithSlash(rest[2..]);
      var (host, tail) := SplitSpecial(rest[2..], "/", false);
      PartsWithSlash(scheme, host, tail);
    } else {
      FileWithSlash(rest);
    }
  }

  lemma FileWithSlash(path: string)
    ensures FilePath(path).path == path && FilePath(path + "/") == FilePath(path).(path := path + "/")
  {
  }

  lemma AuthorityWithSlash(body: string)
    requires !HasSuffix(body, "/")
    ensures var (host, tail) := SplitSpecial(body, "/", false);
      && SplitSpecial(body + "/", "/", false) == (host, tail + "/")
      && !HasSuffix(tail, "/")
  {
    SplitParts(body);
    var (host, tail) := SplitSpecial(body, "/", false);
    assert tail != "" ==> tail[|tail| - 1..] == body[|body| - 1..];
    assert body + "/" == host + (tail + "/");
    SplitAtFirstSlash(host, tail + "/");
  }

  /** Joining to any URL, local or not, is joining to the folder it names: a missing slash at its end is put in. */
  lemma JoinsAsFolder(target: string, s: string)
    requires !HasSuffix(target, "/")
    ensures UrlJoinPath(target, s) == UrlJoinPath(target + "/", s)
  {
    ParseWithSlash(target);
    var u, v := NewClientURL(target), NewClientURL(s);
    hide NewClientURL;
    assert !HasSuffix(u.path, "/") ==> HasSuffix(u.path + "/", "/");
  }
}
