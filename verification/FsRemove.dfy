/** Recursive listing of a directory tree, and removal of paths with pruning of emptied parents. */
module FsRemove {
  import opened Strings

  /** A clean absolute path, by its components; the root has none. */
  type Path = seq<string>

  datatype Kind = File | Dir

  type Nodes = map<Path, Kind>

  /** The path as text. */
  function Render(p: Path): string {
    if p == [] then "/" else if |p| == 1 then "/" + p[0] else Render(p[..|p| - 1]) + "/" + p[|p| - 1]
  }

  function Parent(p: Path): Path
    requires p != []
  {
    p[..|p| - 1]
  }

  predicate IsChild(q: Path, p: Path) { q != [] && Parent(q) == p }

  predicate HasChild(nodes: Nodes, p: Path) { exists q | q in nodes :: IsChild(q, p) }

  // ---------- removing ----------

  /** What deleteFile leaves of the file system. */
  function Prune(nodes: Nodes, base: string, p: Path): Nodes
    decreases |p|
  {
    if p == [] || p !in nodes || HasChild(nodes, p) then nodes
    else if !(base <= Render(Parent(p))) then nodes - {p}
    else Prune(nodes - {p}, base, Parent(p))
  }

  /** Does the climb end at the root, which cannot be removed? */
  predicate ReachesRoot(nodes: Nodes, base: string, p: Path)
    decreases |p|
  {
    p == [] || (p in nodes && !HasChild(nodes, p) && base <= Render(Parent(p))
                && ReachesRoot(nodes - {p}, base, Parent(p)))
  }

  function PruneAll(nodes: Nodes, base: string, ps: seq<Path>): Nodes {
    if ps == [] then nodes else Prune(PruneAll(nodes, base, ps[..|ps| - 1]), base, ps[|ps| - 1])
  }

  /** How many of the paths are handled before a climb reaches the root. */
  function Survives(nodes: Nodes, base: string, ps: seq<Path>): (n: nat)
    ensures n <= |ps|
  {
    if ps == [] then 0
    else
      var last := |ps| - 1;
      var n := Survives(nodes, base, ps[..last]);
      if n < last then n
      else if ReachesRoot(PruneAll(nodes, base, ps[..last]), base, ps[last]) then last else last + 1
  }

  lemma NothingYet(nodes: Nodes, base: string)
    ensures PruneAll(nodes, base, []) == nodes && Survives(nodes, base, []) == 0
  {
  }

  lemma {:induction false} StaysFailed(nodes: Nodes, base: string, ps: seq<Path>, i: nat)
    requires i < |ps| && Survives(nodes, base, ps[..i + 1]) == i
    ensures Survives(nodes, base, ps) == i
    decreases |ps|
  {
    if i + 1 == |ps| {
      assert ps[..i + 1] == ps;
    } else {
      var last := |ps| - 1;
      assert ps[..last][..i + 1] == ps[..i + 1];
      StaysFailed(nodes, base, ps[..last], i);
    }
  }

  lemma NextPath(nodes: Nodes, base: string, ps: seq<Path>, i: nat)
    requires i < |ps| && Survives(nodes, base, ps[..i]) == i
    ensures PruneAll(nodes, base, ps[..i + 1]) == Prune(PruneAll(nodes, base, ps[..i]), base, ps[i])
    ensures if ReachesRoot(PruneAll(nodes, base, ps[..i]), base, ps[i]) then Survives(nodes, base, ps) == i
            else Survives(nodes, base, ps[..i + 1]) == i + 1
  {
    assert ps[..i + 1][..i] == ps[..i];
    if Survives(nodes, base, ps[..i + 1]) == i {
      StaysFailed(nodes, base, ps, i);
    }
  }

  datatype RemoveError = Removed | NotEmpty | NotExist | Busy

  class FileSystem {
    var nodes: Nodes

    constructor (nodes: Nodes)
      ensures this.nodes == nodes
    {
      this.nodes := nodes;
    }

    /** os.Remove: removes a file or an empty directory, never the root. */
    method OsRemove(p: Path) returns (e: RemoveError)
      modifies this
      ensures e == if p == [] then Busy else if p !in old(nodes) then NotExist
                   else if HasChild(old(nodes), p) then NotEmpty else Removed
      ensures nodes == if e.Removed? then old(nodes) - {p} else old(nodes)
    {
      if p == [] {
        return Busy;
      }
      if p !in nodes {
        return NotExist;
      }
      if HasChild(nodes, p) {
        return NotEmpty;
      }
      nodes := nodes - {p};
      return Removed;
    }

    /** deleteFile: removes a path if it is empty, then its emptied parents whose text starts with `basePath`. */
    method DeleteFile(basePath: string, deletePath: Path) returns (ok: bool)
      modifies this
      ensures nodes == Prune(old(nodes), basePath, deletePath)
      ensures ok == !ReachesRoot(old(nodes), basePath, deletePath)
      decreases |deletePath|
    {
      var e := OsRemove(deletePath);
      if !e.Removed? {
        return e.NotEmpty? || e.NotExist?;
      }
      var parentPath := Parent(deletePath);
      if !(basePath <= Render(parentPath)) {
        return true;
      }
      ok := DeleteFile(basePath, parentPath);
    }

    /** fsClient.Remove: the consuming loop; it stops at an error that is not about permissions. */
    method Remove(basePath: string, contentCh: seq<Path>) returns (removed: seq<Path>, failed: bool)
      modifies this
      ensures var n := Survives(old(nodes), basePath, contentCh);
        && failed == (n < |contentCh|) && removed == contentCh[..n]
        && nodes == PruneAll(old(nodes), basePath, if failed then contentCh[..n + 1] else contentCh)
    {
      ghost var before := nodes;
      hide Prune, PruneAll, ReachesRoot, Survives;
      NothingYet(before, basePath);
      removed, failed := [], false;
      for i := 0 to |contentCh|
        invariant nodes == PruneAll(before, basePath, contentCh[..i])
        invariant removed == contentCh[..i]
        invariant Survives(before, basePath, contentCh[..i]) == i
      {
        NextPath(before, basePath, contentCh, i);
        var ok := DeleteFile(basePath, contentCh[i]);
        if !ok {
          failed := true;
          return;
        }
        removed := removed + [contentCh[i]];
      }
      assert contentCh[..|contentCh|] == contentCh;
    }
  }

  // ---------- listing ----------

  /** A directory tree; the entries of a directory in the order in which they are read. */
  datatype Tree = Leaf | Folder(entries: seq<Entry>)
  datatype Entry = Entry(name: string, node: Tree)

  datatype DirOpt = DirNone | DirFirst | DirLast

  function ListEntry(e: Entry, p: Path, opt: DirOpt): seq<Path>
    decreases e
  {
    var name := p + [e.name];
    match e.node
    case Leaf => [name]
    case Folder(entries) =>
      (if opt.DirFirst? then [name] else []) + ListDir(entries, name, opt) + (if opt.DirLast? then [name] else [])
  }

  function ListDir(es: seq<Entry>, p: Path, opt: DirOpt): seq<Path>
    decreases es
  {
    if es == [] then [] else ListEntry(es[0], p, opt) + ListDir(es[1..], p, opt)
  }

  lemma {:induction false} ListDirConcat(es: seq<Entry>, fs: seq<Entry>, p: Path, opt: DirOpt)
    ensures ListDir(es + fs, p, opt) == ListDir(es, p, opt) + ListDir(fs, p, opt)
  {
    if es == [] {
      assert es + fs == fs;
    } else {
      assert (es + fs)[1..] == es[1..] + fs;
      ListDirConcat(es[1..], fs, p, opt);
    }
  }

  /** The closure of listDirOpt: sends the entries of one directory, recursing into each as it is met. */
  method ListDirectory(entries: seq<Entry>, currentPath: Path, opt: DirOpt) returns (contentCh: seq<Path>)
    ensures contentCh == ListDir(entries, currentPath, opt)
    decreases entries
  {
    contentCh := [];
    for i := 0 to |entries|
      invariant contentCh == ListDir(entries[..i], currentPath, opt)
    {
      var file := entries[i];
      assert entries[..i + 1] == entries[..i] + [file];
      ListDirConcat(entries[..i], [file], currentPath, opt);
      assert [file][1..] == [] && ListDir([file], currentPath, opt) == ListEntry(file, currentPath, opt);
      var name := currentPath + [file.name];
      if file.node.Folder? {
        if opt.DirFirst? {
          contentCh := contentCh + [name];
        }
        var below := ListDirectory(file.node.entries, name, opt);
        contentCh := contentCh + below;
        if opt.DirLast? {
          contentCh := contentCh + [name];
        }
        continue;
      }
      contentCh := contentCh + [name];
    }
    assert entries[..|entries|] == entries;
  }

  /** listDirOpt: the listing of a directory, itself first or last. */
  method ListDirOpt(entries: seq<Entry>, currentPath: Path, opt: DirOpt) returns (contentCh: seq<Path>)
    ensures contentCh == Emission(entries, currentPath, opt)
  {
    contentCh := [];
    if opt.DirFirst? {
      contentCh := contentCh + [currentPath];
    }
    var below := ListDirectory(entries, currentPath, opt);
    contentCh := contentCh + below;
    if opt.DirLast? {
      contentCh := contentCh + [currentPath];
    }
  }

  function Emission(entries: seq<Entry>, p: Path, opt: DirOpt): seq<Path> {
    (if opt.DirFirst? then [p] else []) + ListDir(entries, p, opt) + (if opt.DirLast? then [p] else [])
  }

  /** The filter between a listing and its consumer: unfinished uploads are left out. */
  method Filter(contentCh: seq<Path>, hidden: Path -> bool) returns (filteredCh: seq<Path>)
    ensures filteredCh == Visible(contentCh, hidden)
  {
    filteredCh := [];
    for i := 0 to |contentCh|
      invariant filteredCh == Visible(contentCh[..i], hidden)
    {
      assert contentCh[..i + 1][..i] == contentCh[..i];
      if hidden(contentCh[i]) {
        continue;
      }
      filteredCh := filteredCh + [contentCh[i]];
    }
    assert contentCh[..|contentCh|] == contentCh;
  }

  function Visible(ps: seq<Path>, hidden: Path -> bool): seq<Path> {
    if ps == [] then []
    else Visible(ps[..|ps| - 1], hidden) + if hidden(ps[|ps| - 1]) then [] else [ps[|ps| - 1]]
  }
}
