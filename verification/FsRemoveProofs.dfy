/** What a recursive listing contains, and what is left of a tree after its listing was removed. */
module FsRemoveTheorems {
  import opened FsRemove
  import opened Strings

  // ---------- paths as text ----------

  predicate Named(p: Path) { forall i | 0 <= i < |p| :: p[i] != "" }

  /** Longer paths are longer texts, and a path below another continues its text with a slash. */
  lemma {:induction false} RenderBelow(b: Path, q: Path)
    requires b != [] && b <= q && Named(q)
    ensures Render(b) <= Render(q)
    ensures b != q ==> Render(b) + "/" <= Render(q)
    decreases |q|
  {
    if b == q {
    } else {
      assert b <= Parent(q);
      RenderBelow(b, Parent(q));
      if b == Parent(q) {
        assert Render(q) == Render(b) + "/" + q[|q| - 1];
      } else {
        assert Render(b) + "/" <= Render(Parent(q)) <= Render(q);
      }
    }
  }

  lemma {:induction false} RenderAbove(q: Path, b: Path)
    requires q <= b && q != b && Named(b)
    ensures |Render(q)| < |Render(b)|
    decreases |b|
  {
    if q == Parent(b) {
      assert b[|b| - 1] != "";
    } else {
      assert q <= Parent(b);
      RenderAbove(q, Parent(b));
    }
  }

  /** The two ways in which a base is written: as it is, or with a slash at its end. */
  function BaseText(b: Path, slash: bool): string { Render(b) + if slash then "/" else "" }

  /** The paths which pruning may remove: below the base, and the base itself unless it ends in a slash. */
  predicate Inside(b: Path, slash: bool, p: Path) { b <= p && (slash ==> b != p) }

  lemma {:induction false} RenderRooted(q: Path)
    ensures "/" <= Render(q)
    decreases |q|
  {
    if |q| <= 1 {
    } else {
      RenderRooted(Parent(q));
    }
  }

  /** On the way up from a path below the base, comparing texts is comparing paths. */
  lemma TextDecidesInside(b: Path, slash: bool, x: Path, q: Path)
    requires (b == [] ==> !slash) && b <= x && q <= x && Named(x)
    ensures BaseText(b, slash) <= Render(q) <==> Inside(b, slash, q)
  {
    if b == [] {
      RenderRooted(q);
    } else if b <= q {
      RenderBelow(b, q);
      if b == q && slash {
        assert |BaseText(b, slash)| > |Render(q)|;
      }
    } else {
      assert q == x[..|q|] && b == x[..|b|];
      assert q <= b;
      RenderAbove(q, b);
    }
  }

  // ---------- removal in any order ----------

  /** Every parent is there, and no name is empty. */
  ghost predicate WellFormed(nodes: Nodes) {
    forall p | p in nodes :: Named(p) && (p != [] ==> Parent(p) in nodes)
  }

  lemma {:induction false} AncestorsExist(nodes: Nodes, q: Path, p: Path)
    requires WellFormed(nodes) && p in nodes && q <= p
    ensures q in nodes
    decreases |p|
  {
    if q == p {
    } else {
      assert q <= Parent(p);
      AncestorsExist(nodes, q, Parent(p));
    }
  }

  predicate IsLeaf(nodes: Nodes, l: Path) { l in nodes && !HasChild(nodes, l) }

  /** Some leaf at or below the path was not handed in for removal. */
  predicate Held(nodes: Nodes, ps: seq<Path>, p: Path) {
    exists l | l in nodes :: IsLeaf(nodes, l) && p <= l && l !in ps
  }

  predicate Stays(nodes: Nodes, b: Path, slash: bool, ps: seq<Path>, p: Path) {
    p in nodes && (Inside(b, slash, p) ==> Held(nodes, ps, p))
  }

  lemma HeldUpwards(nodes: Nodes, ps: seq<Path>, q: Path, p: Path)
    requires Held(nodes, ps, p) && q <= p
    ensures Held(nodes, ps, q)
  {
    var l :| l in nodes && IsLeaf(nodes, l) && p <= l && l !in ps;
    assert q <= l;
  }

  function Towards(q: Path, l: Path): Path
    requires q <= l && q != l
  {
    l[..|q| + 1]
  }

  lemma TowardsIsChild(nodes: Nodes, q: Path, l: Path)
    requires WellFormed(nodes) && l in nodes && q <= l && q != l
    ensures Towards(q, l) in nodes && IsChild(Towards(q, l), q) && Towards(q, l) <= l
  {
    AncestorsExist(nodes, Towards(q, l), l);
    assert Parent(Towards(q, l)) == q;
  }

  /** Midway through the climb: the ancestors up to `q` are still there, the rest is settled. */
  ghost predicate Climbing(nodes: Nodes, b: Path, slash: bool, ps: seq<Path>, now: Nodes, q: Path) {
    && (forall p | p in now :: Stays(nodes, b, slash, ps, p) || (p in nodes && p <= q))
    && (forall p | p in nodes :: Stays(nodes, b, slash, ps, p) || p <= q ==> p in now && now[p] == nodes[p])
  }

  ghost predicate Settled(nodes: Nodes, b: Path, slash: bool, ps: seq<Path>, now: Nodes) {
    && (forall p | p in now :: Stays(nodes, b, slash, ps, p))
    && (forall p | p in nodes :: Stays(nodes, b, slash, ps, p) ==> p in now && now[p] == nodes[p])
  }

  /** A base which is the root, written without another slash, holds something that was not handed in. */
  predicate BaseStays(nodes: Nodes, b: Path, slash: bool, ps: seq<Path>) {
    b == [] ==> !slash && Held(nodes, ps, [])
  }

  /** The directory being looked at still has a child exactly when a leaf holds it. */
  lemma ChildMeansHeld(nodes: Nodes, b: Path, slash: bool, ps: seq<Path>, now: Nodes, q: Path)
    requires WellFormed(nodes)
    requires q in nodes && Inside(b, slash, q) && (IsLeaf(nodes, q) ==> q in ps)
    requires Climbing(nodes, b, slash, ps, now, q)
    ensures HasChild(now, q) <==> Held(nodes, ps, q)
  {
    if HasChild(now, q) {
      var c :| c in now && IsChild(c, q);
      assert c[..|q|] == q && !(c <= q);
      assert Inside(b, slash, c);
      HeldUpwards(nodes, ps, q, c);
    }
    if Held(nodes, ps, q) {
      var l :| l in nodes && IsLeaf(nodes, l) && q <= l && l !in ps;
      TowardsIsChild(nodes, q, l);
      assert Stays(nodes, b, slash, ps, Towards(q, l));
    }
  }

  lemma {:induction false} PruneSettles(nodes: Nodes, b: Path, slash: bool, ps: seq<Path>, now: Nodes, q: Path)
    requires WellFormed(nodes) && BaseStays(nodes, b, slash, ps)
    requires q in nodes && Inside(b, slash, q) && (IsLeaf(nodes, q) ==> q in ps)
    requires Climbing(nodes, b, slash, ps, now, q)
    ensures Settled(nodes, b, slash, ps, Prune(now, BaseText(b, slash), q))
    decreases |q|
  {
    ChildMeansHeld(nodes, b, slash, ps, now, q);
    if Held(nodes, ps, q) {
      forall p | p in nodes && p <= q
        ensures Stays(nodes, b, slash, ps, p)
      {
        HeldUpwards(nodes, ps, p, q);
      }
    } else {
      var up, next := Parent(q), now - {q};
      TextDecidesInside(b, slash, q, up);
      forall p | p in nodes && p <= q
        ensures p == q || p <= up
      {
      }
      if Inside(b, slash, up) {
        assert IsChild(q, up);
        PruneSettles(nodes, b, slash, ps, next, up);
      }
    }
  }

  lemma HeldSnoc(nodes: Nodes, ps: seq<Path>, x: Path, p: Path)
    ensures Held(nodes, ps + [x], p) ==> Held(nodes, ps, p)
    ensures Held(nodes, ps, p) ==> Held(nodes, ps + [x], p) || (IsLeaf(nodes, x) && x !in ps && p <= x)
  {
    if Held(nodes, ps + [x], p) {
      var l :| l in nodes && IsLeaf(nodes, l) && p <= l && l !in ps + [x];
      assert l !in ps;
    }
    if Held(nodes, ps, p) {
      var l :| l in nodes && IsLeaf(nodes, l) && p <= l && l !in ps;
      assert l == x || l !in ps + [x];
    }
  }

  /** The last leaf of its branch is handed in: the climb starts. */
  lemma LeafStep(nodes: Nodes, b: Path, slash: bool, ps: seq<Path>, now: Nodes, x: Path)
    requires WellFormed(nodes) && BaseStays(nodes, b, slash, ps + [x])
    requires IsLeaf(nodes, x) && x !in ps && Inside(b, slash, x)
    requires Settled(nodes, b, slash, ps, now)
    ensures Settled(nodes, b, slash, ps + [x], Prune(now, BaseText(b, slash), x))
  {
    hide Prune, BaseText, WellFormed, HasChild;
    forall p | p in nodes
      ensures Stays(nodes, b, slash, ps, p) <==> Stays(nodes, b, slash, ps + [x], p) || p <= x
    {
      HeldSnoc(nodes, ps, x, p);
      assert p <= x ==> Held(nodes, ps, p);
    }
    PruneSettles(nodes, b, slash, ps + [x], now, x);
  }

  /** Nothing happens to a directory which still leads to a leaf, or to a path which is already gone. */
  lemma IdleStep(nodes: Nodes, b: Path, slash: bool, ps: seq<Path>, now: Nodes, x: Path)
    requires WellFormed(nodes)
    requires x in nodes && Inside(b, slash, x) && (IsLeaf(nodes, x) ==> x in ps)
    requires Settled(nodes, b, slash, ps, now)
    ensures x in now ==> HasChild(now, x)
    ensures Settled(nodes, b, slash, ps + [x], now)
  {
    hide WellFormed, HasChild;
    forall p | p in nodes
      ensures Held(nodes, ps, p) <==> Held(nodes, ps + [x], p)
    {
      HeldSnoc(nodes, ps, x, p);
    }
    if x in now {
      forall p | p in nodes && p <= x
        ensures Stays(nodes, b, slash, ps, p)
      {
        HeldUpwards(nodes, ps, p, x);
      }
      ChildMeansHeld(nodes, b, slash, ps, now, x);
    }
  }

  /** One more path handed in. */
  lemma RemovalStep(nodes: Nodes, b: Path, slash: bool, ps: seq<Path>, now: Nodes, x: Path)
    requires WellFormed(nodes) && BaseStays(nodes, b, slash, ps + [x])
    requires x in nodes && Inside(b, slash, x)
    requires Settled(nodes, b, slash, ps, now)
    ensures Settled(nodes, b, slash, ps + [x], Prune(now, BaseText(b, slash), x))
  {
    hide WellFormed, HasChild, BaseText, Settled;
    if IsLeaf(nodes, x) && x !in ps {
      LeafStep(nodes, b, slash, ps, now, x);
    } else {
      IdleStep(nodes, b, slash, ps, now, x);
    }
  }

  lemma NothingHandedIn(nodes: Nodes, p: Path)
    requires exists l | l in nodes :: IsLeaf(nodes, l) && p <= l
    ensures Held(nodes, [], p)
  {
  }

  /** Whatever the order: below the base exactly those nodes remain which lead to a leaf that was not handed in. */
  lemma {:induction false} RemovalIgnoresOrder(nodes: Nodes, b: Path, slash: bool, ps: seq<Path>)
    requires WellFormed(nodes) && b in nodes && BaseStays(nodes, b, slash, ps)
    requires forall i | 0 <= i < |ps| :: ps[i] in nodes && Inside(b, slash, ps[i])
    ensures Settled(nodes, b, slash, ps, PruneAll(nodes, BaseText(b, slash), ps))
    decreases |ps|
  {
    hide Prune, BaseText, WellFormed, HasChild, Held;
    if ps == [] {
      forall p | p in nodes
        ensures Held(nodes, ps, p)
      {
        LeafBelow(nodes, p);
        NothingHandedIn(nodes, p);
      }
    } else {
      var ps0 := ps[..|ps| - 1];
      HeldSnoc(nodes, ps0, ps[|ps| - 1], []);
      assert ps0 + [ps[|ps| - 1]] == ps;
      RemovalIgnoresOrder(nodes, b, slash, ps0);
      RemovalStep(nodes, b, slash, ps0, PruneAll(nodes, BaseText(b, slash), ps0), ps[|ps| - 1]);
    }
  }

  function Below(nodes: Nodes, p: Path): set<Path> { set q | q in nodes && p <= q }

  /** Every node leads to a leaf: descend, using up the nodes below. */
  lemma {:induction false} LeafBelow(nodes: Nodes, p: Path)
    requires p in nodes
    ensures exists l | l in nodes :: IsLeaf(nodes, l) && p <= l
    decreases |Below(nodes, p)|
  {
    if HasChild(nodes, p) {
      var c :| c in nodes && IsChild(c, p);
      assert c[..|p|] == p && !(c <= p);
      Shrinks(Below(nodes, c), Below(nodes, p), p);
      LeafBelow(nodes, c);
    } else {
      assert IsLeaf(nodes, p);
    }
  }

  lemma Shrinks<T>(inner: set<T>, outer: set<T>, x: T)
    requires inner <= outer && x in outer && x !in inner
    ensures |inner| < |outer|
  {
    assert inner <= outer - {x};
    SubsetSize(inner, outer - {x});
  }

  lemma {:induction false} SubsetSize<T>(inner: set<T>, outer: set<T>)
    requires inner <= outer
    ensures |inner| <= |outer|
    decreases |inner|
  {
    if inner == {} {
    } else {
      var x :| x in inner;
      SubsetSize(inner - {x}, outer - {x});
    }
  }

  // ---------- what a listing contains ----------

  /** The tree itself, read without listing it: is there an entry at this relative path? */
  predicate Present(es: seq<Entry>, rel: Path)
    decreases |rel|
  {
    rel != [] && exists i | 0 <= i < |es| :: Leads(es[i], rel)
  }

  predicate Leads(e: Entry, rel: Path)
    requires rel != []
    decreases |rel|, 0
  {
    e.name == rel[0] && (|rel| == 1 || (e.node.Folder? && Present(e.node.entries, rel[1..])))
  }

  /** Names are not empty, and no directory holds two entries of one name. */
  predicate Proper(es: seq<Entry>) {
    && (forall i | 0 <= i < |es| :: es[i].name != "" && (es[i].node.Folder? ==> Proper(es[i].node.entries)))
    && (forall i, j | 0 <= i < j < |es| :: es[i].name != es[j].name)
  }

  lemma {:induction false} EntryListing(e: Entry, p: Path, x: Path, opt: DirOpt)
    requires !opt.DirNone?
    ensures x in ListEntry(e, p, opt) <==> p <= x && p != x && Leads(e, x[|p|..])
    decreases e
  {
    var name := p + [e.name];
    if p <= x && p != x {
      assert x[|p|..][0] == x[|p|];
      assert name <= x <==> x[|p|] == e.name;
      assert x == name <==> |x| == |name| && x[|p|] == e.name;
    }
    if e.node.Folder? {
      DirListing(e.node.entries, name, x, opt);
      if p <= x && p != x && name <= x {
        assert x[|p|..][1..] == x[|name|..];
      }
    }
  }

  lemma {:induction false} DirListing(es: seq<Entry>, p: Path, x: Path, opt: DirOpt)
    requires !opt.DirNone?
    ensures x in ListDir(es, p, opt) <==> p <= x && Present(es, x[|p|..])
    decreases es
  {
    if es == [] {
    } else {
      EntryListing(es[0], p, x, opt);
      DirListing(es[1..], p, x, opt);
      if p <= x && p != x {
        var rel := x[|p|..];
        assert forall i | 1 <= i < |es| :: es[i] == es[1..][i - 1];
      }
    }
  }

  /** No directory comes before something inside it. */
  predicate ChildrenFirst(s: seq<Path>) { forall i, j | 0 <= i < j < |s| :: !(s[i] <= s[j]) }

  lemma Joined(s: seq<Path>, t: seq<Path>)
    requires ChildrenFirst(s) && ChildrenFirst(t)
    requires forall x, y | x in s && y in t :: !(x <= y)
    ensures ChildrenFirst(s + t)
  {
    forall i, j | 0 <= i < j < |s + t|
      ensures !((s + t)[i] <= (s + t)[j])
    {
      if i < |s| && |s| <= j {
        assert (s + t)[i] in s && (s + t)[j] in t;
      }
    }
  }

  lemma {:induction false} EntryOrder(e: Entry, p: Path)
    requires e.node.Folder? ==> Proper(e.node.entries)
    ensures ChildrenFirst(ListEntry(e, p, DirLast))
    decreases e
  {
    if e.node.Folder? {
      var name := p + [e.name];
      DirOrder(e.node.entries, name);
      forall x | x in ListDir(e.node.entries, name, DirLast)
        ensures !(x <= name)
      {
        DirListing(e.node.entries, name, x, DirLast);
      }
      Joined(ListDir(e.node.entries, name, DirLast), [name]);
      assert ListEntry(e, p, DirLast) == ListDir(e.node.entries, name, DirLast) + [name];
    }
  }

  /** Post-order; in particular nothing is listed twice. */
  lemma {:induction false} DirOrder(es: seq<Entry>, p: Path)
    requires Proper(es)
    ensures ChildrenFirst(ListDir(es, p, DirLast))
    decreases es
  {
    if es == [] {
    } else {
      assert forall i | 1 <= i < |es| :: es[i] == es[1..][i - 1];
      EntryOrder(es[0], p);
      DirOrder(es[1..], p);
      forall x, y | x in ListEntry(es[0], p, DirLast) && y in ListDir(es[1..], p, DirLast)
        ensures !(x <= y)
      {
        EntryListing(es[0], p, x, DirLast);
        DirListing(es[1..], p, y, DirLast);
        var i :| 0 <= i < |es[1..]| && Leads(es[1..][i], y[|p|..]);
        assert x[|p|..][0] == x[|p|] && y[|p|..][0] == y[|p|];
      }
      Joined(ListEntry(es[0], p, DirLast), ListDir(es[1..], p, DirLast));
    }
  }

  /** A recursive listing is the directory itself and everything in it, in either order of directories. */
  lemma ListsEverything(es: seq<Entry>, b: Path, opt: DirOpt, x: Path)
    requires !opt.DirNone?
    ensures x in Emission(es, b, opt) <==> x == b || (b <= x && Present(es, x[|b|..]))
  {
    DirListing(es, b, x, opt);
  }

  lemma ListsChildrenFirst(es: seq<Entry>, b: Path)
    requires Proper(es)
    ensures ChildrenFirst(Emission(es, b, DirLast))
  {
    DirOrder(es, b);
    var below := ListDir(es, b, DirLast);
    forall x | x in below
      ensures !(x <= b)
    {
      DirListing(es, b, x, DirLast);
    }
    Joined(below, [b]);
    assert Emission(es, b, DirLast) == below + [b];
  }

  /** No path comes after something inside it. */
  predicate ParentsFirst(s: seq<Path>) { forall i, j | 0 <= i < j < |s| :: !(s[j] <= s[i]) }

  lemma JoinedBelow(s: seq<Path>, t: seq<Path>)
    requires ParentsFirst(s) && ParentsFirst(t)
    requires forall x, y | x in s && y in t :: !(y <= x)
    ensures ParentsFirst(s + t)
  {
    forall i, j | 0 <= i < j < |s + t|
      ensures !((s + t)[j] <= (s + t)[i])
    {
      if i < |s| && |s| <= j {
        assert (s + t)[i] in s && (s + t)[j] in t;
      }
    }
  }

  lemma {:induction false} EntryOrderFirst(e: Entry, p: Path)
    requires e.node.Folder? ==> Proper(e.node.entries)
    ensures ParentsFirst(ListEntry(e, p, DirFirst))
    decreases e
  {
    if e.node.Folder? {
      var name := p + [e.name];
      DirOrderFirst(e.node.entries, name);
      forall x | x in ListDir(e.node.entries, name, DirFirst)
        ensures !(x <= name)
      {
        DirListing(e.node.entries, name, x, DirFirst);
      }
      JoinedBelow([name], ListDir(e.node.entries, name, DirFirst));
      assert ListEntry(e, p, DirFirst) == [name] + ListDir(e.node.entries, name, DirFirst);
    }
  }

  lemma {:induction false} DirOrderFirst(es: seq<Entry>, p: Path)
    requires Proper(es)
    ensures ParentsFirst(ListDir(es, p, DirFirst))
    decreases es
  {
    if es == [] {
    } else {
      assert forall i | 1 <= i < |es| :: es[i] == es[1..][i - 1];
      EntryOrderFirst(es[0], p);
      DirOrderFirst(es[1..], p);
      forall x, y | x in ListEntry(es[0], p, DirFirst) && y in ListDir(es[1..], p, DirFirst)
        ensures !(y <= x)
      {
        EntryListing(es[0], p, x, DirFirst);
        DirListing(es[1..], p, y, DirFirst);
        var i :| 0 <= i < |es[1..]| && Leads(es[1..][i], y[|p|..]);
        assert x[|p|..][0] == x[|p|] && y[|p|..][0] == y[|p|];
      }
      JoinedBelow(ListEntry(es[0], p, DirFirst), ListDir(es[1..], p, DirFirst));
    }
  }

  lemma ListsParentsFirst(es: seq<Entry>, b: Path)
    requires Proper(es)
    ensures ParentsFirst(Emission(es, b, DirFirst))
  {
    DirOrderFirst(es, b);
    var below := ListDir(es, b, DirFirst);
    forall x | x in below
      ensures !(x <= b)
    {
      DirListing(es, b, x, DirFirst);
    }
    JoinedBelow([b], below);
    assert Emission(es, b, DirFirst) == [b] + below;
  }

  // ---------- removing a listing ----------

  /** The file system holds this tree below the base. */
  ghost predicate Holds(nodes: Nodes, b: Path, es: seq<Entry>) {
    && b in nodes
    && forall x: Path | b <= x && x != b :: x in nodes <==> Present(es, x[|b|..])
  }

  lemma {:induction false} VisibleIs(ps: seq<Path>, hidden: Path -> bool, x: Path)
    ensures x in Visible(ps, hidden) <==> x in ps && !hidden(x)
    decreases |ps|
  {
    if ps == [] {
    } else {
      VisibleIs(ps[..|ps| - 1], hidden, x);
      assert ps == ps[..|ps| - 1] + [ps[|ps| - 1]];
    }
  }

  lemma NoChildLeft(nodes: Nodes, b: Path, slash: bool, all: seq<Path>, i: nat, now: Nodes)
    requires i < |all| && ChildrenFirst(all) && b <= all[i]
    requires Settled(nodes, b, slash, all[..i], now)
    requires forall l | l in nodes && b <= l :: l in all
    ensures !HasChild(now, all[i])
  {
    if HasChild(now, all[i]) {
      var c :| c in now && IsChild(c, all[i]);
      assert c[..|all[i]|] == all[i] && Inside(b, slash, c);
      assert false;
    }
  }

  /** When the removal reaches a path, everything below it is gone already. */
  lemma EmptyWhenReached(nodes: Nodes, b: Path, es: seq<Entry>, slash: bool, i: nat)
    requires WellFormed(nodes) && b != [] && Holds(nodes, b, es) && Proper(es)
    requires i < |Emission(es, b, DirLast)|
    ensures !HasChild(PruneAll(nodes, BaseText(b, slash), Emission(es, b, DirLast)[..i]), Emission(es, b, DirLast)[i])
  {
    var all := Emission(es, b, DirLast);
    ListsChildrenFirst(es, b);
    ListingIsInside(nodes, b, es, slash, i);
    forall l
      ensures l in all <==> b <= l && l in nodes
    {
      ListsEverything(es, b, DirLast, l);
    }
    assert all[i] in all;
    hide Emission, PruneAll, BaseText, WellFormed, Holds, Settled, HasChild;
    RemovalIgnoresOrder(nodes, b, slash, all[..i]);
    NoChildLeft(nodes, b, slash, all, i, PruneAll(nodes, BaseText(b, slash), all[..i]));
  }

  lemma ListingIsInside(nodes: Nodes, b: Path, es: seq<Entry>, slash: bool, n: nat)
    requires Holds(nodes, b, es) && n < |Emission(es, b, DirLast)|
    ensures forall k | 0 <= k < n ::
              Emission(es, b, DirLast)[..n][k] in nodes && Inside(b, slash, Emission(es, b, DirLast)[..n][k])
  {
    var all := Emission(es, b, DirLast);
    forall k | 0 <= k < n
      ensures all[..n][k] in nodes && Inside(b, slash, all[..n][k])
    {
      var x := ListDir(es, b, DirLast)[k];
      assert x in ListDir(es, b, DirLast);
      DirListing(es, b, x, DirLast);
    }
  }

  /** A leaf below the path was kept out of the listing. */
  predicate HiddenBelow(nodes: Nodes, hidden: Path -> bool, p: Path) {
    exists l | l in nodes :: IsLeaf(nodes, l) && p <= l && hidden(l)
  }

  /**
   * The end of a recursive removal: outside the base nothing changes; below it exactly those nodes
   * remain which lead to something the listing left out.
   */
  ghost predicate RemovedBelow(nodes: Nodes, b: Path, slash: bool, hidden: Path -> bool, left: Nodes) {
    && (forall p | p in nodes :: p in left <==>
                                 !(b <= p) || HiddenBelow(nodes, hidden, p) || (slash && p == b && hidden(b)))
    && (forall p | p in left :: p in nodes && left[p] == nodes[p])
  }

  lemma HeldMeansHidden(nodes: Nodes, b: Path, hidden: Path -> bool, ps: seq<Path>, p: Path)
    requires b <= p
    requires forall l | l in nodes && b <= l && p <= l && IsLeaf(nodes, l) :: l in ps <==> !hidden(l)
    ensures Held(nodes, ps, p) <==> HiddenBelow(nodes, hidden, p)
  {
    if Held(nodes, ps, p) {
      var l :| l in nodes && IsLeaf(nodes, l) && p <= l && l !in ps;
      assert b <= l;
    }
    if HiddenBelow(nodes, hidden, p) {
      var l :| l in nodes && IsLeaf(nodes, l) && p <= l && hidden(l);
      assert b <= l;
    }
  }

  lemma RemovesWhatIsListed(nodes: Nodes, b: Path, es: seq<Entry>, hidden: Path -> bool)
    requires WellFormed(nodes) && b != [] && Holds(nodes, b, es)
    ensures RemovedBelow(nodes, b, false, hidden,
                         PruneAll(nodes, BaseText(b, false), Visible(Emission(es, b, DirLast), hidden)))
  {
    var ps := Visible(Emission(es, b, DirLast), hidden);
    forall x
      ensures x in ps <==> !hidden(x) && x in nodes && b <= x
    {
      VisibleIs(Emission(es, b, DirLast), hidden, x);
      ListsEverything(es, b, DirLast, x);
    }
    hide Visible, Emission, BaseText, PruneAll, Holds, WellFormed;
    forall i | 0 <= i < |ps|
      ensures ps[i] in nodes && Inside(b, false, ps[i])
    {
      assert ps[i] in ps;
    }
    RemovalIgnoresOrder(nodes, b, false, ps);
    forall p | p in nodes && b <= p
      ensures Held(nodes, ps, p) <==> HiddenBelow(nodes, hidden, p)
    {
      HeldMeansHidden(nodes, b, hidden, ps, p);
    }
  }

  /** The part below the base, for a base which ends in a slash. */
  lemma RemovesInside(nodes: Nodes, b: Path, es: seq<Entry>, hidden: Path -> bool)
    requires WellFormed(nodes) && b != [] && Holds(nodes, b, es)
    ensures var ps := Visible(ListDir(es, b, DirLast), hidden);
      && Settled(nodes, b, true, ps, PruneAll(nodes, BaseText(b, true), ps))
      && forall p | p in nodes && Inside(b, true, p) :: Held(nodes, ps, p) <==> HiddenBelow(nodes, hidden, p)
  {
    var below := ListDir(es, b, DirLast);
    var ps := Visible(below, hidden);
    forall x
      ensures x in ps <==> !hidden(x) && x in nodes && Inside(b, true, x)
    {
      VisibleIs(below, hidden, x);
      DirListing(es, b, x, DirLast);
    }
    hide Visible, ListDir, BaseText, PruneAll, Holds, WellFormed;
    forall i | 0 <= i < |ps|
      ensures ps[i] in nodes && Inside(b, true, ps[i])
    {
      assert ps[i] in ps;
    }
    RemovalIgnoresOrder(nodes, b, true, ps);
    forall p | p in nodes && Inside(b, true, p)
      ensures Held(nodes, ps, p) <==> HiddenBelow(nodes, hidden, p)
    {
      HeldMeansHidden(nodes, b, hidden, ps, p);
    }
  }

  lemma Snoc(nodes: Nodes, base: string, hidden: Path -> bool, ps: seq<Path>, x: Path)
    ensures var left := PruneAll(nodes, base, Visible(ps, hidden));
      PruneAll(nodes, base, Visible(ps + [x], hidden)) == if hidden(x) then left else Prune(left, base, x)
  {
    assert (ps + [x])[..|ps|] == ps;
    var vs := Visible(ps, hidden);
    assert Visible(ps + [x], hidden) == if hidden(x) then vs else vs + [x];
    assert (vs + [x])[..|vs|] == vs;
  }

  lemma RemovesWhatIsListedInside(nodes: Nodes, b: Path, es: seq<Entry>, hidden: Path -> bool)
    requires WellFormed(nodes) && b != [] && Holds(nodes, b, es)
    ensures RemovedBelow(nodes, b, true, hidden,
                         PruneAll(nodes, BaseText(b, true), Visible(Emission(es, b, DirLast), hidden)))
  {
    var below := ListDir(es, b, DirLast);
    var ps := Visible(below, hidden);
    var now := PruneAll(nodes, BaseText(b, true), ps);
    RemovesInside(nodes, b, es, hidden);
    assert Emission(es, b, DirLast) == below + [b];
    Snoc(nodes, BaseText(b, true), hidden, below, b);
    hide Visible, ListDir, Emission, BaseText, PruneAll, Prune, WellFormed;
    if !hidden(b) {
      BaseGoesLast(nodes, b, hidden, ps, now);
    }
  }

  lemma BaseGoesLast(nodes: Nodes, b: Path, hidden: Path -> bool, ps: seq<Path>, now: Nodes)
    requires WellFormed(nodes) && b != [] && b in nodes && !hidden(b)
    requires Settled(nodes, b, true, ps, now)
    requires forall p | p in nodes && Inside(b, true, p) :: Held(nodes, ps, p) <==> HiddenBelow(nodes, hidden, p)
    ensures RemovedBelow(nodes, b, true, hidden, Prune(now, BaseText(b, true), b))
  {
    assert HasChild(now, b) <==> HiddenBelow(nodes, hidden, b) by {
      if HasChild(now, b) {
        var c :| c in now && IsChild(c, b);
        assert c[..|b|] == b && Inside(b, true, c);
        var l :| l in nodes && IsLeaf(nodes, l) && c <= l && hidden(l);
        assert b <= l;
      }
      if HiddenBelow(nodes, hidden, b) {
        var l :| l in nodes && IsLeaf(nodes, l) && b <= l && hidden(l);
        TowardsIsChild(nodes, b, l);
        assert HiddenBelow(nodes, hidden, Towards(b, l));
        assert Stays(nodes, b, true, ps, Towards(b, l));
      }
    }
    TextDecidesInside(b, true, b, Parent(b));
  }

  /** Nothing hidden: the whole tree goes, and nothing else. */
  lemma RemovesTheWholeTree(nodes: Nodes, b: Path, es: seq<Entry>, slash: bool)
    requires WellFormed(nodes) && b != [] && Holds(nodes, b, es)
    ensures PruneAll(nodes, BaseText(b, slash), Visible(Emission(es, b, DirLast), p => false))
         == map p | p in nodes && !(b <= p) :: nodes[p]
  {
    if slash {
      RemovesWhatIsListedInside(nodes, b, es, p => false);
    } else {
      RemovesWhatIsListed(nodes, b, es, p => false);
    }
  }

  /** With a base that is not the root, no removal below it ever climbs as far as the root. */
  lemma {:induction false} NeverReachesRoot(nodes: Nodes, b: Path, slash: bool, p: Path)
    requires b != [] && b <= p && Named(p)
    ensures !ReachesRoot(nodes, BaseText(b, slash), p)
    decreases |p|
  {
    TextDecidesInside(b, slash, p, Parent(p));
    if !Inside(b, slash, Parent(p)) {
    } else {
      NeverReachesRoot(nodes - {p}, b, slash, Parent(p));
    }
  }

  /** So removing paths below such a base never fails on the way. */
  lemma {:induction false} NoRemovalFails(nodes: Nodes, b: Path, slash: bool, ps: seq<Path>)
    requires b != [] && forall i | 0 <= i < |ps| :: b <= ps[i] && Named(ps[i])
    ensures Survives(nodes, BaseText(b, slash), ps) == |ps|
    decreases |ps|
  {
    if ps == [] {
    } else {
      var last := |ps| - 1;
      NoRemovalFails(nodes, b, slash, ps[..last]);
      NeverReachesRoot(PruneAll(nodes, BaseText(b, slash), ps[..last]), b, slash, ps[last]);
    }
  }

  // ---------- the root as base ----------

  /** Nothing is in the top directory of the path but what leads to it. */
  predicate Alone(nodes: Nodes, p: Path) {
    p == [] || (p in nodes && forall q | q in nodes && p[..1] <= q :: q <= p)
  }

  /** With the root as base a climb arrives at the root exactly if the path is alone in its top directory. */
  lemma {:induction false} ReachesRootExactly(nodes: Nodes, p: Path)
    requires WellFormed(nodes)
    ensures ReachesRoot(nodes, "/", p) <==> Alone(nodes, p)
    decreases |p|
  {
    if p == [] || p !in nodes {
    } else if HasChild(nodes, p) {
      var c :| c in nodes && IsChild(c, p);
      assert c[..|p|] == p && p[..1] <= c && !(c <= p);
    } else {
      RenderRooted(Parent(p));
      WithoutLeaf(nodes, p);
      ReachesRootExactly(nodes - {p}, Parent(p));
      if |p| == 1 {
        AloneAtTop(nodes, p);
      } else {
        AloneBelow(nodes, p);
      }
    }
  }

  lemma WithoutLeaf(nodes: Nodes, p: Path)
    requires WellFormed(nodes) && p in nodes && !HasChild(nodes, p)
    ensures WellFormed(nodes - {p})
  {
    assert forall q | q in nodes && q != [] :: Parent(q) == p ==> IsChild(q, p);
  }

  lemma AloneAtTop(nodes: Nodes, p: Path)
    requires WellFormed(nodes) && p in nodes && |p| == 1 && !HasChild(nodes, p)
    ensures Alone(nodes, p)
  {
    forall q | q in nodes && p <= q
      ensures q == p
    {
      if q != p {
        TowardsIsChild(nodes, p, q);
      }
    }
  }

  lemma AloneBelow(nodes: Nodes, p: Path)
    requires WellFormed(nodes) && p in nodes && |p| > 1
    ensures Alone(nodes, p) <==> Alone(nodes - {p}, Parent(p))
  {
    var up, next := Parent(p), nodes - {p};
    assert up in next && up[..1] == p[..1];
    hide WellFormed;
    forall q | q in next
      ensures q <= p <==> q <= up
    {
      assert p[..|p|] == p;
      assert q <= p ==> q == p[..|q|] && |q| < |p|;
    }
    if Alone(next, up) {
      forall q | q in nodes && p[..1] <= q
        ensures q <= p
      {
        assert q != p ==> q in next;
      }
    }
  }

  /** Something in each top directory was not handed in, and neither was the root. */
  ghost predicate TopsStay(nodes: Nodes, ps: seq<Path>) {
    [] !in ps && forall t | t in nodes && |t| == 1 :: Held(nodes, ps, t)
  }

  lemma RootIsHeld(nodes: Nodes, ps: seq<Path>)
    requires WellFormed(nodes) && [] in nodes && TopsStay(nodes, ps)
    ensures Held(nodes, ps, [])
  {
    if HasChild(nodes, []) {
      var t :| t in nodes && IsChild(t, []);
      assert |t| == 1;
      HeldUpwards(nodes, ps, [], t);
    } else {
      assert IsLeaf(nodes, []);
    }
  }

  lemma StaysWellFormed(nodes: Nodes, ps: seq<Path>, now: Nodes)
    requires WellFormed(nodes) && Settled(nodes, [], false, ps, now)
    ensures WellFormed(now)
  {
    forall p | p in now && p != []
      ensures Parent(p) in now
    {
      HeldUpwards(nodes, ps, Parent(p), p);
    }
  }

  /** The climb from the next path arrives at the root exactly if it takes the last leaf of its top directory. */
  lemma ReachesAfter(nodes: Nodes, ps: seq<Path>, now: Nodes, x: Path)
    requires WellFormed(nodes) && TopsStay(nodes, ps) && x in nodes && x != []
    requires Settled(nodes, [], false, ps, now)
    ensures ReachesRoot(now, "/", x) <==> !Held(nodes, ps + [x], x[..1])
  {
    AncestorsExist(nodes, x[..1], x);
    StaysWellFormed(nodes, ps, now);
    ReachesRootExactly(now, x);
    hide ReachesRoot, WellFormed, HasChild;
    if Held(nodes, ps + [x], x[..1]) {
      OtherLeafStays(nodes, ps, now, x);
    } else {
      OnlyTheWayStays(nodes, ps, now, x);
    }
  }

  lemma OtherLeafStays(nodes: Nodes, ps: seq<Path>, now: Nodes, x: Path)
    requires WellFormed(nodes) && x in nodes && x != [] && Settled(nodes, [], false, ps, now)
    requires Held(nodes, ps + [x], x[..1])
    ensures exists q | q in now && x[..1] <= q :: !(q <= x)
  {
    var l :| l in nodes && IsLeaf(nodes, l) && x[..1] <= l && l !in ps + [x];
    assert l !in ps && l != x;
    assert Held(nodes, ps, l);
    if l <= x {
      TowardsIsChild(nodes, l, x);
      assert false;
    }
    assert l in now && !(l <= x);
  }

  lemma OnlyTheWayStays(nodes: Nodes, ps: seq<Path>, now: Nodes, x: Path)
    requires x in nodes && x != [] && Settled(nodes, [], false, ps, now)
    requires Held(nodes, ps, x[..1]) && !Held(nodes, ps + [x], x[..1])
    ensures x in now && forall q | q in now && x[..1] <= q :: q <= x
  {
    HeldSnoc(nodes, ps, x, x[..1]);
    assert Held(nodes, ps, x);
    forall q | q in now && x[..1] <= q
      ensures q <= x
    {
      HeldSnoc(nodes, ps, x, q);
      if Held(nodes, ps + [x], q) {
        HeldUpwards(nodes, ps + [x], x[..1], q);
        assert false;
      }
    }
  }

  lemma TopsBefore(nodes: Nodes, ps: seq<Path>, x: Path)
    requires TopsStay(nodes, ps + [x])
    ensures TopsStay(nodes, ps)
  {
    assert (ps + [x])[..|ps|] == ps;
    forall t | t in nodes && |t| == 1
      ensures Held(nodes, ps, t)
    {
      HeldSnoc(nodes, ps, x, t);
    }
    assert forall p | p in ps :: p in ps + [x];
  }

  lemma TopsAfter(nodes: Nodes, ps: seq<Path>, x: Path)
    requires TopsStay(nodes, ps) && WellFormed(nodes) && x in nodes
    ensures TopsStay(nodes, ps + [x]) <==> x != [] && Held(nodes, ps + [x], x[..1])
  {
    if x != [] {
      AncestorsExist(nodes, x[..1], x);
      var top := x[..1];
      assert forall t: Path | t <= x && |t| == 1 :: t == top;
      forall t | t in nodes && |t| == 1 && t != top
        ensures Held(nodes, ps + [x], t)
      {
        HeldSnoc(nodes, ps, x, t);
      }
    }
  }

  /**
    With the root as base the loop handles all paths exactly if something in each top directory is not
    handed in, and the root is not either: otherwise the climb from the last leaf of such a directory
    goes on to the root, and the removal stops there. As this holds of every prefix, it says where.
   */
  lemma {:induction false} FailsAtRootExactly(nodes: Nodes, ps: seq<Path>)
    requires WellFormed(nodes) && [] in nodes && forall i | 0 <= i < |ps| :: ps[i] in nodes
    ensures Survives(nodes, "/", ps) == |ps| <==> TopsStay(nodes, ps)
    decreases |ps|
  {
    if ps == [] {
      NothingYet(nodes, "/");
      forall t | t in nodes
        ensures Held(nodes, ps, t)
      {
        LeafBelow(nodes, t);
        NothingHandedIn(nodes, t);
      }
    } else {
      var ps0, x := ps[..|ps| - 1], ps[|ps| - 1];
      assert ps == ps0 + [x];
      hide *;
      FailsAtRootExactly(nodes, ps0);
      OneMoreSurvives(nodes, "/", ps0, x);
      if TopsStay(nodes, ps0) {
        RootIsHeld(nodes, ps0);
        RootIsBase(nodes, ps0);
        TopsAfter(nodes, ps0, x);
        NextReachesRoot(nodes, ps0, x);
      } else if TopsStay(nodes, ps) {
        TopsBefore(nodes, ps0, x);
      }
    }
  }

  lemma OneMoreSurvives(nodes: Nodes, base: string, ps: seq<Path>, x: Path)
    ensures Survives(nodes, base, ps + [x]) == |ps + [x]| <==>
            Survives(nodes, base, ps) == |ps| && !ReachesRoot(PruneAll(nodes, base, ps), base, x)
  {
    assert (ps + [x])[..|ps|] == ps;
    hide ReachesRoot, PruneAll;
  }

  lemma RootIsBase(nodes: Nodes, ps: seq<Path>)
    requires WellFormed(nodes) && [] in nodes && Held(nodes, ps, []) && forall i | 0 <= i < |ps| :: ps[i] in nodes
    ensures Settled(nodes, [], false, ps, PruneAll(nodes, "/", ps))
  {
    assert BaseText([], false) == "/";
    RemovalIgnoresOrder(nodes, [], false, ps);
  }

  lemma NextReachesRoot(nodes: Nodes, ps: seq<Path>, x: Path)
    requires WellFormed(nodes) && TopsStay(nodes, ps) && x in nodes
    requires Settled(nodes, [], false, ps, PruneAll(nodes, "/", ps))
    ensures ReachesRoot(PruneAll(nodes, "/", ps), "/", x) <==> x == [] || !Held(nodes, ps + [x], x[..1])
  {
    if x != [] {
      hide *;
      ReachesAfter(nodes, ps, PruneAll(nodes, "/", ps), x);
    }
  }
}
