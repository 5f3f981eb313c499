/** Summing up the objects below a prefix, level by level down to a depth and flat below it. */
module DiskUsage {
  import opened Strings

  /** What a listing of one prefix holds; a prefix may list itself, and some entries are skipped. */
  datatype Item =
    | Object(size: nat, isDeleteMarker: bool)
    | Prefix(name: string, items: seq<Item>)
    | Itself
    | Skipped

  datatype Usage = Usage(size: nat, objects: nat)

  function Plus(u: Usage, v: Usage): Usage { Usage(u.size + v.size, u.objects + v.objects) }

  function Zero(): Usage { Usage(0, 0) }

  function OfItem(item: Item): Usage {
    if item.Object? && !item.isDeleteMarker then Usage(item.size, 1) else Zero()
  }

  // ---------- the flat sum ----------

  /** The recursive listing: everything below, level by level of the tree. */
  function Flat(items: seq<Item>): seq<Item>
    decreases items
  {
    if items == [] then []
    else [items[0]] + (if items[0].Prefix? then Flat(items[0].items) else []) + Flat(items[1..])
  }

  function Sum(items: seq<Item>): Usage
    decreases |items|
  {
    if items == [] then Zero() else Plus(OfItem(items[0]), Sum(items[1..]))
  }

  function Total(items: seq<Item>): Usage { Sum(Flat(items)) }

  // ---------- the code, with a bound on nested calls ----------

  /** The depth passed on to the prefixes below. */
  function Deeper(depth: int): int { if depth > 0 then depth - 1 else depth }

  /** A line of output: a prefix and its usage. */
  datatype Line = Line(prefix: seq<string>, usage: Usage)

  datatype Report = Report(usage: Usage, lines: seq<Line>)

  function Combine(a: Option<Report>, b: Option<Report>): Option<Report> {
    if a.None? || b.None? then None
    else Some(Report(Plus(a.value.usage, b.value.usage), a.value.lines + b.value.lines))
  }

  /**
   * du with at most `fuel` nested calls, None if these are not enough; `top` is the whole listing of the prefix
   * and `items` what is left of it.
   */
  function Call(top: seq<Item>, prefix: seq<string>, depth: int, fuel: nat): Option<Report>
    decreases fuel, |top| + 2
  {
    if depth == 1 then Some(Report(Total(top), [Line(prefix, Total(top))]))
    else
      var r := Loop(top, top, prefix, depth, fuel);
      if r.None? || depth == 0 then r
      else Some(Report(r.value.usage, r.value.lines + [Line(prefix, r.value.usage)]))
  }

  function Loop(top: seq<Item>, items: seq<Item>, prefix: seq<string>, depth: int, fuel: nat): Option<Report>
    decreases fuel, |items| + 1
  {
    if items == [] then Some(Report(Zero(), []))
    else Combine(One(top, items[0], prefix, depth, fuel), Loop(top, items[1..], prefix, depth, fuel))
  }

  function One(top: seq<Item>, item: Item, prefix: seq<string>, depth: int, fuel: nat): Option<Report>
    decreases fuel, 0
  {
    if !item.Prefix? && !item.Itself? then Some(Report(OfItem(item), []))
    else if fuel == 0 then None
    else if item.Itself? then Call(top, prefix, Deeper(depth), fuel - 1)
    else Call(item.items, prefix + [item.name], Deeper(depth), fuel - 1)
  }

  // ---------- which trees list themselves ----------

  /** No prefix lists itself, here or anywhere below. */
  predicate Plain(items: seq<Item>)
    decreases items
  {
    forall i | 0 <= i < |items| :: !items[i].Itself? && (items[i].Prefix? ==> Plain(items[i].items))
  }

  // ---------- more fuel changes nothing ----------

  lemma {:induction false} CallKeeps(top: seq<Item>, prefix: seq<string>, depth: int, fuel: nat, more: nat)
    requires fuel <= more && Call(top, prefix, depth, fuel).Some?
    ensures Call(top, prefix, depth, more) == Call(top, prefix, depth, fuel)
    decreases fuel, |top| + 2
  {
    if depth != 1 {
      LoopKeeps(top, top, prefix, depth, fuel, more);
    }
  }

  lemma {:induction false} LoopKeeps(top: seq<Item>, items: seq<Item>, prefix: seq<string>, depth: int,
                                     fuel: nat, more: nat)
    requires fuel <= more && Loop(top, items, prefix, depth, fuel).Some?
    ensures Loop(top, items, prefix, depth, more) == Loop(top, items, prefix, depth, fuel)
    decreases fuel, |items|
  {
    if items == [] {
    } else {
      LoopKeeps(top, items[1..], prefix, depth, fuel, more);
      if items[0].Itself? {
        CallKeeps(top, prefix, Deeper(depth), fuel - 1, more - 1);
      } else if items[0].Prefix? {
        CallKeeps(items[0].items, prefix + [items[0].name], Deeper(depth), fuel - 1, more - 1);
      }
    }
  }

  /** du ends with this report. */
  ghost predicate RunsTo(items: seq<Item>, prefix: seq<string>, depth: int, r: Report) {
    exists fuel: nat :: Call(items, prefix, depth, fuel) == Some(r)
  }

  lemma RunsToOne(items: seq<Item>, prefix: seq<string>, depth: int, r: Report, q: Report)
    requires RunsTo(items, prefix, depth, r) && RunsTo(items, prefix, depth, q)
    ensures r == q
  {
    var a: nat :| Call(items, prefix, depth, a) == Some(r);
    var b: nat :| Call(items, prefix, depth, b) == Some(q);
    CallKeeps(items, prefix, depth, a, a + b);
    CallKeeps(items, prefix, depth, b, a + b);
  }

  // ---------- the flat sum, directory by directory ----------

  lemma PlusLaws(u: Usage, v: Usage, w: Usage)
    ensures Plus(Zero(), u) == u && Plus(u, Zero()) == u
    ensures Plus(Plus(u, v), w) == Plus(u, Plus(v, w))
  {
  }

  lemma SumCons(x: Item, xs: seq<Item>)
    ensures Sum([x] + xs) == Plus(OfItem(x), Sum(xs))
  {
    assert ([x] + xs)[1..] == xs;
  }

  lemma {:induction false} SumConcat(a: seq<Item>, b: seq<Item>)
    ensures Sum(a + b) == Plus(Sum(a), Sum(b))
    decreases |a|
  {
    if a == [] {
      assert a + b == b;
      PlusLaws(Sum(b), Zero(), Zero());
    } else {
      hide Plus, OfItem, Sum;
      var x, xs := a[0], a[1..];
      SumConcat(xs, b);
      assert a + b == [x] + (xs + b) && a == [x] + xs;
      SumCons(x, xs + b);
      SumCons(x, xs);
      PlusLaws(OfItem(x), Sum(xs), Sum(b));
    }
  }

  /** What one entry contributes to the flat sum. */
  function Share(item: Item): Usage { if item.Prefix? then Total(item.items) else OfItem(item) }

  lemma TotalByEntry(items: seq<Item>)
    requires items != []
    ensures Total(items) == Plus(Share(items[0]), Total(items[1..]))
  {
    var head := [items[0]];
    var below := if items[0].Prefix? then Flat(items[0].items) else [];
    var rest := Flat(items[1..]);
    assert Flat(items) == head + below + rest;
    SumOfOne(items[0]);
    assert Sum([]) == Zero();
    hide Plus, Flat, Sum;
    SumConcat(head + below, rest);
    SumConcat(head, below);
    PlusLaws(OfItem(items[0]), Zero(), Zero());
    PlusLaws(Sum(below), Zero(), Zero());
  }

  lemma SumOfOne(item: Item)
    ensures Sum([item]) == OfItem(item)
    ensures item.Prefix? ==> OfItem(item) == Zero()
  {
    SumCons(item, []);
    SumOfNone();
    PlusLaws(OfItem(item), Zero(), Zero());
    hide Sum, Plus;
    assert [item] + [] == [item];
  }

  lemma SumOfNone()
    ensures Sum([]) == Zero()
  {
  }

  lemma {:induction false} NoObjectsNoSize(items: seq<Item>)
    requires Sum(items).objects == 0
    ensures Sum(items) == Zero()
    decreases |items|
  {
    if items == [] {
    } else {
      NoObjectsNoSize(items[1..]);
    }
  }

  lemma EmptyHasNoSize(items: seq<Item>)
    requires Total(items).objects == 0
    ensures Total(items) == Zero()
  {
    NoObjectsNoSize(Flat(items));
  }

  // ---------- any depth, one sum ----------

  /** The lines printed: every prefix less than `depth` levels down, after those below it, with its flat sum. */
  function Lines(items: seq<Item>, prefix: seq<string>, depth: int): seq<Line>
    decreases items, 1
  {
    if depth == 0 then [] else
    (if depth == 1 then [] else LinesBelow(items, prefix, depth)) + [Line(prefix, Total(items))]
  }

  function LinesBelow(items: seq<Item>, prefix: seq<string>, depth: int): seq<Line>
    decreases items, 0
  {
    if items == [] then []
    else (if items[0].Prefix? then Lines(items[0].items, prefix + [items[0].name], Deeper(depth)) else [])
         + LinesBelow(items[1..], prefix, depth)
  }

  lemma {:induction false} NoLinesAtDepthZero(items: seq<Item>, prefix: seq<string>)
    ensures LinesBelow(items, prefix, 0) == []
    decreases items
  {
    if items == [] {
    } else {
      NoLinesAtDepthZero(items[1..], prefix);
    }
  }

  lemma PlainParts(items: seq<Item>)
    requires Plain(items) && items != []
    ensures Plain(items[1..]) && !items[0].Itself? && (items[0].Prefix? ==> Plain(items[0].items))
  {
  }

  lemma {:induction false} PlainLoop(top: seq<Item>, items: seq<Item>, prefix: seq<string>, depth: int)
    returns (fuel: nat)
    requires Plain(items) && depth != 1
    ensures Loop(top, items, prefix, depth, fuel) == Some(Report(Total(items), LinesBelow(items, prefix, depth)))
    decreases items, 0
  {
    hide Plain, Total, Plus;
    fuel := 0;
    if items == [] {
      NothingBelow();
    } else {
      var rest := items[1..];
      PlainParts(items);
      TotalByEntry(items);
      var n := PlainLoop(top, rest, prefix, depth);
      fuel := n;
      if items[0].Prefix? {
        var below, name := items[0].items, prefix + [items[0].name];
        var k := PlainCall(below, name, Deeper(depth));
        fuel := n + k + 1;
        CallKeeps(below, name, Deeper(depth), k, fuel - 1);
      }
      LoopKeeps(top, rest, prefix, depth, n, fuel);
      assert [] + LinesBelow(rest, prefix, depth) == LinesBelow(rest, prefix, depth);
    }
  }

  lemma NothingBelow()
    ensures Total([]) == Zero()
  {
  }

  lemma {:induction false} PlainCall(items: seq<Item>, prefix: seq<string>, depth: int) returns (fuel: nat)
    requires Plain(items)
    ensures Call(items, prefix, depth, fuel) == Some(Report(Total(items), Lines(items, prefix, depth)))
    decreases items, 1
  {
    fuel := 0;
    if depth != 1 {
      fuel := PlainLoop(items, items, prefix, depth);
      NoLinesAtDepthZero(items, prefix);
    } else {
      assert [] + [Line(prefix, Total(items))] == [Line(prefix, Total(items))];
    }
  }

  /** Where no prefix lists itself, every depth gives the flat sum, and every printed line is the flat sum of its prefix. */
  lemma EveryDepthSumsTheSame(items: seq<Item>, prefix: seq<string>, depth: int)
    requires Plain(items)
    ensures RunsTo(items, prefix, depth, Report(Total(items), Lines(items, prefix, depth)))
  {
    var fuel := PlainCall(items, prefix, depth);
  }

  // ---------- what is counted and what is printed ----------

  /** The sizes of the objects anywhere below which are not delete markers. */
  function LiveSizes(items: seq<Item>): seq<nat>
    decreases items, 1
  {
    if items == [] then [] else LiveIn(items[0]) + LiveSizes(items[1..])
  }

  function LiveIn(item: Item): seq<nat>
    decreases item, 0
  {
    match item
    case Object(size, isDeleteMarker) => if isDeleteMarker then [] else [size]
    case Prefix(_, items) => LiveSizes(items)
    case _ => []
  }

  function SumOf(sizes: seq<nat>): nat { if sizes == [] then 0 else sizes[0] + SumOf(sizes[1..]) }

  lemma {:induction false} SumOfConcat(a: seq<nat>, b: seq<nat>)
    ensures SumOf(a + b) == SumOf(a) + SumOf(b)
  {
    if a == [] {
      assert a + b == b;
    } else {
      assert (a + b)[1..] == a[1..] + b;
      SumOfConcat(a[1..], b);
    }
  }

  /** The flat sum is the number and the total size of these objects. */
  lemma {:induction false} FlatSumIsLive(items: seq<Item>)
    ensures Total(items) == Usage(SumOf(LiveSizes(items)), |LiveSizes(items)|)
    decreases items, 1
  {
    if items == [] {
      NothingBelow();
    } else {
      TotalByEntry(items);
      FlatSumIsLive(items[1..]);
      ShareIsLive(items[0]);
      SumOfConcat(LiveIn(items[0]), LiveSizes(items[1..]));
      hide Total, Share, LiveIn, SumOf;
    }
  }

  lemma {:induction false} ShareIsLive(item: Item)
    ensures Share(item) == Usage(SumOf(LiveIn(item)), |LiveIn(item)|)
    decreases item, 0
  {
    if item.Prefix? {
      FlatSumIsLive(item.items);
      hide Total;
    }
  }

  /** Following these names from prefix to prefix leads to `below`. */
  predicate LeadsTo(items: seq<Item>, names: seq<string>, below: seq<Item>)
    decreases |names|
  {
    if names == [] then below == items
    else exists i | 0 <= i < |items| :: StepsTo(items[i], names, below)
  }

  predicate StepsTo(item: Item, names: seq<string>, below: seq<Item>)
    requires names != []
    decreases |names|, 0
  {
    item.Prefix? && item.name == names[0] && LeadsTo(item.items, names[1..], below)
  }

  /** The prefix of a line, and that it is printed for a depth: above that depth, or anywhere for a negative one. */
  predicate Printed(items: seq<Item>, prefix: seq<string>, depth: int, line: Line, below: seq<Item>) {
    && depth != 0 && prefix <= line.prefix
    && (depth > 0 ==> |line.prefix| - |prefix| < depth)
    && LeadsTo(items, line.prefix[|prefix|..], below) && line.usage == Total(below)
  }

  lemma PrintedBelow(item: Item, items: seq<Item>, i: nat, prefix: seq<string>, depth: int, line: Line, below: seq<Item>)
    requires i < |items| && items[i] == item && item.Prefix? && depth != 0 && depth != 1
    requires Printed(item.items, prefix + [item.name], Deeper(depth), line, below)
    ensures Printed(items, prefix, depth, line, below)
  {
    hide Total, LeadsTo;
    var names := line.prefix[|prefix|..];
    assert line.prefix[|prefix|] == item.name && line.prefix[..|prefix|] == prefix;
    assert names[1..] == line.prefix[|prefix + [item.name]|..];
    assert StepsTo(items[i], names, below);
    FirstStep(items, i, names, below);
  }

  lemma FirstStep(items: seq<Item>, i: nat, names: seq<string>, below: seq<Item>)
    requires i < |items| && names != [] && StepsTo(items[i], names, below)
    ensures LeadsTo(items, names, below)
  {
  }

  lemma PrintedByEntry(items: seq<Item>, prefix: seq<string>, depth: int, line: Line, below: seq<Item>) returns (i: nat)
    requires Printed(items, prefix, depth, line, below) && line.prefix != prefix
    ensures depth != 1 && i < |items| && items[i].Prefix?
    ensures Printed(items[i].items, prefix + [items[i].name], Deeper(depth), line, below)
  {
    hide Total;
    var names := line.prefix[|prefix|..];
    i :| 0 <= i < |items| && StepsTo(items[i], names, below);
    hide LeadsTo;
    var next := prefix + [items[i].name];
    assert next == line.prefix[..|next|];
    assert names[1..] == line.prefix[|next|..];
  }

  lemma {:induction false} LinesOfEntries(items: seq<Item>, prefix: seq<string>, depth: int, line: Line)
    requires depth != 0 && depth != 1
    ensures line in LinesBelow(items, prefix, depth) <==>
            exists i, below :: 0 <= i < |items| && items[i].Prefix?
              && Printed(items[i].items, prefix + [items[i].name], Deeper(depth), line, below)
    decreases items, 0
  {
    hide Printed;
    if items == [] {
    } else {
      var rest := items[1..];
      LinesOfEntries(rest, prefix, depth, line);
      assert forall i | 1 <= i < |items| :: items[i] == rest[i - 1];
      if items[0].Prefix? {
        PrintedExactly(items[0].items, prefix + [items[0].name], Deeper(depth), line);
      }
    }
  }

  /**
    Which lines are printed: one for every prefix less than `depth` levels down, for every one below if
    the depth is negative, and none for depth zero, each with the sum of what is below it.
   */
  lemma {:induction false} PrintedExactly(items: seq<Item>, prefix: seq<string>, depth: int, line: Line)
    ensures line in Lines(items, prefix, depth) <==> exists below :: Printed(items, prefix, depth, line, below)
    decreases items, 1
  {
    if depth == 0 {
    } else {
      if depth != 1 {
        LinesOfEntries(items, prefix, depth, line);
      }
      OwnLine(items, prefix, depth, line);
      hide Total, LeadsTo, Printed, Lines, LinesBelow;
      LinesAre(items, prefix, depth);
      if line == Line(prefix, Total(items)) {
      } else if line in Lines(items, prefix, depth) {
        var i, below :| 0 <= i < |items| && items[i].Prefix?
                        && Printed(items[i].items, prefix + [items[i].name], Deeper(depth), line, below);
        PrintedBelow(items[i], items, i, prefix, depth, line, below);
      } else if below :| Printed(items, prefix, depth, line, below) {
        if line.prefix != prefix {
          var i := PrintedByEntry(items, prefix, depth, line, below);
        }
      }
    }
  }

  lemma OwnLine(items: seq<Item>, prefix: seq<string>, depth: int, line: Line)
    requires depth != 0
    ensures line == Line(prefix, Total(items)) ==> Printed(items, prefix, depth, line, items)
    ensures forall below | Printed(items, prefix, depth, line, below) && line.prefix == prefix ::
              line == Line(prefix, Total(items))
  {
    assert prefix[|prefix|..] == [];
  }

  lemma LinesAre(items: seq<Item>, prefix: seq<string>, depth: int)
    requires depth != 0
    ensures Lines(items, prefix, depth)
         == (if depth == 1 then [] else LinesBelow(items, prefix, depth)) + [Line(prefix, Total(items))]
  {
  }

  // ---------- when it ends ----------

  lemma {:induction false} BoundedLoop(top: seq<Item>, items: seq<Item>, prefix: seq<string>, depth: int)
    returns (fuel: nat)
    requires depth > 1
    ensures Loop(top, items, prefix, depth, fuel).Some?
    decreases depth, |items|
  {
    fuel := 0;
    if items == [] {
    } else {
      var n := BoundedLoop(top, items[1..], prefix, depth);
      fuel := n;
      if items[0].Prefix? || items[0].Itself? {
        var below, name := if items[0].Itself? then top else items[0].items,
                           if items[0].Itself? then prefix else prefix + [items[0].name];
        var k := BoundedCall(below, name, depth - 1);
        fuel := n + k + 1;
        CallKeeps(below, name, depth - 1, k, fuel - 1);
      }
      LoopKeeps(top, items[1..], prefix, depth, n, fuel);
    }
  }

  lemma {:induction false} BoundedCall(items: seq<Item>, prefix: seq<string>, depth: int) returns (fuel: nat)
    requires depth >= 1
    ensures Call(items, prefix, depth, fuel).Some?
    decreases depth, |items| + 1
  {
    fuel := 0;
    if depth > 1 {
      fuel := BoundedLoop(items, items, prefix, depth);
    }
  }

  lemma {:induction false} EndlessLoop(top: seq<Item>, items: seq<Item>, i: nat, prefix: seq<string>,
                                       depth: int, fuel: nat)
    requires depth <= 0 && i < |items|
    requires (items[i].Itself? && !Plain(top)) || (items[i].Prefix? && !Plain(items[i].items))
    ensures Loop(top, items, prefix, depth, fuel).None?
    decreases fuel, |items|
  {
    if i == 0 {
      if fuel > 0 && items[0].Itself? {
        EndlessCall(top, prefix, depth, fuel - 1);
      } else if fuel > 0 {
        EndlessCall(items[0].items, prefix + [items[0].name], depth, fuel - 1);
      }
    } else {
      EndlessLoop(top, items[1..], i - 1, prefix, depth, fuel);
    }
  }

  lemma {:induction false} EndlessCall(items: seq<Item>, prefix: seq<string>, depth: int, fuel: nat)
    requires depth <= 0 && !Plain(items)
    ensures Call(items, prefix, depth, fuel).None?
    decreases fuel, |items| + 1
  {
    var i :| 0 <= i < |items| && (items[i].Itself? || (items[i].Prefix? && !Plain(items[i].items)));
    EndlessLoop(items, items, i, prefix, depth, fuel);
  }

  /** A positive depth always ends; any other ends exactly if no prefix lists itself. */
  lemma EndsExactly(items: seq<Item>, prefix: seq<string>, depth: int)
    ensures (exists r :: RunsTo(items, prefix, depth, r)) <==> depth >= 1 || Plain(items)
  {
    if depth >= 1 {
      var fuel := BoundedCall(items, prefix, depth);
      assert RunsTo(items, prefix, depth, Call(items, prefix, depth, fuel).value);
    } else if Plain(items) {
      EveryDepthSumsTheSame(items, prefix, depth);
    } else if exists r :: RunsTo(items, prefix, depth, r) {
      var r :| RunsTo(items, prefix, depth, r);
      var fuel: nat :| Call(items, prefix, depth, fuel) == Some(r);
      EndlessCall(items, prefix, depth, fuel);
      assert false;
    }
  }

  // ---------- what a prefix that lists itself costs ----------

  predicate Covers(u: Usage, v: Usage) { u.size >= v.size && u.objects >= v.objects }

  /** Within the levels that are listed one by one, only prefixes without any object list themselves. */
  predicate Harmless(items: seq<Item>, depth: int)
    decreases items
  {
    depth == 1 || forall i | 0 <= i < |items| ::
      && (items[i].Itself? ==> Total(items).objects == 0)
      && (items[i].Prefix? ==> Harmless(items[i].items, depth - 1))
  }

  predicate HarmlessItem(top: seq<Item>, item: Item, depth: int) {
    && (item.Itself? ==> Total(top).objects == 0)
    && (item.Prefix? ==> Harmless(item.items, depth - 1))
  }

  lemma ZeroParts(u: Usage, v: Usage)
    requires Plus(u, v) == Zero()
    ensures u == Zero() && v == Zero()
  {
  }

  lemma {:induction false} NothingInOne(top: seq<Item>, item: Item, prefix: seq<string>, depth: int, fuel: nat)
    requires Total(top) == Zero() && Share(item) == Zero()
    requires depth > 1 && One(top, item, prefix, depth, fuel).Some?
    ensures One(top, item, prefix, depth, fuel).value.usage == Zero()
    decreases fuel, 0, 2
  {
    hide Call, Total;
    if item.Itself? {
      NothingInCall(top, prefix, depth - 1, fuel - 1);
    } else if item.Prefix? {
      NothingInCall(item.items, prefix + [item.name], depth - 1, fuel - 1);
    }
  }

  /** The usage of a loop is that of its first entry and of the rest. */
  lemma LoopUsage(top: seq<Item>, items: seq<Item>, prefix: seq<string>, depth: int, fuel: nat)
    requires Loop(top, items, prefix, depth, fuel).Some?
    ensures items == [] ==> Loop(top, items, prefix, depth, fuel).value.usage == Zero()
    ensures items != [] ==>
      && One(top, items[0], prefix, depth, fuel).Some? && Loop(top, items[1..], prefix, depth, fuel).Some?
      && Loop(top, items, prefix, depth, fuel).value.usage
         == Plus(One(top, items[0], prefix, depth, fuel).value.usage,
                 Loop(top, items[1..], prefix, depth, fuel).value.usage)
  {
    hide One, Plus;
  }

  lemma {:induction false} NothingToCount(top: seq<Item>, items: seq<Item>, prefix: seq<string>, depth: int, fuel: nat)
    requires Total(top) == Zero() && Total(items) == Zero()
    requires depth > 1 && Loop(top, items, prefix, depth, fuel).Some?
    ensures Loop(top, items, prefix, depth, fuel).value.usage == Zero()
    decreases fuel, |items|, 0
  {
    hide *;
    LoopUsage(top, items, prefix, depth, fuel);
    if items == [] {
    } else {
      var rest := items[1..];
      TotalByEntry(items);
      ZeroParts(Share(items[0]), Total(rest));
      NothingInOne(top, items[0], prefix, depth, fuel);
      NothingToCount(top, rest, prefix, depth, fuel);
      PlusLaws(Zero(), Zero(), Zero());
    }
  }

  lemma {:induction false} NothingInCall(items: seq<Item>, prefix: seq<string>, depth: int, fuel: nat)
    requires Total(items) == Zero() && depth >= 1 && Call(items, prefix, depth, fuel).Some?
    ensures Call(items, prefix, depth, fuel).value.usage == Zero()
    decreases fuel, |items|, 1
  {
    if depth > 1 {
      NothingToCount(items, items, prefix, depth, fuel);
    }
  }

  lemma PartsAgree(u: Usage, v: Usage, s: Usage, t: Usage)
    requires Covers(u, s) && Covers(v, t)
    ensures Covers(Plus(u, v), Plus(s, t)) && (Plus(u, v) == Plus(s, t) <==> u == s && v == t)
  {
  }

  /** What a prefix adds by listing itself. */
  lemma {:induction false} SelfCounts(top: seq<Item>, prefix: seq<string>, depth: int, fuel: nat)
    requires depth >= 1 && Call(top, prefix, depth, fuel).Some?
    ensures Call(top, prefix, depth, fuel).value.usage == Zero() <==> Total(top).objects == 0
    decreases fuel, |top|, 2
  {
    hide Call, Total, Harmless;
    CallCounts(top, prefix, depth, fuel);
    if Total(top).objects == 0 {
      EmptyHasNoSize(top);
      NothingInCall(top, prefix, depth, fuel);
    }
  }

  /** What one entry adds: its share, and more exactly if something in it is counted again. */
  lemma {:induction false} OneCounts(top: seq<Item>, item: Item, prefix: seq<string>, depth: int, fuel: nat)
    requires depth > 1 && One(top, item, prefix, depth, fuel).Some?
    ensures Covers(One(top, item, prefix, depth, fuel).value.usage, Share(item))
    ensures One(top, item, prefix, depth, fuel).value.usage == Share(item) <==> HarmlessItem(top, item, depth)
    decreases fuel, 0, 3
  {
    hide Call, Total, Harmless;
    if item.Itself? {
      SelfCounts(top, prefix, depth - 1, fuel - 1);
    } else if item.Prefix? {
      CallCounts(item.items, prefix + [item.name], depth - 1, fuel - 1);
    }
  }

  lemma {:induction false} LoopCounts(top: seq<Item>, items: seq<Item>, prefix: seq<string>, depth: int, fuel: nat)
    requires depth > 1 && Loop(top, items, prefix, depth, fuel).Some?
    ensures Covers(Loop(top, items, prefix, depth, fuel).value.usage, Total(items))
    ensures Loop(top, items, prefix, depth, fuel).value.usage == Total(items)
            <==> forall i | 0 <= i < |items| :: HarmlessItem(top, items[i], depth)
    decreases fuel, |items|, 0
  {
    LoopUsage(top, items, prefix, depth, fuel);
    if items == [] {
      NothingBelow();
    } else {
      hide Total, HarmlessItem, Plus, Covers, Loop, One, Share;
      var item, rest := items[0], items[1..];
      TotalByEntry(items);
      OneCounts(top, item, prefix, depth, fuel);
      LoopCounts(top, rest, prefix, depth, fuel);
      PartsAgree(One(top, item, prefix, depth, fuel).value.usage, Loop(top, rest, prefix, depth, fuel).value.usage,
                 Share(item), Total(rest));
      assert forall i | 1 <= i < |items| :: items[i] == rest[i - 1];
    }
  }

  /** Down to a positive depth: never less than the flat sum, and more exactly if a prefix with objects lists itself. */
  lemma {:induction false} CallCounts(items: seq<Item>, prefix: seq<string>, depth: int, fuel: nat)
    requires depth >= 1 && Call(items, prefix, depth, fuel).Some?
    ensures Covers(Call(items, prefix, depth, fuel).value.usage, Total(items))
    ensures Call(items, prefix, depth, fuel).value.usage == Total(items) <==> Harmless(items, depth)
    decreases fuel, |items|, 1
  {
    if depth > 1 {
      LoopCounts(items, items, prefix, depth, fuel);
      assert Harmless(items, depth) <==> forall i | 0 <= i < |items| :: HarmlessItem(items, items[i], depth);
    }
  }

  lemma CountsExactly(items: seq<Item>, prefix: seq<string>, depth: int, r: Report)
    requires depth >= 1 && RunsTo(items, prefix, depth, r)
    ensures Covers(r.usage, Total(items)) && (r.usage == Total(items) <==> Harmless(items, depth))
  {
    var fuel: nat :| Call(items, prefix, depth, fuel) == Some(r);
    CallCounts(items, prefix, depth, fuel);
  }

  // ---------- the code ----------

  lemma CombineAssoc(a: Option<Report>, b: Option<Report>, c: Option<Report>)
    ensures Combine(Combine(a, b), c) == Combine(a, Combine(b, c))
  {
    hide Plus;
    if a.Some? && b.Some? && c.Some? {
      PlusLaws(a.value.usage, b.value.usage, c.value.usage);
      assert a.value.lines + b.value.lines + c.value.lines == a.value.lines + (b.value.lines + c.value.lines);
    }
  }

  lemma CombineZero(a: Option<Report>)
    ensures Combine(Some(Report(Zero(), [])), a) == a && Combine(a, Some(Report(Zero(), []))) == a
  {
    if a.Some? {
      assert [] + a.value.lines == a.value.lines == a.value.lines + [];
    }
  }

  lemma {:induction false} LoopConcat(top: seq<Item>, a: seq<Item>, b: seq<Item>, prefix: seq<string>,
                                      depth: int, fuel: nat)
    ensures Loop(top, a + b, prefix, depth, fuel)
            == Combine(Loop(top, a, prefix, depth, fuel), Loop(top, b, prefix, depth, fuel))
    decreases |a|
  {
    hide Combine, One;
    var q := Loop(top, b, prefix, depth, fuel);
    CombineZero(q);
    if a == [] {
      assert a + b == b;
    } else {
      LoopConcat(top, a[1..], b, prefix, depth, fuel);
      assert (a + b)[1..] == a[1..] + b && (a + b)[0] == a[0];
      CombineAssoc(One(top, a[0], prefix, depth, fuel), Loop(top, a[1..], prefix, depth, fuel), q);
    }
  }

  lemma LoopOne(top: seq<Item>, item: Item, prefix: seq<string>, depth: int, fuel: nat)
    ensures Loop(top, [item], prefix, depth, fuel) == One(top, item, prefix, depth, fuel)
  {
    hide One, Combine;
    var one := [item];
    assert one[1..] == [] && one[0] == item;
    CombineZero(One(top, item, prefix, depth, fuel));
  }

  /** One more entry is counted; the fuel of both parts is enough for the whole. */
  lemma LoopNext(top: seq<Item>, done: seq<Item>, item: Item, prefix: seq<string>, depth: int, fuel: nat, so: Report,
                 more: nat, r: Report)
    requires Loop(top, done, prefix, depth, fuel) == Some(so)
    requires item.Itself? ==> Call(top, prefix, Deeper(depth), more) == Some(r)
    requires item.Prefix? ==> Call(item.items, prefix + [item.name], Deeper(depth), more) == Some(r)
    requires !item.Itself? && !item.Prefix? ==> r == Report(OfItem(item), [])
    ensures Loop(top, done + [item], prefix, depth, fuel + more + 1)
         == Some(Report(Plus(so.usage, r.usage), so.lines + r.lines))
  {
    hide Call, Plus;
    var enough := fuel + more + 1;
    LoopKeeps(top, done, prefix, depth, fuel, enough);
    if item.Itself? {
      CallKeeps(top, prefix, Deeper(depth), more, enough - 1);
    } else if item.Prefix? {
      CallKeeps(item.items, prefix + [item.name], Deeper(depth), more, enough - 1);
    }
    LoopOne(top, item, prefix, depth, enough);
    LoopConcat(top, done, [item], prefix, depth, enough);
  }

  /** What has been counted after `i` entries of the listing. */
  ghost predicate Counted(items: seq<Item>, i: nat, prefix: seq<string>, depth: int, fuel: nat, r: Report) {
    if depth == 1 then i <= |Flat(items)| && r == Report(Sum(Flat(items)[..i]), [])
    else i <= |items| && Loop(items, items[..i], prefix, depth, fuel) == Some(r)
  }

  lemma CountedFirst(items: seq<Item>, prefix: seq<string>, depth: int)
    ensures Counted(items, 0, prefix, depth, 0, Report(Zero(), []))
  {
  }

  lemma CountedNested(items: seq<Item>, i: nat, prefix: seq<string>, depth: int, fuel: nat, r: Report, used: Report)
    returns (enough: nat)
    requires depth != 1 && i < |items| && Counted(items, i, prefix, depth, fuel, r)
    requires items[i].Itself? || items[i].Prefix?
    requires items[i].Itself? ==> RunsTo(items, prefix, Deeper(depth), used)
    requires items[i].Prefix? ==> RunsTo(items[i].items, prefix + [items[i].name], Deeper(depth), used)
    ensures Counted(items, i + 1, prefix, depth, enough, Report(Plus(r.usage, used.usage), r.lines + used.lines))
  {
    hide Call, Loop, Plus;
    var item := items[i];
    var more: nat :| if item.Itself? then Call(items, prefix, Deeper(depth), more) == Some(used)
                     else Call(item.items, prefix + [item.name], Deeper(depth), more) == Some(used);
    LoopNext(items, items[..i], item, prefix, depth, fuel, r, more, used);
    assert items[..i + 1] == items[..i] + [item];
    enough := fuel + more + 1;
  }

  lemma CountedEntry(items: seq<Item>, i: nat, prefix: seq<string>, depth: int, fuel: nat, r: Report, item: Item)
    requires Counted(items, i, prefix, depth, fuel, r)
    requires if depth == 1 then i < |Flat(items)| && item == Flat(items)[i]
             else i < |items| && item == items[i] && !item.Itself? && !item.Prefix?
    ensures Counted(items, i + 1, prefix, depth, fuel + 1, Report(Plus(r.usage, OfItem(item)), r.lines))
  {
    hide Call, Loop, Plus, OfItem, Flat, Sum;
    if depth == 1 {
      var all := Flat(items);
      SumConcat(all[..i], [item]);
      SumOfOne(item);
      assert all[..i + 1] == all[..i] + [item];
    } else {
      LoopNext(items, items[..i], item, prefix, depth, fuel, r, 0, Report(OfItem(item), []));
      assert items[..i + 1] == items[..i] + [item];
      assert r.lines + [] == r.lines;
    }
  }

  lemma CountedLast(items: seq<Item>, prefix: seq<string>, depth: int, fuel: nat, r: Report)
    requires Counted(items, if depth == 1 then |Flat(items)| else |items|, prefix, depth, fuel, r)
    ensures RunsTo(items, prefix, depth, if depth == 0 then r else Report(r.usage, r.lines + [Line(prefix, r.usage)]))
  {
    hide Loop, Flat, Sum;
    assert Flat(items)[..|Flat(items)|] == Flat(items) && items[..|items|] == items;
    var end := if depth == 0 then r else Report(r.usage, r.lines + [Line(prefix, r.usage)]);
    assert [] + [Line(prefix, r.usage)] == [Line(prefix, r.usage)];
    assert Call(items, prefix, depth, fuel) == Some(end);
  }

  lemma PartsArePlain(items: seq<Item>, i: nat)
    requires i < |items| && Plain(items)
    ensures !items[i].Itself? && (items[i].Prefix? ==> Plain(items[i].items))
  {
  }

  /** du: one listing, and one nested call for every prefix in it unless the listing is already recursive. */
  method Du(items: seq<Item>, prefix: seq<string>, depth: int) returns (r: Report)
    requires depth >= 1 || Plain(items)
    ensures RunsTo(items, prefix, depth, r)
    decreases if depth > 0 then depth else 0, items
  {
    hide Counted, RunsTo, Plain, Flat;
    var recursive := depth == 1;
    var contents := if recursive then Flat(items) else items;
    var size: nat, objects: nat := 0, 0;
    var lines: seq<Line> := [];
    ghost var fuel: nat := 0;
    CountedFirst(items, prefix, depth);
    for i := 0 to |contents|
      invariant Counted(items, i, prefix, depth, fuel, Report(Usage(size, objects), lines))
    {
      var content := contents[i];
      ghost var before := Report(Usage(size, objects), lines);
      if (content.Prefix? || content.Itself?) && !recursive {
        var below := if depth > 0 then depth - 1 else depth;
        if depth < 1 {
          PartsArePlain(items, i);
        }
        var used;
        if content.Itself? {
          used := Du(items, prefix, below);
        } else {
          used := Du(content.items, prefix + [content.name], below);
        }
        fuel := CountedNested(items, i, prefix, depth, fuel, before, used);
        size := size + used.usage.size;
        objects := objects + used.usage.objects;
        lines := lines + used.lines;
      } else {
        CountedEntry(items, i, prefix, depth, fuel, before, content);
        fuel := fuel + 1;
        if content.Object? && !content.isDeleteMarker {
          size := size + content.size;
          objects := objects + 1;
        }
      }
    }
    r := Report(Usage(size, objects), lines);
    CountedLast(items, prefix, depth, fuel, r);
    if depth != 0 {
      r := Report(Usage(size, objects), lines + [Line(prefix, Usage(size, objects))]);
    }
  }
}
