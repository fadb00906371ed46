/** Matching over the loaded part of a snapshot gives the rows that matching over
    the whole snapshot gives, in the same order. */
module WorkingSetAgreement {
  import opened Base
  import opened Sorted
  import opened MatchGraph
  import opened Walks
  import opened Trails
  import opened Matching
  import opened WorkingSet

  // ---- what the planner promises about its push-down ----

  /** The scan of a pattern: same shape and static bounds, and whatever passes a
      test of the pattern in some row also passes the pushed-down predicate. */
  ghost predicate ScanOf(el: Element, s: Scan) {
    && ValidScan(s) && WellFormed(el) && |el.rels| == |s.rels|
    && (forall i | 0 <= i < |el.nodes| :: s.names[i] == el.nodes[i].variable)
    && (forall i | 0 <= i < |el.rels| :: s.rels[i].direction == el.rels[i].direction)
    && (forall i, row, count | 0 <= i < |el.rels| :: Bounds(el.rels[i], row, count) == (s.rels[i].lower, s.rels[i].upper))
    && (forall i, row, n | 0 <= i < |el.nodes| && el.nodes[i].test(row, n) :: NodePasses(s.nodes[i], n))
    && (forall i, row, e | 0 <= i < |el.rels| && el.rels[i].test(row, e) :: Any(s.rels[i].alternatives, e))
  }

  predicate NodePasses(s: NodeScan, n: Id) {
    !s.empty && s.base(n) && Any(s.alternatives, n)
  }

  // ---- what has been loaded ----

  ghost predicate Within(g: Graph, w: Loaded) {
    && w.nodes <= g.nodes && w.edges <= g.edges.Keys && "" !in w.bindings
    && forall name | name in w.bindings :: w.bindings[name] <= g.nodes
  }

  predicate Grows(a: Loaded, b: Loaded) {
    && a.nodes <= b.nodes && a.edges <= b.edges
    && forall name | name in a.bindings :: name in b.bindings && a.bindings[name] <= b.bindings[name]
  }

  predicate Holds(w: Loaded, name: string, nodes: set<Id>) {
    name != "" && nodes != {} ==> name in w.bindings && nodes <= w.bindings[name]
  }

  /** From relationship i on, starting anywhere in the frontier, everything the
      pattern can reach is loaded, and every target is among the bindings. */
  ghost predicate Covers(g: Graph, w: Loaded, s: Scan, i: nat, frontier: set<Id>)
    requires ValidScan(s) && i <= |s.rels|
    decreases |s.rels| - i
  {
    && Holds(w, s.names[i], frontier)
    && (i < |s.rels| ==>
          var r := s.rels[i];
          && EdgesWithin(g, r, frontier, r.upper) <= w.edges
          && NodesWithin(g, r, frontier, r.upper) <= w.nodes
          && Covers(g, w, s, i + 1, TargetsWithin(g, r, s.nodes[i + 1], frontier, r.upper)))
  }

  lemma {:induction false} CoversGrows(g: Graph, a: Loaded, b: Loaded, s: Scan, i: nat, frontier: set<Id>)
    requires ValidScan(s) && i <= |s.rels| && Covers(g, a, s, i, frontier) && Grows(a, b)
    ensures Covers(g, b, s, i, frontier)
    decreases |s.rels| - i
  {
    if i < |s.rels| {
      CoversGrows(g, a, b, s, i + 1, TargetsWithin(g, s.rels[i], s.nodes[i + 1], frontier, s.rels[i].upper));
    }
  }

  lemma {:induction false} EmptyFrontier(g: Graph, r: RelScan, target: NodeScan, n: nat)
    ensures Level(g, r, {}, n) == {} && EdgesWithin(g, r, {}, n) == {} && NodesWithin(g, r, {}, n) == {}
    ensures TargetsWithin(g, r, target, {}, n) == {}
  {
    if n > 0 { EmptyFrontier(g, r, target, n - 1); }
  }

  lemma {:induction false} EmptyIsCovered(g: Graph, w: Loaded, s: Scan, i: nat)
    requires ValidScan(s) && i <= |s.rels|
    ensures Covers(g, w, s, i, {})
    decreases |s.rels| - i
  {
    if i < |s.rels| {
      EmptyFrontier(g, s.rels[i], s.nodes[i + 1], s.rels[i].upper);
      EmptyIsCovered(g, w, s, i + 1);
    }
  }

  lemma {:induction false} WithinLevels(g: Graph, r: RelScan, target: NodeScan, frontier: set<Id>, n: nat)
    requires frontier <= g.nodes
    ensures Level(g, r, frontier, n) <= g.nodes && EdgesWithin(g, r, frontier, n) <= g.edges.Keys
    ensures NodesWithin(g, r, frontier, n) <= g.nodes && TargetsWithin(g, r, target, frontier, n) <= g.nodes
  {
    if n > 0 { WithinLevels(g, r, target, frontier, n - 1); }
  }

  predicate OnlyNames(a: Loaded, b: Loaded, s: Scan) {
    forall name | name in b.bindings :: name in s.names || (name in a.bindings && a.bindings[name] == b.bindings[name])
  }

  lemma {:induction false} ExpandCovers(g: Graph, w: Loaded, s: Scan, i: nat, frontier: set<Id>)
    requires ValidScan(s) && i <= |s.rels| && Within(g, w) && frontier <= g.nodes && Holds(w, s.names[i], frontier)
    ensures var v := Expand(g, w, s, i, frontier);
            Within(g, v) && Grows(w, v) && Covers(g, v, s, i, frontier) && OnlyNames(w, v, s)
    decreases |s.rels| - i
  {
    hide EdgesWithin, NodesWithin, TargetsWithin;
    if i == |s.rels| {
    } else if i > 0 && frontier == {} {
      EmptyIsCovered(g, w, s, i);
    } else {
      var r := s.rels[i];
      var next := TargetsWithin(g, r, s.nodes[i + 1], frontier, r.upper);
      var more := w.(edges := w.edges + EdgesWithin(g, r, frontier, r.upper), nodes := w.nodes + NodesWithin(g, r, frontier, r.upper));
      WithinLevels(g, r, s.nodes[i + 1], frontier, r.upper);
      ExpandCovers(g, Rebind(more, s.names[i + 1], next), s, i + 1, next);
    }
  }

  lemma LoadCovers(g: Graph, w: Loaded, s: Scan)
    requires ValidScan(s) && Within(g, w)
    ensures var v := LoadPattern(g, w, s);
            && Within(g, v) && Grows(w, v) && OnlyNames(w, v, s)
            && Covers(g, v, s, 0, Root(g, w, s.names[0], s.nodes[0]))
            && (Bound(w, s.names[0]) == {} ==> Root(g, w, s.names[0], s.nodes[0]) <= v.nodes)
  {
    var root := Root(g, w, s.names[0], s.nodes[0]);
    var first := AfterRoot(g, w, s);
    assert root <= g.nodes;
    assert Within(g, first) && Grows(w, first) && OnlyNames(w, first, s);
    ExpandCovers(g, first, s, 0, root);
  }

  // ---- what is within reach ----

  lemma {:induction false} ReachIsLoaded(g: Graph, r: RelScan, target: NodeScan, frontier: set<Id>, d: nat, n: nat)
    requires d <= n
    ensures d < n ==> AdjacentScan(g, r, Level(g, r, frontier, d)) <= EdgesWithin(g, r, frontier, n)
    ensures 0 < d ==> Level(g, r, frontier, d) <= NodesWithin(g, r, frontier, n)
    ensures r.lower <= d ==> Passing(Level(g, r, frontier, d), target.base) <= TargetsWithin(g, r, target, frontier, n)
    decreases n
  {
    hide AdjacentScan, NextLevel, Passing;
    if d < n { ReachIsLoaded(g, r, target, frontier, d, n - 1); }
  }

  lemma LevelUnfolds(g: Graph, r: RelScan, frontier: set<Id>, d: nat)
    ensures Level(g, r, frontier, d + 1) == NextLevel(g, r, Level(g, r, frontier, d))
  {
  }

  /** One admitted edge leads from a level to the next. */
  lemma HopReaches(g: Graph, r: RelScan, level: set<Id>, a: Id, e: Id, b: Id)
    requires a in level && e in g.edges && Connects(g.edges[e], r.direction, a, b) && Any(r.alternatives, e) && b in g.nodes
    ensures e in AdjacentScan(g, r, level) && b in NextLevel(g, r, level)
  {
  }

  // ---- the enumeration agrees ----

  lemma {:induction false} ContinueAgrees(g: Graph, w: Loaded, el: Element, s: Scan, i: nat, row: Row, path: Path,
          cuts: seq<nat>, frontier: set<Id>)
    requires ScanOf(el, s) && i <= |el.rels| && |cuts| == i && Shaped(path)
    requires Within(g, w) && Covers(g, w, s, i, frontier) && End(path) in frontier
    ensures Continue(WorkingGraph(g, w), el, i, row, path, cuts) == Continue(g, el, i, row, path, cuts)
    decreases |el.rels| - i, Unused(g, path), 2, 0
  {
    if i < |el.rels| {
      var lo, hi := s.rels[i].lower, s.rels[i].upper;
      assert Bounds(el.rels[i], row, |g.edges|) == (lo, hi);
      assert Bounds(el.rels[i], row, |WorkingGraph(g, w).edges|) == (lo, hi);
      WalkAgrees(g, w, Frame(g, el, i, |path.edges|, lo, hi, row, cuts), s, path, frontier);
    }
  }

  /** The walk is d hops into relationship i, at a node of level d. */
  ghost predicate OnTrack(g: Graph, w: Loaded, f: Frame, s: Scan, path: Path, frontier: set<Id>) {
    && f.g == g && ValidFrame(f) && Shaped(path) && f.base <= |path.edges|
    && ScanOf(f.el, s) && Within(g, w) && Covers(g, w, s, f.i, frontier)
    && f.lo == s.rels[f.i].lower && f.hi == s.rels[f.i].upper && |path.edges| - f.base <= f.hi
    && End(path) in Level(g, s.rels[f.i], frontier, |path.edges| - f.base)
  }

  lemma {:induction false} WalkAgrees(g: Graph, w: Loaded, f: Frame, s: Scan, path: Path, frontier: set<Id>)
    requires OnTrack(g, w, f, s, path, frontier)
    ensures Walk(f.(g := WorkingGraph(g, w)), path) == Walk(f, path)
    decreases |f.el.rels| - f.i, Unused(g, path), 1, 0
  {
    var wg, a, dir := WorkingGraph(g, w), End(path), f.el.rels[f.i].direction;
    var depth := |path.edges| - f.base;
    if depth >= f.lo { StopAgrees(g, w, f, s, path, frontier); }
    if depth != f.hi {
      SortedHolds(LeavingIds(g, a, dir));
      SortedHolds(LeavingIds(wg, a, dir));
      SortedSubset(LeavingIds(g, a, dir), LeavingIds(wg, a, dir));
      EachAgrees(g, w, f, s, path, frontier, SortedIds(LeavingIds(g, a, dir)), SortedIds(LeavingIds(wg, a, dir)));
    }
    hide Stop, Each, Covers, ScanOf, Level, OnTrack, Unused, Attach;
  }

  lemma {:induction false} StopAgrees(g: Graph, w: Loaded, f: Frame, s: Scan, path: Path, frontier: set<Id>)
    requires OnTrack(g, w, f, s, path, frontier) && |path.edges| - f.base >= f.lo
    ensures Stop(f.(g := WorkingGraph(g, w)), path) == Stop(f, path)
    decreases |f.el.rels| - f.i, Unused(g, path), 0, 0
  {
    hide Continue, Level, EdgesWithin, NodesWithin, TargetsWithin;
    var next := BindHop(f.el, f.i, f.row, f.base, path);
    if f.el.nodes[f.i + 1].test(f.row, End(path)) && next.Some? {
      var r := s.rels[f.i];
      assert NodePasses(s.nodes[f.i + 1], End(path));
      ReachIsLoaded(g, r, s.nodes[f.i + 1], frontier, |path.edges| - f.base, f.hi);
      ContinueAgrees(g, w, f.el, s, f.i + 1, next.value, path, f.cuts + [|path.edges|],
                     TargetsWithin(g, r, s.nodes[f.i + 1], frontier, f.hi));
    }
  }

  lemma EdgePasses(el: Element, s: Scan, i: nat, row: Row, e: Id)
    requires ScanOf(el, s) && i < |el.rels| && el.rels[i].test(row, e)
    ensures Any(s.rels[i].alternatives, e)
  {
  }

  lemma SameDirection(el: Element, s: Scan, i: nat)
    requires ScanOf(el, s) && i < |el.rels|
    ensures ValidScan(s) && |el.rels| == |s.rels| && s.rels[i].direction == el.rels[i].direction
  {
  }

  function Over(g: Graph, f: Frame, path: Path, e: Id): Adjacent
    requires f.i < |f.el.rels| && Shaped(path) && e in g.edges
  {
    Adjacent(e, Next(g.edges[e], f.el.rels[f.i].direction, End(path)))
  }

  /** An edge the loader passed over is not admitted; an admitted one leads to a
      loaded node of the next level. */
  lemma AdmittedIsLoaded(g: Graph, w: Loaded, f: Frame, s: Scan, path: Path, frontier: set<Id>, e: Id)
    requires OnTrack(g, w, f, s, path, frontier) && |path.edges| - f.base < f.hi
    requires e in g.edges && Leaves(g.edges[e], f.el.rels[f.i].direction, End(path)) && Admits(f, path, Over(g, f, path, e))
    ensures e in w.edges && Over(g, f, path, e).next in w.nodes
    ensures Over(g, f, path, e).next in Level(g, s.rels[f.i], frontier, |path.edges| - f.base + 1)
  {
    hide Unused, TargetsWithin, EdgesWithin, NodesWithin, Level, ScanOf, WorkingSet.AdjacentScan, WorkingSet.NextLevel, Any;
    SameDirection(f.el, s, f.i);
    var r, d, x := s.rels[f.i], |path.edges| - f.base, Over(g, f, path, e);
    EdgePasses(f.el, s, f.i, f.row, e);
    assert Connects(g.edges[e], r.direction, End(path), x.next);
    LevelUnfolds(g, r, frontier, d);
    HopReaches(g, r, Level(g, r, frontier, d), End(path), e, x.next);
    ReachIsLoaded(g, r, s.nodes[f.i + 1], frontier, d, f.hi);
    ReachIsLoaded(g, r, s.nodes[f.i + 1], frontier, d + 1, f.hi);
  }

  lemma StaysOnTrack(g: Graph, w: Loaded, f: Frame, s: Scan, path: Path, frontier: set<Id>, e: Id, n: Id)
    requires OnTrack(g, w, f, s, path, frontier) && |path.edges| - f.base < f.hi
    requires n in Level(g, s.rels[f.i], frontier, |path.edges| - f.base + 1)
    ensures OnTrack(g, w, f, s, Extend(path, e, n), frontier)
  {
    hide Covers, ScanOf, Level;
    assert End(Extend(path, e, n)) == n;
  }

  lemma {:induction false} FilterLast(ids: seq<Id>, keep: set<Id>)
    requires ids != []
    ensures Filter(ids, keep) == Filter(ids[..|ids| - 1], keep) + (if ids[|ids| - 1] in keep then [ids[|ids| - 1]] else [])
  {
    if |ids| > 1 {
      FilterLast(ids[1..], keep);
      assert ids[1..][..|ids| - 2] == ids[..|ids| - 1][1..];
    }
  }

  lemma {:induction false} FilterKeeps(ids: seq<Id>, keep: set<Id>)
    ensures forall x :: x in Filter(ids, keep) <==> x in ids && x in keep
  {
    if ids != [] { FilterKeeps(ids[1..], keep); }
  }

  /** The loop over the edges at a node, over both adjacency lists. */
  lemma {:induction false} EachAgrees(g: Graph, w: Loaded, f: Frame, s: Scan, path: Path, frontier: set<Id>,
          ids: seq<Id>, kept: seq<Id>)
    requires OnTrack(g, w, f, s, path, frontier) && |path.edges| - f.base < f.hi
    requires forall x | x in ids :: x in g.edges && Leaves(g.edges[x], f.el.rels[f.i].direction, End(path))
    requires forall x | x in kept :: x in WorkingGraph(g, w).edges
    requires kept == Filter(ids, LeavingIds(WorkingGraph(g, w), End(path), f.el.rels[f.i].direction))
    ensures EachOver(f.(g := WorkingGraph(g, w)), path, kept) == EachOver(f, path, ids)
    decreases |f.el.rels| - f.i, Unused(g, path), 0, |ids|
  {
    hide EachOver, OverOne, ScanOf, Covers, Within, Level, Unused, Over;
    var wg := WorkingGraph(g, w);
    var keep := LeavingIds(wg, End(path), f.el.rels[f.i].direction);
    if ids == [] {
      EachOfNone(f, path);
      EachOfNone(f.(g := wg), path);
    } else {
      var rest, e := ids[..|ids| - 1], ids[|ids| - 1];
      assert ids == rest + [e] && e in ids;
      FilterKeeps(rest, keep);
      FilterLast(ids, keep);
      EachAgrees(g, w, f, s, path, frontier, rest, Filter(rest, keep));
      OneEdgeAgrees(g, w, f, s, path, frontier, e);
      EachLast(f, path, rest, e);
      assert e in keep <==> e in w.edges;
      if e in keep {
        assert kept == Filter(rest, keep) + [e];
        EachLast(f.(g := wg), path, Filter(rest, keep), e);
      } else {
        assert kept == Filter(rest, keep) && EachOver(f, path, rest) + [] == EachOver(f, path, rest);
      }
    }
  }

  ghost function EachOver(f: Frame, path: Path, ids: seq<Id>): seq<Match>
    requires ValidFrame(f) && Shaped(path) && f.base <= |path.edges| && forall x | x in ids :: x in f.g.edges
  {
    Each(f, path, Attach(f.g, End(path), f.el.rels[f.i].direction, ids))
  }

  ghost function OverOne(f: Frame, path: Path, e: Id): seq<Match>
    requires ValidFrame(f) && Shaped(path) && f.base <= |path.edges| && e in f.g.edges
  {
    var x := Over(f.g, f, path, e);
    if Admits(f, path, x) then Walk(f, Extend(path, x.edge, x.next)) else []
  }

  lemma {:induction false} OneEdgeAgrees(g: Graph, w: Loaded, f: Frame, s: Scan, path: Path, frontier: set<Id>, e: Id)
    requires OnTrack(g, w, f, s, path, frontier) && |path.edges| - f.base < f.hi
    requires e in g.edges && Leaves(g.edges[e], f.el.rels[f.i].direction, End(path))
    ensures OverOne(f, path, e) == if e in w.edges then OverOne(f.(g := WorkingGraph(g, w)), path, e) else []
    decreases |f.el.rels| - f.i, Unused(g, path), 0, 0
  {
    hide Walk;
    var x := Over(g, f, path, e);
    if Admits(f, path, x) {
      AdmittedIsLoaded(g, w, f, s, path, frontier, e);
      StaysOnTrack(g, w, f, s, path, frontier, x.edge, x.next);
      UnusedShrinks(g, path, x.edge, x.next);
      WalkAgrees(g, w, f, s, Extend(path, x.edge, x.next), frontier);
    }
    hide OnTrack, Unused;
  }

  lemma EachOfNone(f: Frame, path: Path)
    requires ValidFrame(f) && Shaped(path) && f.base <= |path.edges|
    ensures EachOver(f, path, []) == []
  {
  }

  lemma EachLast(f: Frame, path: Path, rest: seq<Id>, e: Id)
    requires ValidFrame(f) && Shaped(path) && f.base <= |path.edges|
    requires e in f.g.edges && forall x | x in rest :: x in f.g.edges
    ensures EachOver(f, path, rest + [e]) == EachOver(f, path, rest) + OverOne(f, path, e)
  {
    hide Walk, Unused, Admits;
    var dir := f.el.rels[f.i].direction;
    var all := Attach(f.g, End(path), dir, rest + [e]);
    assert all[..|rest|] == Attach(f.g, End(path), dir, rest);
    assert all[|rest|] == Over(f.g, f, path, e);
  }
}
