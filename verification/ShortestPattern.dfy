/** evaluateShortestPattern: the breadth-first evaluation of a shortestPath over a
    single relationship returns what selecting among all its trails returns. */
module ShortestPattern {
  import opened Base
  import opened Sorted
  import opened MatchGraph
  import opened Walks
  import opened ShortestPath
  import opened ShortestAgreement
  import T = Trails
  import M = Matching

  /** The row in which the start variable is bound. */
  function StartRow(el: T.Element, outer: T.Row, start: Id): T.Row
    requires T.WellFormed(el)
  {
    var bound := T.Bind(outer, el.nodes[0].variable, T.NodeRef(start));
    if bound.Some? then bound.value else outer
  }

  /** The paths of all trails from a start, as the generic matcher lists them. */
  ghost function PathsOf(matches: seq<T.Match>): seq<Path> {
    if matches == [] then [] else PathsOf(matches[..|matches| - 1]) + [matches[|matches| - 1].path]
  }

  ghost function TrailsFrom(g: Graph, el: T.Element, outer: T.Row, start: Id): seq<Path>
    requires T.WellFormed(el) && |el.rels| == 1
  {
    PathsOf(GenericFrom(g, el, StartRow(el, outer, start), start))
  }

  ghost function EachStart(g: Graph, el: T.Element, outer: T.Row, starts: seq<Id>): (lists: seq<seq<Path>>)
    requires T.WellFormed(el) && |el.rels| == 1
    ensures |lists| == |starts| && forall i | 0 <= i < |starts| :: lists[i] == TrailsFrom(g, el, outer, starts[i])
  {
    if starts == [] then []
    else EachStart(g, el, outer, starts[..|starts| - 1]) + [TrailsFrom(g, el, outer, starts[|starts| - 1])]
  }

  ghost function AllTrails(g: Graph, el: T.Element, outer: T.Row): seq<Path>
    requires T.WellFormed(el) && |el.rels| == 1
  {
    Concat(EachStart(g, el, outer, M.Candidates(g, outer, el.nodes[0])))
  }

  /** When the search may be used: tests, bounds and other names do not depend on
      the start's binding, the lower bound is at most one, and no start is the
      target of an undirected pattern with lower bound one. */
  ghost predicate Suitable(g: Graph, el: T.Element, outer: T.Row) {
    && T.WellFormed(el) && |el.rels| == 1
    && (forall e | e in g.edges :: Plain(e))
    && T.Bounds(el.rels[0], outer, |g.edges|).0 <= 1
    && forall c | c in M.Candidates(g, outer, el.nodes[0]) :: SuitableStart(g, el, outer, c)
  }

  ghost predicate SuitableStart(g: Graph, el: T.Element, outer: T.Row, c: Id)
    requires T.WellFormed(el) && |el.rels| == 1
  {
    && c in g.nodes && Independent(el, outer, StartRow(el, outer, c), |g.edges|)
    && Safe(SearchOf(g, el, outer, c), T.Bounds(el.rels[0], outer, |g.edges|).0)
  }

  lemma CandidatesOnce(g: Graph, outer: T.Row, pattern: T.NodePattern)
    ensures NoDup(M.Candidates(g, outer, pattern))
  {
    SortedHolds(set n | n in g.nodes && pattern.test(outer, n));
    IncreasingNoDup(SortedIds(set n | n in g.nodes && pattern.test(outer, n)));
  }

  // ---- the generic matcher's list from one start ----

  lemma {:induction false} PathsOfHolds(matches: seq<T.Match>, p: Path)
    ensures p in PathsOf(matches) <==> exists m :: m in matches && m.path == p
  {
    if matches != [] {
      var rest, last := matches[..|matches| - 1], matches[|matches| - 1];
      assert matches == rest + [last];
      PathsOfHolds(rest, p);
    }
  }

  ghost predicate PathDecides(matches: seq<T.Match>) {
    forall a, b | a in matches && b in matches && a.path == b.path :: a == b
  }

  lemma {:induction false} PathsOfNoDup(matches: seq<T.Match>)
    requires NoDup(matches) && PathDecides(matches)
    ensures NoDup(PathsOf(matches))
  {
    if matches != [] {
      var rest, last := matches[..|matches| - 1], matches[|matches| - 1];
      assert matches == rest + [last];
      PathsOfNoDup(rest);
      PathsOfHolds(rest, last.path);
      AppendNoDup(PathsOf(rest), [last.path]);
    }
  }

  /** The generic list from one start: every full trail, once. */
  lemma TrailsFromIsFull(g: Graph, el: T.Element, outer: T.Row, start: Id)
    requires T.WellFormed(el) && |el.rels| == 1 && Independent(el, outer, StartRow(el, outer, start), |g.edges|)
    ensures var (lo, hi) := T.Bounds(el.rels[0], outer, |g.edges|);
            forall p :: p in TrailsFrom(g, el, outer, start) <==> Full(SearchOf(g, el, outer, start), lo, hi, p)
    ensures NoDup(TrailsFrom(g, el, outer, start))
  {
    hide T.Fits, T.Continue, Independent, Full, T.Bounds, SearchOf;
    var row := StartRow(el, outer, start);
    var matches := GenericFrom(g, el, row, start);
    T.ContinueIsExact(g, el, 0, row, Path([start], []), []);
    forall p ensures p in PathsOf(matches) <==>
        Full(SearchOf(g, el, outer, start), T.Bounds(el.rels[0], outer, |g.edges|).0, T.Bounds(el.rels[0], outer, |g.edges|).1, p) {
      GenericIsFull(g, el, outer, row, start, p);
      PathsOfHolds(matches, p);
    }
    forall a, b | a in matches && b in matches && a.path == b.path ensures a == b {
      FitsIsOneHop(g, el, row, start, a);
      FitsIsOneHop(g, el, row, start, b);
    }
    PathsOfNoDup(matches);
  }

  // ---- all starts ----

  ghost predicate Answers(g: Graph, el: T.Element, outer: T.Row, start: Id, found: seq<Path>)
    requires T.WellFormed(el) && |el.rels| == 1
  {
    var (lo, hi) := T.Bounds(el.rels[0], outer, |g.edges|);
    NoDup(found) && forall p :: p in found <==> IsAnswer(SearchOf(g, el, outer, start), lo, hi, p)
  }

  lemma OneStartAgrees(g: Graph, el: T.Element, outer: T.Row, start: Id, found: seq<Path>)
    requires Suitable(g, el, outer) && SuitableStart(g, el, outer, start) && Answers(g, el, outer, start, found)
    ensures forall p :: p in found <==> IsShortestOf(TrailsFrom(g, el, outer, start), p)
    ensures forall p | p in TrailsFrom(g, el, outer, start) :: IsWalkFrom(g, el.rels[0].direction, start, p)
    ensures NoDup(TrailsFrom(g, el, outer, start)) && NoDup(found)
  {
    hide Independent, T.Bounds, TrailsFrom, IsAnswer, M.Candidates;
    var q := SearchOf(g, el, outer, start);
    var lo, hi := T.Bounds(el.rels[0], outer, |g.edges|).0, T.Bounds(el.rels[0], outer, |g.edges|).1;
    TrailsFromIsFull(g, el, outer, start);
    var all := TrailsFrom(g, el, outer, start);
    forall p ensures p in found <==> IsShortestOf(all, p) {
      SafeSearchIsShortest(q, lo, hi, p);
      assert p in found <==> IsShortest(q, lo, hi, p);
    }
    forall p | p in all ensures IsWalkFrom(g, el.rels[0].direction, start, p) {
      assert Full(q, lo, hi, p);
      FullIsWalkFrom(g, q, lo, hi, p);
    }
  }

  lemma FullIsWalkFrom(g: Graph, q: Search, lo: nat, hi: nat, p: Path)
    requires q.graph == g && Full(q, lo, hi, p) && forall e | e in g.edges :: Plain(e)
    ensures IsWalkFrom(g, q.direction, q.start, p)
  {
    var loose := Loose(g, q.start, q.direction);
    forall i | 0 <= i < |p.edges| ensures Walks.Hop(loose, p.nodes[i], p.edges[i], p.nodes[i + 1]) {
      assert Walks.Hop(q, p.nodes[i], p.edges[i], p.nodes[i + 1]);
    }
    forall e | e in p.edges ensures Plain(e) {
      var i :| 0 <= i < |p.edges| && p.edges[i] == e;
      assert Walks.Hop(q, p.nodes[i], p.edges[i], p.nodes[i + 1]);
    }
    assert IsWalk(loose, p);
  }

  /** The search's lists and the generic lists select the same paths. */
  lemma SearchSelectsTheSame(g: Graph, el: T.Element, outer: T.Row, starts: seq<Id>, found: seq<seq<Path>>)
    requires Suitable(g, el, outer) && starts == M.Candidates(g, outer, el.nodes[0]) && |found| == |starts|
    requires forall i | 0 <= i < |starts| :: Answers(g, el, outer, starts[i], found[i])
    ensures Select(Concat(found)) == Select(AllTrails(g, el, outer))
  {
    hide Answers, TrailsFrom, IsWalkFrom, IsShortestOf, Select, Concat, M.Candidates;
    var lists := EachStart(g, el, outer, starts);
    var d := el.rels[0].direction;
    CandidatesOnce(g, outer, el.nodes[0]);
    forall i | 0 <= i < |starts|
      ensures (forall p :: p in found[i] <==> IsShortestOf(lists[i], p)) && NoDup(lists[i]) && NoDup(found[i])
      ensures forall p | p in lists[i] :: IsWalkFrom(g, d, starts[i], p)
      ensures forall p | p in found[i] :: p in lists[i]
    {
      assert starts[i] in starts;
      OneStartAgrees(g, el, outer, starts[i], found[i]);
      forall p | p in found[i] ensures p in lists[i] { ShortestIsOne(lists[i], p); }
    }
    SelectionsAgree(g, d, starts, lists, found);
  }

  lemma ShortestIsOne(paths: seq<Path>, p: Path)
    requires IsShortestOf(paths, p)
    ensures p in paths
  {
  }

  // ---- from a node back to itself ----

  /** Both nodes carry one variable that the outer row has not bound; apart from
      that nothing depends on the start's binding. */
  ghost predicate NamesLoop(g: Graph, el: T.Element, outer: T.Row, c: Id) {
    && T.WellFormed(el) && |el.rels| == 1 && c in g.nodes
    && el.nodes[0].variable == el.nodes[1].variable != "" && el.nodes[0].variable !in outer
    && el.rels[0].variable == ""
    && (forall n :: el.nodes[1].test(StartRow(el, outer, c), n) == el.nodes[1].test(outer, n))
    && (forall e :: el.rels[0].test(StartRow(el, outer, c), e) == el.rels[0].test(outer, e))
    && T.Bounds(el.rels[0], StartRow(el, outer, c), |g.edges|) == T.Bounds(el.rels[0], outer, |g.edges|)
  }

  /** The generic matcher lists the trails that the search would accept if it knew
      its target to be its start. */
  lemma LoopTrailsAreClosed(g: Graph, el: T.Element, outer: T.Row, c: Id)
    requires NamesLoop(g, el, outer, c)
    ensures var (lo, hi) := T.Bounds(el.rels[0], outer, |g.edges|);
            forall p :: p in TrailsFrom(g, el, outer, c) <==> Full(AtStart(SearchOf(g, el, outer, c)), lo, hi, p)
  {
    var row := StartRow(el, outer, c);
    var (lo, hi) := T.Bounds(el.rels[0], outer, |g.edges|);
    assert StartRow(el, row, c) == row;
    TrailsFromIsFull(g, el, row, c);
    var (q, loop) := (SearchOf(g, el, row, c), AtStart(SearchOf(g, el, outer, c)));
    hide T.Bounds, T.Continue;
    SameTests(q, loop, lo, hi);
  }

  lemma SameTests(a: Search, b: Search, lo: nat, hi: int)
    requires a.graph == b.graph && a.start == b.start && a.direction == b.direction
    requires (forall e :: a.edgeOk(e) == b.edgeOk(e)) && forall n :: a.targetOk(n) == b.targetOk(n)
    ensures forall p :: Full(a, lo, hi, p) <==> Full(b, lo, hi, p)
  {
    forall p ensures IsWalk(a, p) <==> IsWalk(b, p) {
      if Shaped(p) {
        assert forall i | 0 <= i < |p.edges| :: Walks.Hop(a, p.nodes[i], p.edges[i], p.nodes[i + 1]) == Walks.Hop(b, p.nodes[i], p.edges[i], p.nodes[i + 1]);
      }
    }
  }

  /** From such a start the search finds the shortest trails of the generic matcher
      exactly when every other node it takes for a target is farther than a round
      trip, and no shortest round trip is dropped. */
  lemma LoopSearchIff(g: Graph, el: T.Element, outer: T.Row, c: Id)
    requires NamesLoop(g, el, outer, c)
    ensures var (lo, hi) := T.Bounds(el.rels[0], outer, |g.edges|);
            var q := SearchOf(g, el, outer, c);
            (forall p :: IsAnswer(q, lo, hi, p) <==> IsShortestOf(TrailsFrom(g, el, outer, c), p)) <==>
            OthersAreFarther(q, lo, hi) && !exists p :: IsShortest(AtStart(q), lo, hi, p) && Dropped(q, p)
  {
    LoopTrailsAreClosed(g, el, outer, c);
    var (lo, hi) := T.Bounds(el.rels[0], outer, |g.edges|);
    var q := SearchOf(g, el, outer, c);
    LoopIsShortestIff(q, lo, hi);
    hide T.Bounds, TrailsFrom, SearchOf, OthersAreFarther, Full, IsAnswer, Dropped;
    forall p ensures IsShortest(AtStart(q), lo, hi, p) <==> IsShortestOf(TrailsFrom(g, el, outer, c), p) { }
  }

  /** (a)-[*]->(a) */
  function AnyLoop(): T.Element {
    T.Element([T.NodePattern("a", (row, n) => true), T.NodePattern("a", (row, n) => true)],
              [T.RelPattern("", Outgoing, Some(T.Length(None, None, false)), (row, e) => true)])
  }

  const ONE_EDGE := Graph({"m", "n"}, map["x" := Ends("m", "n")])

  /** One edge from m to n: nothing matches, and the search returns that edge. */
  lemma NeighbourIsNoLoop()
    ensures TrailsFrom(ONE_EDGE, AnyLoop(), map[], "m") == []
    ensures IsAnswer(SearchOf(ONE_EDGE, AnyLoop(), map[], "m"), 1, 1, Path(["m", "n"], ["x"]))
  {
    var q := SearchOf(ONE_EDGE, AnyLoop(), map[], "m");
    AnyLoopIs(q);
    LoopTrailsAreClosed(ONE_EDGE, AnyLoop(), map[], "m");
    hide TrailsFrom, Full, IsAnswer, SearchOf, AnyLoop;
    forall p ensures !Full(AtStart(q), 1, 1, p) { NoRoundTrip(q, p); }
    NothingIn(TrailsFrom(ONE_EDGE, AnyLoop(), map[], "m"));
    OneEdgeIsAnswer(q);
  }

  lemma NothingIn(paths: seq<Path>)
    ensures (forall p :: p !in paths) ==> paths == []
  {
    assert paths != [] ==> paths[0] in paths;
  }

  lemma AnyLoopIs(q: Search)
    requires q == SearchOf(ONE_EDGE, AnyLoop(), map[], "m")
    ensures NamesLoop(ONE_EDGE, AnyLoop(), map[], "m") && T.Bounds(AnyLoop().rels[0], map[], |ONE_EDGE.edges|) == (1, 1)
    ensures OverOneEdge(q)
  {
  }

  ghost predicate OverOneEdge(q: Search) {
    q.graph == ONE_EDGE && q.start == "m" && q.direction == Outgoing && (forall e :: q.edgeOk(e)) && forall n :: q.targetOk(n)
  }

  lemma NoRoundTrip(q: Search, p: Path)
    requires OverOneEdge(q)
    ensures !Full(AtStart(q), 1, 1, p)
  {
    if Shaped(p) && |p.edges| == 1 {
      assert Walks.Hop(AtStart(q), p.nodes[0], p.edges[0], p.nodes[1]) ==> p.nodes[0] == "m" && p.nodes[1] == "n";
    }
  }

  lemma OneEdgeIsAnswer(q: Search)
    requires OverOneEdge(q)
    ensures IsAnswer(q, 1, 1, Path(["m", "n"], ["x"]))
  {
    var p := Path(["m", "n"], ["x"]);
    assert Walks.Hop(q, p.nodes[0], p.edges[0], p.nodes[1]);
  }

  // ---- the program ----

  /** Without ALL, the first of the selected paths; nothing if there is no path. */
  function Chosen(paths: seq<Path>, all: bool): seq<Path> {
    var selected := Select(paths);
    if all || selected == [] then selected else [selected[0]]
  }

  method EvaluateShortest(g: Graph, el: T.Element, outer: T.Row, all: bool) returns (paths: seq<Path>)
    requires Suitable(g, el, outer)
    ensures paths == Chosen(AllTrails(g, el, outer), all)
  {
    hide M.Candidates, Independent, Safe, AllTrails, Select, IsAnswer;
    var (minimum, maximum) := T.Bounds(el.rels[0], outer, |g.edges|);
    var starts := M.Candidates(g, outer, el.nodes[0]);
    var result: seq<Path> := [];
    ghost var found: seq<seq<Path>> := [];
    for i := 0 to |starts|
      invariant |found| == i && result == Concat(found)
      invariant forall k | 0 <= k < i :: Answers(g, el, outer, starts[k], found[k])
    {
      assert starts[i] in starts;
      assert SuitableStart(g, el, outer, starts[i]);
      var some := ShortestPathsFrom(SearchOf(g, el, outer, starts[i]), minimum, maximum);
      assert (found + [some])[..i] == found;
      found := found + [some];
      result := result + some;
    }
    SearchSelectsTheSame(g, el, outer, starts, found);
    paths := Chosen(result, all);
  }
}
