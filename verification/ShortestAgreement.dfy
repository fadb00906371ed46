/** When the breadth-first search may stand in for the generic enumeration of
    trails: what each finds from one start, and what is selected from both. */
module ShortestAgreement {
  import opened Base
  import opened Text
  import opened Sorted
  import opened MatchGraph
  import opened Walks
  import opened ShortestPath
  import T = Trails

  // ---- one start: the search against all trails ----

  /** A trail the generic matcher gives for a single relationship. */
  ghost predicate Full(q: Search, minimum: nat, maximum: int, p: Path) {
    IsTrail(q, p) && q.targetOk(End(p)) && minimum <= |p.edges| <= maximum
  }

  ghost predicate IsShortest(q: Search, minimum: nat, maximum: int, p: Path) {
    Full(q, minimum, maximum, p) && forall r | Full(q, minimum, maximum, r) :: |p.edges| <= |r.edges|
  }

  /** A trail back to its start that an undirected search does not return. */
  ghost predicate Dropped(q: Search, p: Path)
    requires Shaped(p)
  {
    !q.direction.Directed() && End(p) == q.start && |p.edges| >= 3
  }

  /** The search returns the shortest trails exactly when none of them is an
      undirected round trip over three or more relationships. */
  lemma SearchIsShortestIff(q: Search, minimum: nat, maximum: int)
    ensures (forall p :: IsAnswer(q, minimum, maximum, p) <==> IsShortest(q, minimum, maximum, p))
            <==> !exists p :: IsShortest(q, minimum, maximum, p) && Dropped(q, p)
  {
    forall p ensures Allowed(q, minimum, maximum, p) <==> Full(q, minimum, maximum, p) && !Dropped(q, p) { }
    if p :| IsShortest(q, minimum, maximum, p) && Dropped(q, p) {
      assert !IsAnswer(q, minimum, maximum, p);
    }
    if !exists p :: IsShortest(q, minimum, maximum, p) && Dropped(q, p) {
      forall p ensures IsAnswer(q, minimum, maximum, p) <==> IsShortest(q, minimum, maximum, p) {
        if IsAnswer(q, minimum, maximum, p) {
          var s := ShortestFull(q, minimum, maximum, p);
          assert Allowed(q, minimum, maximum, s);
        }
      }
    }
  }

  lemma {:induction false} ShortestFull(q: Search, minimum: nat, maximum: int, p: Path) returns (s: Path)
    requires Full(q, minimum, maximum, p)
    ensures IsShortest(q, minimum, maximum, s) && |s.edges| <= |p.edges|
    decreases |p.edges|
  {
    if r :| Full(q, minimum, maximum, r) && |r.edges| < |p.edges| {
      s := ShortestFull(q, minimum, maximum, r);
    } else {
      s := p;
    }
  }

  /** In particular, a caller can see beforehand that a directed pattern, a start
      that is no target, or a lower bound of zero is safe. */
  predicate Safe(q: Search, minimum: nat) {
    q.direction.Directed() || !q.targetOk(q.start) || minimum == 0
  }

  lemma SafeSearchIsShortest(q: Search, minimum: nat, maximum: int, p: Path)
    requires Safe(q, minimum) && minimum <= 1 && q.start in q.graph.nodes
    ensures IsAnswer(q, minimum, maximum, p) <==> IsShortest(q, minimum, maximum, p)
  {
    if r :| IsShortest(q, minimum, maximum, r) && Dropped(q, r) {
      var trivial := Path([q.start], []);
      assert IsTrail(q, trivial);
      assert minimum == 0 && Full(q, minimum, maximum, trivial);
    }
    SearchIsShortestIff(q, minimum, maximum);
  }

  /** The boundary: around an undirected triangle the generic matcher goes from a
      node back to itself, the search returns nothing. */
  lemma TriangleIsDropped()
    ensures var q := Search(Graph({"a", "b", "c"}, map["x" := Ends("a", "b"), "y" := Ends("b", "c"), "z" := Ends("c", "a")]),
                            "a", Undirected, e => true, n => n == "a");
            && Full(q, 1, 3, Path(["a", "b", "c", "a"], ["x", "y", "z"]))
            && forall p :: !IsAnswer(q, 1, 3, p)
  {
    var q := Search(Graph({"a", "b", "c"}, map["x" := Ends("a", "b"), "y" := Ends("b", "c"), "z" := Ends("c", "a")]),
                    "a", Undirected, e => true, n => n == "a");
    var round := Path(["a", "b", "c", "a"], ["x", "y", "z"]);
    forall i | 0 <= i < |round.edges| ensures Hop(q, round.nodes[i], round.edges[i], round.nodes[i + 1]) {
      assert i == 0 || i == 1 || i == 2;
    }
    forall p | Allowed(q, 1, 3, p) ensures false { }
  }

  // ---- a pattern from a node back to itself ----

  /** The search that would know its target to be its start. */
  function AtStart(q: Search): Search {
    q.(targetOk := n => n == q.start && q.targetOk(n))
  }

  /** In `(a)-[*]->(a)` with `a` unbound the search takes any node for its target that
      passes the other tests, while the generic matcher binds it to the start.  They
      agree exactly when every such node is farther than a round trip, and no
      shortest round trip is dropped. */
  lemma LoopIsShortestIff(q: Search, minimum: nat, maximum: int)
    ensures (forall p :: IsAnswer(q, minimum, maximum, p) <==> IsShortest(AtStart(q), minimum, maximum, p))
            <==> OthersAreFarther(q, minimum, maximum)
                 && !exists p :: IsShortest(AtStart(q), minimum, maximum, p) && Dropped(q, p)
  {
    hide Hop;
    var loop := AtStart(q);
    LoopIsClosed(q, minimum, maximum);
    var same := forall p :: IsAnswer(q, minimum, maximum, p) <==> IsShortest(loop, minimum, maximum, p);
    if same {
      forall p | Allowed(q, minimum, maximum, p) && End(p) != q.start
        ensures exists r :: Allowed(q, minimum, maximum, r) && End(r) == q.start && |r.edges| < |p.edges|
      {
        var a := SomeAnswer(q, minimum, maximum, p);
        assert IsShortest(loop, minimum, maximum, a);
        assert |a.edges| == |p.edges| ==> IsAnswer(q, minimum, maximum, p);
      }
      forall p | IsShortest(loop, minimum, maximum, p) ensures !Dropped(q, p) { assert IsAnswer(q, minimum, maximum, p); }
    } else if OthersAreFarther(q, minimum, maximum) && !exists p :: IsShortest(loop, minimum, maximum, p) && Dropped(q, p) {
      forall p ensures IsAnswer(q, minimum, maximum, p) <==> IsShortest(loop, minimum, maximum, p) {
        LoopAgrees(q, minimum, maximum, p);
      }
    }
  }

  /** Every other target lies farther away than a round trip. */
  ghost predicate OthersAreFarther(q: Search, minimum: nat, maximum: int) {
    forall p | Allowed(q, minimum, maximum, p) && End(p) != q.start ::
      exists r :: Allowed(q, minimum, maximum, r) && End(r) == q.start && |r.edges| < |p.edges|
  }

  lemma LoopIsClosed(q: Search, minimum: nat, maximum: int)
    ensures forall p :: Full(AtStart(q), minimum, maximum, p) <==> Full(q, minimum, maximum, p) && End(p) == q.start
    ensures forall p :: Allowed(q, minimum, maximum, p) <==> Full(q, minimum, maximum, p) && !Dropped(q, p)
  {
    forall p ensures IsWalk(AtStart(q), p) <==> IsWalk(q, p) {
      if Shaped(p) {
        assert forall i | 0 <= i < |p.edges| :: Hop(AtStart(q), p.nodes[i], p.edges[i], p.nodes[i + 1]) == Hop(q, p.nodes[i], p.edges[i], p.nodes[i + 1]);
      }
    }
  }

  lemma LoopAgrees(q: Search, minimum: nat, maximum: int, p: Path)
    requires OthersAreFarther(q, minimum, maximum)
    requires !exists p :: IsShortest(AtStart(q), minimum, maximum, p) && Dropped(q, p)
    ensures IsAnswer(q, minimum, maximum, p) <==> IsShortest(AtStart(q), minimum, maximum, p)
  {
    hide Hop;
    LoopIsClosed(q, minimum, maximum);
    if IsAnswer(q, minimum, maximum, p) {
      forall r | Full(AtStart(q), minimum, maximum, r) ensures |p.edges| <= |r.edges| {
        var s := ShortestFull(AtStart(q), minimum, maximum, r);
        assert Allowed(q, minimum, maximum, s);
      }
    }
    if IsShortest(AtStart(q), minimum, maximum, p) {
      forall r | Allowed(q, minimum, maximum, r) ensures |p.edges| <= |r.edges| {
        if End(r) != q.start {
          var c :| Allowed(q, minimum, maximum, c) && End(c) == q.start && |c.edges| < |r.edges|;
          assert Full(AtStart(q), minimum, maximum, c);
        }
      }
    }
  }

  lemma {:induction false} SomeAnswer(q: Search, minimum: nat, maximum: int, p: Path) returns (s: Path)
    requires Allowed(q, minimum, maximum, p)
    ensures IsAnswer(q, minimum, maximum, s) && |s.edges| <= |p.edges|
    decreases |p.edges|
  {
    if r :| Allowed(q, minimum, maximum, r) && |r.edges| < |p.edges| {
      s := SomeAnswer(q, minimum, maximum, r);
    } else {
      s := p;
    }
  }

  // ---- one start: the generic matcher against all trails ----

  /** The tests of the search, under the outer row. */
  function SearchOf(g: Graph, el: T.Element, outer: T.Row, start: Id): Search
    requires T.WellFormed(el) && |el.rels| == 1
  {
    Search(g, start, el.rels[0].direction,
           e => (el.rels[0].variable in outer && el.rels[0].variable != "" ==> outer[el.rels[0].variable] == T.EdgeRef(e))
                && el.rels[0].test(outer, e),
           n => (el.nodes[1].variable in outer && el.nodes[1].variable != "" ==> outer[el.nodes[1].variable] == T.NodeRef(n))
                && el.nodes[1].test(outer, n))
  }

  predicate KnownOnlyIfOuter(name: string, outer: T.Row, row: T.Row) {
    name != "" && name in row ==> name in outer && outer[name] == row[name]
  }

  /** Binding the start node changes neither the tests, nor the bounds, nor what
      is known about the other two names; and a variable length is not named. */
  ghost predicate Independent(el: T.Element, outer: T.Row, row: T.Row, edgeCount: nat)
    requires T.WellFormed(el) && |el.rels| == 1
  {
    && (forall n :: el.nodes[1].test(row, n) == el.nodes[1].test(outer, n))
    && (forall e :: el.rels[0].test(row, e) == el.rels[0].test(outer, e))
    && T.Bounds(el.rels[0], row, edgeCount) == T.Bounds(el.rels[0], outer, edgeCount)
    && (forall name | name in outer :: name in row && row[name] == outer[name])
    && KnownOnlyIfOuter(el.nodes[1].variable, outer, row)
    && KnownOnlyIfOuter(el.rels[0].variable, outer, row)
    && (el.rels[0].length.Some? ==> el.rels[0].variable == "")
    && (el.rels[0].variable != "" ==> el.rels[0].variable != el.nodes[1].variable || el.rels[0].variable in outer)
  }

  ghost function GenericFrom(g: Graph, el: T.Element, row: T.Row, start: Id): seq<T.Match>
    requires T.WellFormed(el) && |el.rels| == 1
  {
    T.Continue(g, el, 0, row, Path([start], []), [])
  }

  /** What a match of a single relationship looks like. */
  ghost predicate OneHop(g: Graph, el: T.Element, row: T.Row, start: Id, m: T.Match)
    requires T.WellFormed(el) && |el.rels| == 1
  {
    var (lo, hi) := T.Bounds(el.rels[0], row, |g.edges|);
    && Shaped(m.path) && m.path.nodes[0] == start && lo <= |m.path.edges| <= hi
    && m.cuts == [|m.path.edges|] && T.Stretch(T.Frame(g, el, 0, 0, lo, hi, row, []), m.path, 0, |m.path.edges|)
    && el.nodes[1].test(row, End(m.path))
    && T.BindHop(el, 0, row, 0, m.path) == Some(m.row)
  }

  lemma FitsIsOneHop(g: Graph, el: T.Element, row: T.Row, start: Id, m: T.Match)
    requires T.WellFormed(el) && |el.rels| == 1 && T.Fits(g, el, 0, row, Path([start], []), [], m)
    ensures OneHop(g, el, row, start, m)
  {
    var (lo, hi) := T.Bounds(el.rels[0], row, |g.edges|);
    var f := T.Frame(g, el, 0, 0, lo, hi, row, []);
    assert T.FitsFrom(f, Path([start], []), m);
    assert Prefix(m.path, 0).nodes[0] == m.path.nodes[0];
    var stop := Prefix(m.path, m.cuts[0]);
    assert T.FitsStop(f, stop, m);
    var next := T.BindHop(el, 0, row, 0, stop).value;
    assert T.Fits(g, el, 1, next, stop, [] + [|stop.edges|], m);
    assert m == T.Match(next, stop, [] + [|stop.edges|]);
  }

  lemma OneHopFits(g: Graph, el: T.Element, row: T.Row, start: Id, m: T.Match)
    requires T.WellFormed(el) && |el.rels| == 1 && OneHop(g, el, row, start, m)
    ensures T.Fits(g, el, 0, row, Path([start], []), [], m)
  {
    var (lo, hi) := T.Bounds(el.rels[0], row, |g.edges|);
    var f := T.Frame(g, el, 0, 0, lo, hi, row, []);
    assert Prefix(m.path, 0) == Path([start], []);
    assert Prefix(m.path, |m.path.edges|) == m.path;
    assert m == T.Match(m.row, m.path, [] + [|m.path.edges|]);
    assert T.FitsStop(f, m.path, m);
    assert T.FitsFrom(f, Path([start], []), m);
  }

  lemma StretchIsTrail(q: Search, f: T.Frame, p: Path)
    requires T.ValidFrame(f) && Shaped(p) && p.nodes[0] == q.start && f.g == q.graph && f.el.rels[f.i].direction == q.direction
    requires forall e | e in p.edges :: f.el.rels[f.i].test(f.row, e) == q.edgeOk(e)
    ensures T.Stretch(f, p, 0, |p.edges|) <==> IsTrail(q, p)
  {
    if T.Stretch(f, p, 0, |p.edges|) {
      forall j | 0 <= j < |p.edges| ensures Hop(q, p.nodes[j], p.edges[j], p.nodes[j + 1]) {
        assert T.Admitted(f, p, j);
        assert p.edges[j] in p.edges;
      }
      assert p.edges[..0] == [] && p.edges[..|p.edges|] == p.edges;
      T.StretchIsTrail(f, p, 0, |p.edges|);
    }
    if IsTrail(q, p) {
      forall j | 0 <= j < |p.edges| ensures T.Admitted(f, p, j) {
        assert Hop(q, p.nodes[j], p.edges[j], p.nodes[j + 1]);
        assert p.edges[j] in p.edges;
      }
    }
  }

  /** The generic matcher's paths from a start are the full trails. */
  lemma GenericIsFull(g: Graph, el: T.Element, outer: T.Row, row: T.Row, start: Id, p: Path)
    requires T.WellFormed(el) && |el.rels| == 1 && Independent(el, outer, row, |g.edges|)
    ensures var (lo, hi) := T.Bounds(el.rels[0], outer, |g.edges|);
            (exists m :: T.Fits(g, el, 0, row, Path([start], []), [], m) && m.path == p) <==>
            Full(SearchOf(g, el, outer, start), lo, hi, p)
  {
    var (lo, hi) := T.Bounds(el.rels[0], row, |g.edges|);
    var f := T.Frame(g, el, 0, 0, lo, hi, row, []);
    var q := SearchOf(g, el, outer, start);
    var trivial := Path([start], []);
    hide T.Fits;
    if m :| T.Fits(g, el, 0, row, trivial, [], m) && m.path == p {
      FitsIsOneHop(g, el, row, start, m);
      BindIsCheck(g, el, outer, row, start, p);
      StretchIsTrail(q, f, p);
    }
    if Full(q, lo, hi, p) {
      BindIsCheck(g, el, outer, row, start, p);
      forall e | e in p.edges ensures f.el.rels[f.i].test(f.row, e) == q.edgeOk(e) {
        var j :| 0 <= j < |p.edges| && p.edges[j] == e;
        assert Hop(q, p.nodes[j], p.edges[j], p.nodes[j + 1]);
      }
      StretchIsTrail(q, f, p);
      var m := T.Match(T.BindHop(el, 0, row, 0, p).value, p, [|p.edges|]);
      OneHopFits(g, el, row, start, m);
      assert T.Fits(g, el, 0, row, trivial, [], m) && m.path == p;
    }
  }

  /** Binding target and relationship afterwards checks what the search checks. */
  lemma BindIsCheck(g: Graph, el: T.Element, outer: T.Row, row: T.Row, start: Id, p: Path)
    requires T.WellFormed(el) && |el.rels| == 1 && Independent(el, outer, row, |g.edges|)
    requires Shaped(p) && (el.rels[0].length.None? ==> |p.edges| == 1)
    ensures var q := SearchOf(g, el, outer, start);
            && (T.BindHop(el, 0, row, 0, p).Some? && el.nodes[1].test(row, End(p)) ==> q.targetOk(End(p)))
            && (T.BindHop(el, 0, row, 0, p).Some? ==>
                  forall e | e in p.edges :: el.rels[0].test(row, e) == q.edgeOk(e))
            && (q.targetOk(End(p)) && (forall e | e in p.edges :: q.edgeOk(e)) ==> T.BindHop(el, 0, row, 0, p).Some?)
  {
    if el.rels[0].length.None? { assert p.edges == [p.edges[0]] && p.edges[0] in p.edges; }
  }

  // ---- selecting among the paths of several starts ----

  /** pathOrderKey: the edge IDs joined by NUL. */
  function Key(edges: seq<Id>): string {
    if edges == [] then ""
    else if |edges| == 1 then edges[0]
    else edges[0] + "\0" + Key(edges[1..])
  }

  predicate Plain(id: Id) {
    id != "" && '\0' !in id
  }

  lemma {:induction false} SplitAtNul(a: string, s: string, b: string, t: string)
    requires '\0' !in a && '\0' !in b
    requires a + "\0" + s == b + "\0" + t
    ensures a == b && s == t
  {
    var x, y := a + "\0" + s, b + "\0" + t;
    assert x[|a|] == '\0' && y[|b|] == '\0';
    assert x[..|a|] == a && y[..|b|] == b;
    assert x[|a| + 1..] == s && y[|b| + 1..] == t;
  }

  lemma {:induction false} KeyIsInjective(a: seq<Id>, b: seq<Id>)
    requires (forall e | e in a :: Plain(e)) && (forall e | e in b :: Plain(e))
    requires Key(a) == Key(b)
    ensures a == b
  {
    assert a != [] ==> Plain(a[0]);
    assert b != [] ==> Plain(b[0]);
    assert |a| > 1 ==> Key(a)[|a[0]|] == '\0';
    assert |b| > 1 ==> Key(b)[|b[0]|] == '\0';
    if a != [] && b != [] {
      if |a| > 1 && |b| > 1 {
        SplitAtNul(a[0], Key(a[1..]), b[0], Key(b[1..]));
        KeyIsInjective(a[1..], b[1..]);
        assert a == [a[0]] + a[1..] && b == [b[0]] + b[1..];
      }
    }
  }

  /** From one start, the edges determine the walk. */
  lemma {:induction false} EdgesDetermineNodes(q: Search, a: Path, b: Path, i: nat)
    requires IsWalk(q, a) && IsWalk(q, b) && a.edges == b.edges && i <= |a.edges|
    ensures a.nodes[i] == b.nodes[i]
  {
    if i > 0 {
      EdgesDetermineNodes(q, a, b, i - 1);
      assert Hop(q, a.nodes[i - 1], a.edges[i - 1], a.nodes[i - 1 + 1]) && Hop(q, b.nodes[i - 1], b.edges[i - 1], b.nodes[i - 1 + 1]);
    }
  }

  lemma WalkByEdges(q: Search, a: Path, b: Path)
    requires IsWalk(q, a) && IsWalk(q, b) && a.edges == b.edges
    ensures a == b
  {
    forall i | 0 <= i < |a.nodes| ensures a.nodes[i] == b.nodes[i] { EdgesDetermineNodes(q, a, b, i); }
    assert a.nodes == b.nodes;
  }

  function MinLength(paths: seq<Path>): nat
    requires paths != []
  {
    if |paths| == 1 then |paths[0].edges|
    else
      var rest := MinLength(paths[1..]);
      if |paths[0].edges| < rest then |paths[0].edges| else rest
  }

  function OfLength(paths: seq<Path>, n: nat): seq<Path> {
    if paths == [] then []
    else (if |paths[0].edges| == n then [paths[0]] else []) + OfLength(paths[1..], n)
  }

  function Insert(sorted: seq<Path>, p: Path): seq<Path> {
    if sorted == [] then [p]
    else if Less(Key(p.edges), Key(sorted[0].edges)) then [p] + sorted
    else [sorted[0]] + Insert(sorted[1..], p)
  }

  /** sort.SliceStable by order key: equal keys stay in their order. */
  function StableSort(paths: seq<Path>): seq<Path> {
    if paths == [] then [] else Insert(StableSort(paths[..|paths| - 1]), paths[|paths| - 1])
  }

  /** selectShortestPaths: all shortest paths, sorted; the caller takes the first
      one when it wants only one. */
  function Select(paths: seq<Path>): seq<Path> {
    if paths == [] then [] else StableSort(OfLength(paths, MinLength(paths)))
  }

  // ---- a stable sort orders by key, then by start ----

  function IndexOf(starts: seq<Id>, n: Id): nat {
    if starts == [] || starts[0] == n then 0 else 1 + IndexOf(starts[1..], n)
  }

  function Rank(starts: seq<Id>, p: Path): nat {
    if p.nodes == [] then 0 else IndexOf(starts, p.nodes[0])
  }

  predicate Before(starts: seq<Id>, a: Path, b: Path) {
    Less(Key(a.edges), Key(b.edges)) || (Key(a.edges) == Key(b.edges) && Rank(starts, a) < Rank(starts, b))
  }

  ghost predicate Ordered(starts: seq<Id>, paths: seq<Path>) {
    forall i, j | 0 <= i < j < |paths| :: Before(starts, paths[i], paths[j])
  }

  /** Paths of earlier starts come first, and no two share start and edges. */
  ghost predicate Tidy(starts: seq<Id>, paths: seq<Path>) {
    forall i, j | 0 <= i < j < |paths| :: TidyPair(starts, paths[i], paths[j])
  }

  predicate TidyPair(starts: seq<Id>, a: Path, b: Path) {
    Rank(starts, a) <= Rank(starts, b) && (Key(a.edges) == Key(b.edges) ==> Rank(starts, a) != Rank(starts, b))
  }

  lemma BeforeIsTransitive(starts: seq<Id>, a: Path, b: Path, c: Path)
    requires Before(starts, a, b) && Before(starts, b, c)
    ensures Before(starts, a, c)
  {
    var x, y, z := Key(a.edges), Key(b.edges), Key(c.edges);
    CompareEqual(x, y);
    CompareEqual(y, z);
    CompareTransitive(x, y, z);
  }

  lemma BeforeIsStrict(starts: seq<Id>, a: Path, b: Path)
    requires Before(starts, a, b)
    ensures !Before(starts, b, a) && a != b
  {
    CompareFlips(Key(a.edges), Key(b.edges));
    CompareEqual(Key(a.edges), Key(b.edges));
  }

  lemma {:induction false} InsertElements(sorted: seq<Path>, p: Path)
    ensures forall x :: x in Insert(sorted, p) <==> x in sorted || x == p
  {
    if sorted != [] { InsertElements(sorted[1..], p); }
  }

  lemma {:induction false} InsertOrders(starts: seq<Id>, sorted: seq<Path>, p: Path)
    requires Ordered(starts, sorted)
    requires forall x | x in sorted :: Rank(starts, x) <= Rank(starts, p)
    requires forall x | x in sorted :: Key(x.edges) == Key(p.edges) ==> Rank(starts, x) != Rank(starts, p)
    ensures Ordered(starts, Insert(sorted, p))
  {
    if sorted != [] {
      if Less(Key(p.edges), Key(sorted[0].edges)) {
        forall j | 0 <= j < |sorted| ensures Before(starts, p, sorted[j]) {
          if j > 0 { BeforeIsTransitive(starts, p, sorted[0], sorted[j]); }
        }
        ConsOrdered(starts, p, sorted);
      } else {
        InsertOrders(starts, sorted[1..], p);
        InsertElements(sorted[1..], p);
        CompareEqual(Key(p.edges), Key(sorted[0].edges));
        CompareFlips(Key(p.edges), Key(sorted[0].edges));
        assert Before(starts, sorted[0], p);
        ConsOrdered(starts, sorted[0], Insert(sorted[1..], p));
      }
    }
  }

  lemma ConsOrdered(starts: seq<Id>, p: Path, rest: seq<Path>)
    requires Ordered(starts, rest) && forall x | x in rest :: Before(starts, p, x)
    ensures Ordered(starts, [p] + rest)
  {
    var all := [p] + rest;
    forall i, j | 0 <= i < j < |all| ensures Before(starts, all[i], all[j]) {
      if i == 0 { assert rest[j - 1] in rest; } else { assert Before(starts, rest[i - 1], rest[j - 1]); }
    }
  }

  lemma {:induction false} StableSortOrders(starts: seq<Id>, paths: seq<Path>)
    requires Tidy(starts, paths)
    ensures Ordered(starts, StableSort(paths))
    ensures forall x :: x in StableSort(paths) <==> x in paths
  {
    if paths != [] {
      var rest, p := paths[..|paths| - 1], paths[|paths| - 1];
      StableSortOrders(starts, rest);
      InsertElements(StableSort(rest), p);
      assert paths == rest + [p];
      forall x | x in rest ensures TidyPair(starts, x, p) {
        var i :| 0 <= i < |rest| && rest[i] == x;
        assert TidyPair(starts, paths[i], paths[|paths| - 1]);
      }
      InsertOrders(starts, StableSort(rest), p);
    }
  }

  lemma {:induction false} OrderedIsUnique(starts: seq<Id>, a: seq<Path>, b: seq<Path>)
    requires Ordered(starts, a) && Ordered(starts, b) && forall x :: x in a <==> x in b
    ensures a == b
  {
    assert a != [] ==> a[0] in a;
    assert b != [] ==> b[0] in b;
    if a != [] && b != [] {
      assert a[0] in b && b[0] in a;
      if a[0] != b[0] {
        BeforeIsStrict(starts, a[0], b[0]);
      }
      forall x ensures x in a[1..] <==> x in b[1..] {
        HeadOnce(starts, a, x);
        HeadOnce(starts, b, x);
      }
      OrderedIsUnique(starts, a[1..], b[1..]);
    }
  }

  lemma HeadOnce(starts: seq<Id>, a: seq<Path>, x: Path)
    requires a != [] && Ordered(starts, a)
    ensures x in a[1..] <==> x in a && x != a[0]
  {
    if x in a[1..] {
      var j :| 0 <= j < |a[1..]| && a[1..][j] == x;
      BeforeIsStrict(starts, a[0], a[j + 1]);
    }
  }

  /** Two lists grouped by start with the same elements sort to the same list. */
  lemma SameSelection(starts: seq<Id>, a: seq<Path>, b: seq<Path>)
    requires Tidy(starts, a) && Tidy(starts, b)
    requires forall x :: x in a <==> x in b
    ensures StableSort(a) == StableSort(b)
  {
    StableSortOrders(starts, a);
    StableSortOrders(starts, b);
    OrderedIsUnique(starts, StableSort(a), StableSort(b));
  }

  // ---- all starts ----

  function Concat(lists: seq<seq<Path>>): seq<Path> {
    if lists == [] then [] else Concat(lists[..|lists| - 1]) + lists[|lists| - 1]
  }

  lemma {:induction false} ConcatHolds(lists: seq<seq<Path>>, x: Path)
    ensures x in Concat(lists) <==> exists i :: 0 <= i < |lists| && x in lists[i]
  {
    if lists != [] {
      ConcatHolds(lists[..|lists| - 1], x);
      if i :| 0 <= i < |lists| && x in lists[i] {
        if i < |lists| - 1 { assert x in lists[..|lists| - 1][i]; }
      }
    }
  }

  lemma {:induction false} IndexIsOwn(starts: seq<Id>, i: nat)
    requires NoDup(starts) && i < |starts|
    ensures IndexOf(starts, starts[i]) == i
  {
    if i > 0 {
      assert starts[0] != starts[i];
      assert starts[1..][i - 1] == starts[i];
      IndexIsOwn(starts[1..], i - 1);
    }
  }

  /** Walks of one start after another, each list without repeats. */
  ghost predicate FromStarts(g: Graph, d: Direction, starts: seq<Id>, lists: seq<seq<Path>>) {
    && |lists| <= |starts| && NoDup(starts)
    && (forall i | 0 <= i < |lists| :: NoDup(lists[i]))
    && (forall i, p | 0 <= i < |lists| && p in lists[i] :: IsWalkFrom(g, d, starts[i], p))
  }

  function Loose(g: Graph, start: Id, d: Direction): Search {
    Search(g, start, d, e => true, n => true)
  }

  ghost predicate IsWalkFrom(g: Graph, d: Direction, start: Id, p: Path) {
    IsWalk(Loose(g, start, d), p) && forall e | e in p.edges :: Plain(e)
  }

  lemma SameStartTidy(g: Graph, d: Direction, starts: seq<Id>, i: nat, a: Path, b: Path)
    requires NoDup(starts) && i < |starts| && IsWalkFrom(g, d, starts[i], a) && IsWalkFrom(g, d, starts[i], b) && a != b
    ensures Rank(starts, a) == Rank(starts, b) == i && Key(a.edges) != Key(b.edges)
  {
    IndexIsOwn(starts, i);
    if Key(a.edges) == Key(b.edges) {
      KeyIsInjective(a.edges, b.edges);
      WalkByEdges(Loose(g, starts[i], d), a, b);
    }
  }

  lemma {:induction false} ConcatIsTidy(g: Graph, d: Direction, starts: seq<Id>, lists: seq<seq<Path>>)
    requires FromStarts(g, d, starts, lists)
    ensures Tidy(starts, Concat(lists))
  {
    if lists != [] {
      var n := |lists| - 1;
      var rest, last := lists[..n], lists[n];
      ConcatIsTidy(g, d, starts, rest);
      forall i, j | 0 <= i < j < |last| ensures TidyPair(starts, last[i], last[j]) {
        SameStartTidy(g, d, starts, n, last[i], last[j]);
      }
      forall x, y | x in Concat(rest) && y in last ensures TidyPair(starts, x, y) {
        ConcatHolds(rest, x);
        var i :| 0 <= i < |rest| && x in rest[i];
        assert x in lists[i];
        IndexIsOwn(starts, i);
        IndexIsOwn(starts, n);
        assert IsWalkFrom(g, d, starts[i], x) && IsWalkFrom(g, d, starts[n], y);
      }
      TidyAppend(starts, Concat(rest), last);
    }
  }

  lemma TidyAppend(starts: seq<Id>, a: seq<Path>, b: seq<Path>)
    requires Tidy(starts, a) && Tidy(starts, b) && forall x, y | x in a && y in b :: TidyPair(starts, x, y)
    ensures Tidy(starts, a + b)
  {
    forall i, j | 0 <= i < j < |a + b| ensures TidyPair(starts, (a + b)[i], (a + b)[j]) {
      if i < |a| <= j { assert a[i] in a && b[j - |a|] in b; }
    }
  }

  lemma {:induction false} OfLengthHolds(starts: seq<Id>, paths: seq<Path>, n: nat)
    ensures forall x :: x in OfLength(paths, n) <==> x in paths && |x.edges| == n
    ensures Tidy(starts, paths) ==> Tidy(starts, OfLength(paths, n))
  {
    if paths != [] {
      OfLengthHolds(starts, paths[1..], n);
      if Tidy(starts, paths) {
        forall x | x in paths[1..] ensures TidyPair(starts, paths[0], x) {
          var j :| 0 <= j < |paths[1..]| && paths[1..][j] == x;
          assert TidyPair(starts, paths[0], paths[j + 1]);
        }
        TidyTail(starts, paths);
        if |paths[0].edges| == n { TidyAppend(starts, [paths[0]], OfLength(paths[1..], n)); }
      }
    }
  }

  lemma TidyTail(starts: seq<Id>, paths: seq<Path>)
    requires paths != [] && Tidy(starts, paths)
    ensures Tidy(starts, paths[1..])
  {
  }

  lemma {:induction false} MinLengthHolds(paths: seq<Path>)
    requires paths != []
    ensures forall x | x in paths :: MinLength(paths) <= |x.edges|
    ensures exists x :: x in paths && |x.edges| == MinLength(paths)
  {
    if |paths| == 1 {
      assert paths[0] in paths;
    } else {
      MinLengthHolds(paths[1..]);
      assert paths == [paths[0]] + paths[1..];
      assert paths[0] in paths;
    }
  }

  /** Among the paths from all starts, keeping only each start's shortest ones
      loses none of the overall shortest: the selection is the same list. */
  lemma SelectionsAgree(g: Graph, d: Direction, starts: seq<Id>, all: seq<seq<Path>>, shortest: seq<seq<Path>>)
    requires FromStarts(g, d, starts, all) && FromStarts(g, d, starts, shortest) && |all| == |shortest|
    requires forall i, p | 0 <= i < |all| :: p in shortest[i] <==> IsShortestOf(all[i], p)
    ensures Select(Concat(all)) == Select(Concat(shortest))
  {
    var a, b := Concat(all), Concat(shortest);
    ConcatIsTidy(g, d, starts, all);
    ConcatIsTidy(g, d, starts, shortest);
    forall p ensures p in b ==> p in a { ConcatHolds(all, p); ConcatHolds(shortest, p); }
    assert b != [] ==> b[0] in b;
    if a != [] {
      MinLengthHolds(a);
      var n := MinLength(a);
      forall p | p in a && |p.edges| == n ensures p in b {
        ConcatHolds(all, p);
        ConcatHolds(shortest, p);
        var i :| 0 <= i < |all| && p in all[i];
        forall r | r in all[i] ensures |p.edges| <= |r.edges| { ConcatHolds(all, r); }
        assert IsShortestOf(all[i], p);
      }
      var least :| least in a && |least.edges| == n;
      assert least in b;
      MinLengthHolds(b);
      OfLengthHolds(starts, a, n);
      OfLengthHolds(starts, b, n);
      SameSelection(starts, OfLength(a, n), OfLength(b, n));
    }
  }

  ghost predicate IsShortestOf(paths: seq<Path>, p: Path) {
    p in paths && forall r | r in paths :: |p.edges| <= |r.edges|
  }
}
