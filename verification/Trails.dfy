/** extendPattern: the depth-first enumeration of all ways to continue a partial
    match of a path pattern, and what exactly it enumerates. */
module Trails {
  import opened Base
  import opened Sorted
  import opened MatchGraph
  import opened Walks

  // ---- rows and patterns ----

  datatype Value =
    | Null
    | NodeRef(node: Id)
    | EdgeRef(edge: Id)
    | PathRef(path: Path)
    | List(items: seq<Value>)
    | Other(code: int)

  type Row = map<string, Value>

  /** bindValue: the row with the binding, or None if the name is bound otherwise. */
  function Bind(row: Row, name: string, value: Value): Option<Row> {
    if name == "" then Some(row)
    else if name !in row then Some(row[name := value])
    else if row[name] == value then Some(row)
    else None
  }

  datatype NodePattern = NodePattern(variable: string, test: (Row, Id) -> bool)
  datatype Length = Length(lower: Option<Row -> nat>, upper: Option<Row -> nat>, exact: bool)
  datatype RelPattern = RelPattern(variable: string, direction: Direction, length: Option<Length>, test: (Row, Id) -> bool)
  datatype Element = Element(nodes: seq<NodePattern>, rels: seq<RelPattern>)

  predicate WellFormed(el: Element) {
    |el.nodes| == |el.rels| + 1
  }

  /** relationshipBounds: without a length exactly one edge; the default upper
      bound of a variable length is the number of edges of the graph. */
  function Bounds(rel: RelPattern, row: Row, edgeCount: nat): (nat, nat) {
    if rel.length.None? then (1, 1)
    else
      var length := rel.length.value;
      var lower := if length.lower.Some? then length.lower.value(row) else 1;
      var upper := if length.upper.Some? then length.upper.value(row)
                   else if length.lower.Some? && length.exact then lower
                   else edgeCount;
      (lower, upper)
  }

  function EdgeList(edges: seq<Id>): seq<Value> {
    if edges == [] then [] else [EdgeRef(edges[0])] + EdgeList(edges[1..])
  }

  function RelValue(rel: RelPattern, base: nat, path: Path): Value
    requires base <= |path.edges|
  {
    if rel.length.Some? then List(EdgeList(path.edges[base..]))
    else if |path.edges| > 0 then EdgeRef(path.edges[|path.edges| - 1])
    else Null
  }

  /** The row after relationship i and its target have been bound. */
  function BindHop(el: Element, i: nat, row: Row, base: nat, path: Path): Option<Row>
    requires WellFormed(el) && i < |el.rels| && Shaped(path) && base <= |path.edges|
  {
    var target := Bind(row, el.nodes[i + 1].variable, NodeRef(End(path)));
    if target.None? then None else Bind(target.value, el.rels[i].variable, RelValue(el.rels[i], base, path))
  }

  // ---- the enumeration ----

  /** A complete match: the row and the path the program keeps, and where in the
      path each relationship of the pattern ends. */
  datatype Match = Match(row: Row, path: Path, cuts: seq<nat>)

  /** One call of the inner walk: everything but the path and the row is fixed. */
  datatype Frame = Frame(g: Graph, el: Element, i: nat, base: nat, lo: nat, hi: nat, row: Row, cuts: seq<nat>)

  ghost predicate ValidFrame(f: Frame) {
    WellFormed(f.el) && f.i < |f.el.rels| && |f.cuts| == f.i
  }

  function Unused(g: Graph, path: Path): nat {
    |g.edges.Keys - (set e | e in path.edges)|
  }

  predicate Admits(f: Frame, path: Path, x: Adjacent)
    requires f.i < |f.el.rels|
  {
    x.edge !in path.edges && f.el.rels[f.i].test(f.row, x.edge) && x.next in f.g.nodes
  }

  lemma UnusedShrinks(g: Graph, path: Path, e: Id, n: Id)
    requires e in g.edges && e !in path.edges
    ensures Unused(g, Extend(path, e, n)) < Unused(g, path)
  {
    var a, b := g.edges.Keys - (set x | x in Extend(path, e, n).edges), g.edges.Keys - (set x | x in path.edges);
    assert e in b && e !in a;
    assert a + {e} <= b;
    SubsetSize(a, b - {e});
  }

  ghost function Continue(g: Graph, el: Element, i: nat, row: Row, path: Path, cuts: seq<nat>): seq<Match>
    requires WellFormed(el) && i <= |el.rels| && |cuts| == i && Shaped(path)
    decreases |el.rels| - i, Unused(g, path), 2, 0
  {
    if i >= |el.rels| then [Match(row, path, cuts)]
    else
      var (lo, hi) := Bounds(el.rels[i], row, |g.edges|);
      Walk(Frame(g, el, i, |path.edges|, lo, hi, row, cuts), path)
  }

  ghost function Walk(f: Frame, path: Path): seq<Match>
    requires ValidFrame(f) && Shaped(path) && f.base <= |path.edges|
    decreases |f.el.rels| - f.i, Unused(f.g, path), 1, 0
  {
    var depth := |path.edges| - f.base;
    (if depth >= f.lo then Stop(f, path) else [])
    + (if depth == f.hi then []
       else Each(f, path, AdjacentEdges(f.g, End(path), f.el.rels[f.i].direction)))
  }

  /** Ending relationship i here. */
  ghost function Stop(f: Frame, path: Path): seq<Match>
    requires ValidFrame(f) && Shaped(path) && f.base <= |path.edges|
    decreases |f.el.rels| - f.i, Unused(f.g, path), 0, 0
  {
    if !f.el.nodes[f.i + 1].test(f.row, End(path)) then []
    else
      var next := BindHop(f.el, f.i, f.row, f.base, path);
      if next.None? then [] else Continue(f.g, f.el, f.i + 1, next.value, path, f.cuts + [|path.edges|])
  }

  /** Continuing relationship i over each of the given edges. */
  ghost function Each(f: Frame, path: Path, adjacent: seq<Adjacent>): seq<Match>
    requires ValidFrame(f) && Shaped(path) && f.base <= |path.edges|
    requires forall x | x in adjacent :: x.edge in f.g.edges
    decreases |f.el.rels| - f.i, Unused(f.g, path), 0, |adjacent|
  {
    if adjacent == [] then []
    else
      var x, before := adjacent[|adjacent| - 1], Each(f, path, adjacent[..|adjacent| - 1]);
      if Admits(f, path, x) then
        UnusedShrinks(f.g, path, x.edge, x.next);
        before + Walk(f, Extend(path, x.edge, x.next))
      else before
  }

  // ---- what is enumerated ----

  /** Edges [from, to) of the path are admitted by the frame's relationship: each
      joins its nodes, passes the test, stays in the graph and is used only once. */
  ghost predicate Stretch(f: Frame, path: Path, from: nat, to: nat)
    requires f.i < |f.el.rels| && Shaped(path)
  {
    forall j | from <= j < to && j < |path.edges| :: Admitted(f, path, j)
  }

  ghost predicate Admitted(f: Frame, path: Path, j: nat)
    requires f.i < |f.el.rels| && Shaped(path) && j < |path.edges|
  {
    && path.edges[j] in f.g.edges
    && Connects(f.g.edges[path.edges[j]], f.el.rels[f.i].direction, path.nodes[j], path.nodes[j + 1])
    && path.edges[j] !in path.edges[..j]
    && f.el.rels[f.i].test(f.row, path.edges[j])
    && path.nodes[j + 1] in f.g.nodes
  }

  ghost predicate Begins(path: Path, m: Path) {
    Shaped(m) && Shaped(path) && |path.edges| <= |m.edges| && Prefix(m, |path.edges|) == path
  }

  /** m continues a partial match: each remaining relationship takes a stretch of
      admitted edges of a length within its bounds, its target passes the target's
      test, and all names bind consistently. */
  ghost predicate Fits(g: Graph, el: Element, i: nat, row: Row, path: Path, cuts: seq<nat>, m: Match)
    requires WellFormed(el) && i <= |el.rels| && |cuts| == i && Shaped(path)
    decreases |el.rels| - i, 2
  {
    if i == |el.rels| then m == Match(row, path, cuts)
    else
      var (lo, hi) := Bounds(el.rels[i], row, |g.edges|);
      FitsFrom(Frame(g, el, i, |path.edges|, lo, hi, row, cuts), path, m)
  }

  ghost predicate FitsFrom(f: Frame, path: Path, m: Match)
    requires ValidFrame(f) && Shaped(path) && f.base <= |path.edges|
    decreases |f.el.rels| - f.i, 1
  {
    && |m.cuts| == |f.el.rels| && m.cuts[..f.i] == f.cuts
    && Begins(path, m.path) && |path.edges| <= m.cuts[f.i] <= |m.path.edges|
    && f.lo <= m.cuts[f.i] - f.base <= f.hi
    && Stretch(f, m.path, |path.edges|, m.cuts[f.i])
    && FitsStop(f, Prefix(m.path, m.cuts[f.i]), m)
  }

  ghost predicate FitsStop(f: Frame, path: Path, m: Match)
    requires ValidFrame(f) && Shaped(path) && f.base <= |path.edges|
    decreases |f.el.rels| - f.i, 0
  {
    && f.el.nodes[f.i + 1].test(f.row, End(path))
    && var next := BindHop(f.el, f.i, f.row, f.base, path);
       next.Some? && Fits(f.g, f.el, f.i + 1, next.value, path, f.cuts + [|path.edges|], m)
  }

  lemma {:induction false} ContinueIsExact(g: Graph, el: Element, i: nat, row: Row, path: Path, cuts: seq<nat>)
    requires WellFormed(el) && i <= |el.rels| && |cuts| == i && Shaped(path)
    ensures forall m :: m in Continue(g, el, i, row, path, cuts) <==> Fits(g, el, i, row, path, cuts, m)
    ensures NoDup(Continue(g, el, i, row, path, cuts))
    decreases |el.rels| - i, Unused(g, path), 2, 0
  {
    if i < |el.rels| {
      var (lo, hi) := Bounds(el.rels[i], row, |g.edges|);
      WalkIsExact(Frame(g, el, i, |path.edges|, lo, hi, row, cuts), path);
    }
  }

  lemma {:induction false} StopIsExact(f: Frame, path: Path)
    requires ValidFrame(f) && Shaped(path) && f.base <= |path.edges|
    ensures forall m :: m in Stop(f, path) <==> FitsStop(f, path, m)
    ensures NoDup(Stop(f, path))
    decreases |f.el.rels| - f.i, Unused(f.g, path), 0, 0
  {
    var next := BindHop(f.el, f.i, f.row, f.base, path);
    if next.Some? { ContinueIsExact(f.g, f.el, f.i + 1, next.value, path, f.cuts + [|path.edges|]); }
  }

  /** m goes on from path over one of the given edges. */
  ghost predicate FitsEach(f: Frame, path: Path, adjacent: seq<Adjacent>, m: Match)
    requires ValidFrame(f) && Shaped(path) && f.base <= |path.edges|
  {
    exists x :: x in adjacent && Admits(f, path, x) && FitsFrom(f, Extend(path, x.edge, x.next), m)
  }

  lemma {:induction false} EachIsExact(f: Frame, path: Path, adjacent: seq<Adjacent>)
    requires ValidFrame(f) && Shaped(path) && f.base <= |path.edges| && |path.edges| - f.base < f.hi
    requires forall x | x in adjacent :: x.edge in f.g.edges
    requires forall i, j | 0 <= i < j < |adjacent| :: adjacent[i].edge != adjacent[j].edge
    ensures forall m :: m in Each(f, path, adjacent) <==> FitsEach(f, path, adjacent, m)
    ensures NoDup(Each(f, path, adjacent))
    decreases |f.el.rels| - f.i, Unused(f.g, path), 0, |adjacent|
  {
    if adjacent != [] {
      var rest, x := adjacent[..|adjacent| - 1], adjacent[|adjacent| - 1];
      EachIsExact(f, path, rest);
      assert adjacent == rest + [x];
      if Admits(f, path, x) {
        var longer := Extend(path, x.edge, x.next);
        UnusedShrinks(f.g, path, x.edge, x.next);
        WalkIsExact(f, longer);
        forall m | m in Each(f, path, rest) ensures m !in Walk(f, longer) {
          var y :| y in rest && Admits(f, path, y) && FitsFrom(f, Extend(path, y.edge, y.next), m);
          if FitsFrom(f, longer, m) {
            BeginsOnce(path, x.edge, x.next, y.edge, y.next, m.path);
          }
        }
        AppendNoDup(Each(f, path, rest), Walk(f, longer));
      }
      hide Each, FitsFrom, Walk, Admits;
    }
  }

  lemma BeginsOnce(path: Path, e: Id, n: Id, e': Id, n': Id, m: Path)
    requires Shaped(path) && Begins(Extend(path, e, n), m) && Begins(Extend(path, e', n'), m)
    ensures e == e' && n == n'
  {
    var k := |path.edges|;
    assert Prefix(m, k + 1).edges[k] == Extend(path, e, n).edges[k];
    assert Prefix(m, k + 1).edges[k] == Extend(path, e', n').edges[k];
    assert Prefix(m, k + 1).nodes[k + 1] == Extend(path, e, n).nodes[k + 1];
    assert Prefix(m, k + 1).nodes[k + 1] == Extend(path, e', n').nodes[k + 1];
  }

  /** A match that goes on has a next edge among the adjacent ones, and vice versa. */
  lemma StepOut(f: Frame, path: Path, m: Match)
    requires ValidFrame(f) && Shaped(path) && f.base <= |path.edges| && |path.edges| - f.base <= f.hi
    requires FitsFrom(f, path, m) && m.cuts[f.i] > |path.edges|
    ensures |path.edges| - f.base < f.hi
    ensures FitsEach(f, path, AdjacentEdges(f.g, End(path), f.el.rels[f.i].direction), m)
  {
    var k := |path.edges|;
    var x := Adjacent(m.path.edges[k], m.path.nodes[k + 1]);
    assert Admitted(f, m.path, k);
    assert Prefix(m.path, k).nodes[k] == m.path.nodes[k];
    AdjacentConnects(f.g, End(path), f.el.rels[f.i].direction, x.edge, x.next);
    assert Prefix(m.path, k + 1) == Extend(path, x.edge, x.next);
    assert m.path.edges[..k] == path.edges;
    assert FitsFrom(f, Extend(path, x.edge, x.next), m);
  }

  lemma StepIn(f: Frame, path: Path, x: Adjacent, m: Match)
    requires ValidFrame(f) && Shaped(path) && f.base <= |path.edges|
    requires x in AdjacentEdges(f.g, End(path), f.el.rels[f.i].direction) && Admits(f, path, x)
    requires FitsFrom(f, Extend(path, x.edge, x.next), m)
    ensures FitsFrom(f, path, m) && m.cuts[f.i] > |path.edges|
  {
    var k := |path.edges|;
    AdjacentConnects(f.g, End(path), f.el.rels[f.i].direction, x.edge, x.next);
    var longer := Extend(path, x.edge, x.next);
    assert Prefix(m.path, k + 1) == longer;
    assert Prefix(m.path, k) == Prefix(longer, k) == path;
    assert m.path.edges[k] == longer.edges[k] && m.path.nodes[k] == longer.nodes[k] && m.path.nodes[k + 1] == longer.nodes[k + 1];
    assert m.path.edges[..k] == path.edges;
    assert Admitted(f, m.path, k);
  }

  lemma StopsHere(f: Frame, path: Path, m: Match)
    requires ValidFrame(f) && Shaped(path) && f.base <= |path.edges| && f.lo <= |path.edges| - f.base <= f.hi
    ensures FitsStop(f, path, m) <==> FitsFrom(f, path, m) && m.cuts[f.i] == |path.edges|
  {
    if FitsStop(f, path, m) {
      var next := BindHop(f.el, f.i, f.row, f.base, path).value;
      FitsKeepsStart(f.g, f.el, f.i + 1, next, path, f.cuts + [|path.edges|], m);
      assert Prefix(m.path, |path.edges|) == path;
      assert m.cuts[..f.i] == m.cuts[..f.i + 1][..f.i] == f.cuts;
    }
  }

  lemma {:induction false} FitsKeepsStart(g: Graph, el: Element, i: nat, row: Row, path: Path, cuts: seq<nat>, m: Match)
    requires WellFormed(el) && i <= |el.rels| && |cuts| == i && Shaped(path) && Fits(g, el, i, row, path, cuts, m)
    ensures |m.cuts| == |el.rels| && m.cuts[..i] == cuts && Begins(path, m.path)
  {
    if i == |el.rels| { assert Prefix(path, |path.edges|) == path; }
  }

  lemma {:induction false} WalkIsExact(f: Frame, path: Path)
    requires ValidFrame(f) && Shaped(path) && f.base <= |path.edges| && |path.edges| - f.base <= f.hi
    ensures forall m :: m in Walk(f, path) <==> FitsFrom(f, path, m)
    ensures NoDup(Walk(f, path))
    decreases |f.el.rels| - f.i, Unused(f.g, path), 1, 0
  {
    var depth := |path.edges| - f.base;
    var adjacent := AdjacentEdges(f.g, End(path), f.el.rels[f.i].direction);
    var here := if depth >= f.lo then Stop(f, path) else [];
    var beyond := if depth == f.hi then [] else Each(f, path, adjacent);
    assert Walk(f, path) == here + beyond;
    StopIsExact(f, path);
    if depth != f.hi {
      forall i, j | 0 <= i < j < |adjacent| ensures adjacent[i].edge != adjacent[j].edge {
        AdjacentOnce(f.g, End(path), f.el.rels[f.i].direction, i, j);
      }
      EachIsExact(f, path, adjacent);
    }
    hide Walk, Stop, Each, AdjacentEdges;
    forall m ensures m in here <==> FitsFrom(f, path, m) && m.cuts[f.i] == |path.edges| {
      if depth >= f.lo { StopsHere(f, path, m); }
    }
    forall m ensures m in beyond <==> FitsFrom(f, path, m) && m.cuts[f.i] > |path.edges| {
      if FitsFrom(f, path, m) && m.cuts[f.i] > |path.edges| { StepOut(f, path, m); }
      if depth != f.hi && FitsEach(f, path, adjacent, m) {
        var x :| x in adjacent && Admits(f, path, x) && FitsFrom(f, Extend(path, x.edge, x.next), m);
        StepIn(f, path, x, m);
      }
    }
    AppendNoDup(here, beyond);
  }

  // ---- consequences ----

  /** No match uses a relationship twice, whatever the pattern. */
  lemma {:induction false} MatchIsTrail(g: Graph, el: Element, i: nat, row: Row, path: Path, cuts: seq<nat>, m: Match)
    requires WellFormed(el) && i <= |el.rels| && |cuts| == i && Shaped(path) && NoDup(path.edges)
    requires Fits(g, el, i, row, path, cuts, m)
    ensures NoDup(m.path.edges)
    decreases |el.rels| - i
  {
    if i < |el.rels| {
      var (lo, hi) := Bounds(el.rels[i], row, |g.edges|);
      var f := Frame(g, el, i, |path.edges|, lo, hi, row, cuts);
      var longer := Prefix(m.path, m.cuts[i]);
      assert FitsFrom(f, path, m);
      assert FitsStop(f, longer, m);
      assert m.path.edges[..|path.edges|] == path.edges;
      StretchIsTrail(f, m.path, |path.edges|, m.cuts[i]);
      MatchIsTrail(g, el, i + 1, BindHop(el, i, row, f.base, longer).value, longer, cuts + [|longer.edges|], m);
    }
  }

  lemma StretchIsTrail(f: Frame, path: Path, from: nat, to: nat)
    requires f.i < |f.el.rels| && Shaped(path) && from <= to <= |path.edges|
    requires Stretch(f, path, from, to) && NoDup(path.edges[..from])
    ensures NoDup(path.edges[..to])
  {
    forall x, y | 0 <= x < y < to ensures path.edges[x] != path.edges[y] {
      if y >= from {
        assert Admitted(f, path, y);
        assert path.edges[x] in path.edges[..y];
      } else {
        assert path.edges[..from][x] != path.edges[..from][y];
      }
    }
  }

  lemma {:induction false} NoDupCount<T>(s: seq<T>, all: set<T>)
    requires NoDup(s) && forall x | x in s :: x in all
    ensures |s| <= |all|
  {
    if s != [] {
      assert s[0] !in s[1..];
      NoDupCount(s[1..], all - {s[0]});
    }
  }

  /** A stretch of admitted edges is never longer than the graph has edges. */
  lemma StretchIsShort(f: Frame, path: Path, from: nat, to: nat)
    requires f.i < |f.el.rels| && Shaped(path) && from <= to <= |path.edges| && Stretch(f, path, from, to)
    ensures to - from <= |f.g.edges|
  {
    var s := path.edges[from..to];
    forall x, y | 0 <= x < y < |s| ensures s[x] != s[y] {
      assert Admitted(f, path, from + y);
      assert path.edges[from + x] in path.edges[..from + y];
    }
    forall x | x in s ensures x in f.g.edges.Keys {
      var j :| 0 <= j < |s| && s[j] == x;
      assert Admitted(f, path, from + j);
    }
    NoDupCount(s, f.g.edges.Keys);
  }

  /** The default upper bound of a variable length loses no match: any larger
      bound admits the same ones. */
  lemma DefaultBoundLosesNothing(f: Frame, path: Path, hi: nat, m: Match)
    requires ValidFrame(f) && Shaped(path) && f.base == |path.edges|
    requires f.hi == |f.g.edges| && hi >= f.hi
    ensures FitsFrom(f.(hi := hi), path, m) <==> FitsFrom(f, path, m)
  {
    var wide := f.(hi := hi);
    if FitsFrom(wide, path, m) {
      StretchIsShort(wide, m.path, |path.edges|, m.cuts[f.i]);
      forall j | |path.edges| <= j < m.cuts[f.i] && j < |m.path.edges| ensures Admitted(f, m.path, j) {
        assert Admitted(wide, m.path, j);
      }
    }
    if FitsFrom(f, path, m) {
      forall j | |path.edges| <= j < m.cuts[f.i] && j < |m.path.edges| ensures Admitted(wide, m.path, j) {
        assert Admitted(f, m.path, j);
      }
    }
  }

  // ---- the program ----

  /** What the program keeps of a match. */
  datatype Kept = Kept(row: Row, path: Path)

  ghost function Keep(matches: seq<Match>): seq<Kept> {
    if matches == [] then [] else Keep(matches[..|matches| - 1]) + [Kept(matches[|matches| - 1].row, matches[|matches| - 1].path)]
  }

  lemma {:induction false} KeepAppend(a: seq<Match>, b: seq<Match>)
    ensures Keep(a + b) == Keep(a) + Keep(b)
  {
    if b == [] {
      assert a + b == a;
    } else {
      assert (a + b)[..|a + b| - 1] == a + b[..|b| - 1];
      KeepAppend(a, b[..|b| - 1]);
    }
  }

  method ExtendPattern(g: Graph, el: Element, i: nat, row: Row, path: Path,
          ghost cuts: seq<nat>) returns (matches: seq<Kept>)
    requires WellFormed(el) && i <= |el.rels| && |cuts| == i && Shaped(path)
    ensures matches == Keep(Continue(g, el, i, row, path, cuts))
    decreases |el.rels| - i, Unused(g, path), 2
  {
    if i >= |el.rels| { return [Kept(row, path)]; }
    var (minimum, maximum) := Bounds(el.rels[i], row, |g.edges|);
    var used := set e | e in path.edges;
    matches := WalkFrom(Frame(g, el, i, |path.edges|, minimum, maximum, row, []), cuts, path, used);
  }

  lemma EachOneMore(f: Frame, path: Path, adjacent: seq<Adjacent>, j: nat)
    requires ValidFrame(f) && Shaped(path) && f.base <= |path.edges| && j < |adjacent|
    requires forall x | x in adjacent :: x.edge in f.g.edges
    ensures Each(f, path, adjacent[..j + 1]) ==
            if Admits(f, path, adjacent[j])
            then Each(f, path, adjacent[..j]) + Walk(f, Extend(path, adjacent[j].edge, adjacent[j].next))
            else Each(f, path, adjacent[..j])
  {
    assert adjacent[..j + 1][..j] == adjacent[..j];
  }

  /** The part of the closure that may end the relationship at this node. */
  method StopAt(f: Frame, ghost cuts: seq<nat>, path: Path) returns (matches: seq<Kept>)
    requires WellFormed(f.el) && f.i < |f.el.rels| && |cuts| == f.i && Shaped(path) && f.base <= |path.edges|
    ensures matches == Keep(Stop(f.(cuts := cuts), path))
    decreases |f.el.rels| - f.i, Unused(f.g, path), 0
  {
    matches := [];
    if f.el.nodes[f.i + 1].test(f.row, End(path)) {
      var next := BindHop(f.el, f.i, f.row, f.base, path);
      if next.Some? {
        matches := ExtendPattern(f.g, f.el, f.i + 1, next.value, path, cuts + [|path.edges|]);
      }
    }
  }

  /** The recursive closure of extendPattern. */
  method WalkFrom(f: Frame, ghost cuts: seq<nat>, path: Path, used: set<Id>) returns (matches: seq<Kept>)
    requires WellFormed(f.el) && f.i < |f.el.rels| && |cuts| == f.i && Shaped(path) && f.base <= |path.edges|
    requires used == set e | e in path.edges
    ensures matches == Keep(Walk(f.(cuts := cuts), path))
    decreases |f.el.rels| - f.i, Unused(f.g, path), 1
  {
    hide Continue, Stop, Each;
    ghost var ff := f.(cuts := cuts);
    var depth := |path.edges| - f.base;
    matches := [];
    if depth >= f.lo { matches := StopAt(f, cuts, path); }
    if depth == f.hi {
      assert matches + [] == matches;
      KeepAppend(if depth >= f.lo then Stop(ff, path) else [], []);
      return;
    }
    var beyond := Beyond(f, cuts, path, used);
    KeepAppend(if depth >= f.lo then Stop(ff, path) else [],
               Each(ff, path, AdjacentEdges(f.g, End(path), f.el.rels[f.i].direction)));
    matches := matches + beyond;
  }

  lemma OneLonger(path: Path, e: Id, n: Id, used: set<Id>)
    requires Shaped(path) && used == set x | x in path.edges
    ensures var longer := Extend(path, e, n);
            Shaped(longer) && |longer.edges| == |path.edges| + 1 && used + {e} == set x | x in longer.edges
  {
  }

  /** Its loop over the edges at this node. */
  method Beyond(f: Frame, ghost cuts: seq<nat>, path: Path, used: set<Id>) returns (matches: seq<Kept>)
    requires WellFormed(f.el) && f.i < |f.el.rels| && |cuts| == f.i && Shaped(path) && f.base <= |path.edges|
    requires used == set e | e in path.edges
    ensures matches == Keep(Each(f.(cuts := cuts), path, AdjacentEdges(f.g, End(path), f.el.rels[f.i].direction)))
    decreases |f.el.rels| - f.i, Unused(f.g, path), 0
  {
    matches := [];
    ghost var ff := f.(cuts := cuts);
    var adjacent := AdjacentEdges(f.g, End(path), f.el.rels[f.i].direction);
    assert Each(ff, path, []) == [];
    assert forall x | x in adjacent :: x.edge in f.g.edges;
    hide Continue, Stop, Each, Walk, AdjacentEdges, Unused, Extend, Keep;
    for j := 0 to |adjacent|
      invariant matches == Keep(Each(ff, path, adjacent[..j]))
    {
      var x := adjacent[j];
      EachOneMore(ff, path, adjacent, j);
      if x.edge !in used && f.el.rels[f.i].test(f.row, x.edge) && x.next in f.g.nodes {
        UnusedShrinks(f.g, path, x.edge, x.next);
        var longer := Extend(path, x.edge, x.next);
        OneLonger(path, x.edge, x.next, used);
        var more := WalkFrom(f, cuts, longer, used + {x.edge});
        KeepAppend(Each(ff, path, adjacent[..j]), Walk(ff, longer));
        matches := matches + more;
      }
    }
    assert adjacent[..|adjacent|] == adjacent;
  }
}
