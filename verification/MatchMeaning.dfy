/** What MATCH means, read off its syntax: which edges an arrow admits, how long a
    variable length may be, what each name stands for, and which rows a clause gives.
    The enumerator is proved to give exactly these. */
module MatchMeaning {
  import opened Base
  import opened Text
  import opened Sorted
  import opened MatchGraph
  import opened Walks
  import opened Trails
  import opened Matching
  import opened Selections

  // ---- arrows ----

  /** -->, <-- and --: the edge from a to b, the edge from b to a, or either. */
  predicate Traverses(e: Ends, d: Direction, a: Id, b: Id) {
    match d
    case Outgoing => e == Ends(a, b)
    case Incoming => e == Ends(b, a)
    case Undirected => e == Ends(a, b) || e == Ends(b, a)
    case Bidirectional => e == Ends(a, b) || e == Ends(b, a)
  }

  lemma ConnectsIs(e: Ends, d: Direction, a: Id, b: Id)
    ensures Connects(e, d, a, b) <==> Traverses(e, d, a, b)
  {
  }

  /** adjacentEdges gives an edge with the node it leads to exactly where the arrow admits it. */
  lemma AdjacentIs(g: Graph, a: Id, d: Direction, e: Id, b: Id)
    ensures Adjacent(e, b) in AdjacentEdges(g, a, d) <==> e in g.edges && Traverses(g.edges[e], d, a, b)
  {
    AdjacentConnects(g, a, d, e, b);
    if e in g.edges { ConnectsIs(g.edges[e], d, a, b); }
  }

  // ---- lengths ----

  /** No length is one edge; `*` is at least one; `*n` is n; `*m..n` is between them, and
      an end left out is one, or no bound. */
  predicate LengthAllowed(rel: RelPattern, row: Row, n: nat) {
    match rel.length
    case None => n == 1
    case Some(Length(lower, upper, exact)) =>
      && (if lower.Some? then lower.value(row) <= n else 1 <= n)
      && (upper.Some? ==> n <= upper.value(row))
      && (lower.Some? && upper.None? && exact ==> n == lower.value(row))
  }

  lemma BoundsAre(rel: RelPattern, row: Row, edgeCount: nat, n: nat)
    ensures var (lo, hi) := Bounds(rel, row, edgeCount);
            && (lo <= n <= hi ==> LengthAllowed(rel, row, n))
            && (LengthAllowed(rel, row, n) && n <= edgeCount ==> lo <= n <= hi)
            && (rel.length.None? ==> lo == hi == 1)
  {
  }

  // ---- names ----

  /** `after` is `before` with a value for a name, unless that is empty; a value known
      before is the same. */
  ghost predicate Gains(before: Row, after: Row, name: string, v: Value) {
    && after.Keys == before.Keys + ({name} - {""})
    && (forall k | k in before :: after[k] == before[k])
    && (name != "" ==> after[name] == v)
  }

  lemma BindIs(before: Row, after: Row, name: string, v: Value)
    ensures Bind(before, name, v) == Some(after) <==> Gains(before, after, name, v)
  {
    if name == "" {
      assert Gains(before, after, name, v) ==> after == before;
    } else if name !in before {
      assert Gains(before, after, name, v) ==> after == before[name := v];
    } else {
      assert Gains(before, after, name, v) ==> after == before;
    }
  }

  /** A relationship variable stands for its edge, or for the list of its edges if it
      has a length. */
  ghost predicate StandsFor(rel: RelPattern, edges: seq<Id>, v: Value) {
    if rel.length.Some? then v.List? && |v.items| == |edges| && forall i | 0 <= i < |edges| :: v.items[i] == EdgeRef(edges[i])
    else |edges| == 1 && v == EdgeRef(edges[0])
  }

  lemma {:induction false} EdgeListIs(edges: seq<Id>, items: seq<Value>)
    ensures EdgeList(edges) == items <==> |items| == |edges| && forall i | 0 <= i < |edges| :: items[i] == EdgeRef(edges[i])
  {
    if edges != [] && items != [] {
      EdgeListIs(edges[1..], items[1..]);
      assert items == [items[0]] + items[1..];
      if |items| == |edges| && forall i | 0 <= i < |edges| :: items[i] == EdgeRef(edges[i]) {
        forall i | 0 <= i < |edges[1..]| ensures items[1..][i] == EdgeRef(edges[1..][i]) { assert items[i + 1] == EdgeRef(edges[i + 1]); }
      }
      if EdgeList(edges) == items {
        assert EdgeList(edges)[1..] == EdgeList(edges[1..]);
        forall i | 0 <= i < |edges| ensures items[i] == EdgeRef(edges[i]) { if i > 0 { assert items[1..][i - 1] == EdgeRef(edges[1..][i - 1]); } }
      }
    }
  }

  // ---- one relationship ----

  /** From position `from` to `to` the path runs over distinct edges that the arrow and
      the relationship's test admit, as many as its length allows, to a node that the
      target's test admits; the row gains the two names. */
  ghost predicate HopMeans(g: Graph, rel: RelPattern, target: NodePattern, before: Row, after: Row, path: Path, from: nat,
          to: nat)
    requires Shaped(path)
  {
    && from <= to <= |path.edges| && LengthAllowed(rel, before, to - from)
    && (forall j | from <= j < to :: EdgeMeans(g, rel, before, path, j))
    && target.test(before, path.nodes[to])
    && exists middle, v :: Gains(before, middle, target.variable, NodeRef(path.nodes[to]))
                           && StandsFor(rel, path.edges[from..to], v) && Gains(middle, after, rel.variable, v)
  }

  ghost predicate EdgeMeans(g: Graph, rel: RelPattern, row: Row, path: Path, j: nat)
    requires Shaped(path) && j < |path.edges|
  {
    && path.edges[j] in g.edges && Traverses(g.edges[path.edges[j]], rel.direction, path.nodes[j], path.nodes[j + 1])
    && path.edges[j] !in path.edges[..j]
    && rel.test(row, path.edges[j]) && path.nodes[j + 1] in g.nodes
  }

  /** The rest of the pattern, relationship by relationship. */
  ghost predicate RestMeans(g: Graph, el: Element, i: nat, row: Row, m: Match, from: nat)
    requires WellFormed(el) && i <= |el.rels| && |m.cuts| == |el.rels| && Shaped(m.path)
    decreases |el.rels| - i, 1
  {
    if i == |el.rels| then m.row == row && from == |m.path.edges|
    else from <= m.cuts[i] <= |m.path.edges| && exists after :: HopThenRest(g, el, i, row, after, m, from)
  }

  ghost predicate HopThenRest(g: Graph, el: Element, i: nat, row: Row, after: Row, m: Match, from: nat)
    requires WellFormed(el) && i < |el.rels| && |m.cuts| == |el.rels| && Shaped(m.path)
    decreases |el.rels| - i, 0
  {
    HopMeans(g, el.rels[i], el.nodes[i + 1], row, after, m.path, from, m.cuts[i]) && RestMeans(g, el, i + 1, after, m, m.cuts[i])
  }

  /** A match of the pattern from a node, for a row that has the first name. */
  ghost predicate MatchMeans(g: Graph, el: Element, row: Row, n: Id, m: Match)
    requires WellFormed(el)
  {
    |m.cuts| == |el.rels| && Shaped(m.path) && m.path.nodes[0] == n && RestMeans(g, el, 0, row, m, 0)
  }

  lemma AdmittedIs(f: Frame, path: Path, j: nat)
    requires f.i < |f.el.rels| && Shaped(path) && j < |path.edges|
    ensures Admitted(f, path, j) <==> EdgeMeans(f.g, f.el.rels[f.i], f.row, path, j)
  {
    if path.edges[j] in f.g.edges { ConnectsIs(f.g.edges[path.edges[j]], f.el.rels[f.i].direction, path.nodes[j], path.nodes[j + 1]); }
  }

  lemma HopBinds(el: Element, i: nat, before: Row, after: Row, path: Path, from: nat, to: nat)
    requires WellFormed(el) && i < |el.rels| && Shaped(path) && from <= to <= |path.edges|
    requires el.rels[i].length.None? ==> to == from + 1
    ensures BindHop(el, i, before, from, Prefix(path, to)) == Some(after) <==>
            exists middle, v :: Gains(before, middle, el.nodes[i + 1].variable, NodeRef(path.nodes[to]))
                                && StandsFor(el.rels[i], path.edges[from..to], v) && Gains(middle, after, el.rels[i].variable, v)
  {
    var p := Prefix(path, to);
    assert End(p) == path.nodes[to] && p.edges[from..] == path.edges[from..to];
    var target := Bind(before, el.nodes[i + 1].variable, NodeRef(End(p)));
    var value := RelValue(el.rels[i], from, p);
    assert StandsFor(el.rels[i], path.edges[from..to], value) by { EdgeListIs(p.edges[from..], EdgeList(p.edges[from..])); }
    forall v | StandsFor(el.rels[i], path.edges[from..to], v) ensures v == value {
      if v.List? { EdgeListIs(p.edges[from..], v.items); }
    }
    hide StandsFor, RelValue, Gains;
    forall middle ensures target == Some(middle) <==> Gains(before, middle, el.nodes[i + 1].variable, NodeRef(path.nodes[to])) {
      BindIs(before, middle, el.nodes[i + 1].variable, NodeRef(path.nodes[to]));
    }
    if target.Some? { BindIs(target.value, after, el.rels[i].variable, value); }
  }

  /** Fits is this reading of the rest of the pattern. */
  lemma {:induction false} FitsMeans(g: Graph, el: Element, i: nat, row: Row, path: Path, cuts: seq<nat>, m: Match)
    requires WellFormed(el) && i <= |el.rels| && |cuts| == i && Shaped(path)
    ensures Fits(g, el, i, row, path, cuts, m) <==>
            |m.cuts| == |el.rels| && m.cuts[..i] == cuts && Begins(path, m.path) && RestMeans(g, el, i, row, m, |path.edges|)
    decreases |el.rels| - i
  {
    hide HopMeans, Bounds, BindHop;
    if i == |el.rels| {
      assert Prefix(path, |path.edges|) == path;
      if |m.cuts| == |el.rels| && m.cuts[..i] == cuts && Begins(path, m.path) && RestMeans(g, el, i, row, m, |path.edges|) {
        assert m.cuts == cuts && Prefix(m.path, |m.path.edges|) == m.path;
      }
    } else {
      var (lo, hi) := Bounds(el.rels[i], row, |g.edges|);
      var f := Frame(g, el, i, |path.edges|, lo, hi, row, cuts);
      if |m.cuts| == |el.rels| && m.cuts[..i] == cuts && Begins(path, m.path) && |path.edges| <= m.cuts[i] <= |m.path.edges| {
        var longer := Prefix(m.path, m.cuts[i]);
        StepMeans(f, path, m);
        assert m.cuts[..i + 1] == cuts + [m.cuts[i]];
        assert Prefix(m.path, |longer.edges|) == longer;
        assert FitsFrom(f, path, m) <==> exists after :: StepFits(f, path, after, m);
        forall after ensures StepFits(f, path, after, m) <==> HopThenRest(g, el, i, row, after, m, |path.edges|) {
          HopFits(f, path, after, m);
          FitsMeans(g, el, i + 1, after, longer, cuts + [|longer.edges|], m);
        }
      } else {
        HopInside(g, el, i, row, m, |path.edges|);
      }
    }
  }

  lemma HopInside(g: Graph, el: Element, i: nat, row: Row, m: Match, from: nat)
    requires WellFormed(el) && i < |el.rels|
    ensures |m.cuts| == |el.rels| && Shaped(m.path) && RestMeans(g, el, i, row, m, from) ==> from <= m.cuts[i] <= |m.path.edges|
  {
  }

  /** The conditions of a frame on the next relationship, and those on what follows. */
  ghost predicate StepFits(f: Frame, path: Path, after: Row, m: Match)
    requires ValidFrame(f) && Shaped(path) && f.base == |path.edges|
    requires |m.cuts| == |f.el.rels| && Begins(path, m.path) && |path.edges| <= m.cuts[f.i] <= |m.path.edges|
  {
    HopFitsFrame(f, path, after, m) && Fits(f.g, f.el, f.i + 1, after, Prefix(m.path, m.cuts[f.i]), f.cuts + [m.cuts[f.i]], m)
  }

  ghost predicate HopFitsFrame(f: Frame, path: Path, after: Row, m: Match)
    requires ValidFrame(f) && Shaped(path) && f.base == |path.edges|
    requires |m.cuts| == |f.el.rels| && Begins(path, m.path) && |path.edges| <= m.cuts[f.i] <= |m.path.edges|
  {
    var longer := Prefix(m.path, m.cuts[f.i]);
    && f.lo <= m.cuts[f.i] - f.base <= f.hi && Stretch(f, m.path, |path.edges|, m.cuts[f.i])
    && f.el.nodes[f.i + 1].test(f.row, End(longer)) && BindHop(f.el, f.i, f.row, f.base, longer) == Some(after)
  }

  lemma StepMeans(f: Frame, path: Path, m: Match)
    requires ValidFrame(f) && Shaped(path) && f.base == |path.edges| && |m.cuts| == |f.el.rels| && m.cuts[..f.i] == f.cuts
    requires Begins(path, m.path) && |path.edges| <= m.cuts[f.i] <= |m.path.edges|
    ensures FitsFrom(f, path, m) <==> exists after :: StepFits(f, path, after, m)
  {
    hide Stretch, BindHop, Fits;
    var longer := Prefix(m.path, m.cuts[f.i]);
    assert |longer.edges| == m.cuts[f.i];
    var next := BindHop(f.el, f.i, f.row, f.base, longer);
    assert FitsStop(f, longer, m) <==>
           f.el.nodes[f.i + 1].test(f.row, End(longer)) && next.Some? && Fits(f.g, f.el, f.i + 1, next.value, longer, f.cuts + [|longer.edges|], m);
    if FitsFrom(f, path, m) {
      assert FitsStop(f, longer, m);
      assert StepFits(f, path, next.value, m);
    }
  }

  /** One step: the frame's conditions are those of the reading. */
  lemma HopFits(f: Frame, path: Path, after: Row, m: Match)
    requires ValidFrame(f) && Shaped(path) && f.base == |path.edges| && (f.lo, f.hi) == Bounds(f.el.rels[f.i], f.row, |f.g.edges|)
    requires |m.cuts| == |f.el.rels| && Begins(path, m.path) && |path.edges| <= m.cuts[f.i] <= |m.path.edges|
    ensures HopFitsFrame(f, path, after, m) <==>
            HopMeans(f.g, f.el.rels[f.i], f.el.nodes[f.i + 1], f.row, after, m.path, |path.edges|, m.cuts[f.i])
  {
    hide Bounds, BindHop, Admitted, EdgeMeans, Gains, StandsFor;
    var (from, to) := (|path.edges|, m.cuts[f.i]);
    forall j | from <= j < to ensures Admitted(f, m.path, j) <==> EdgeMeans(f.g, f.el.rels[f.i], f.row, m.path, j) { AdmittedIs(f, m.path, j); }
    assert Stretch(f, m.path, from, to) <==> forall j | from <= j < to :: EdgeMeans(f.g, f.el.rels[f.i], f.row, m.path, j);
    if Stretch(f, m.path, from, to) { StretchIsShort(f, m.path, from, to); }
    BoundsAre(f.el.rels[f.i], f.row, |f.g.edges|, to - from);
    if f.el.rels[f.i].length.None? ==> to == from + 1 { HopBinds(f.el, f.i, f.row, after, m.path, from, to); }
  }

  /** The enumerator lists, from a node, exactly the matches in this reading. */
  lemma EnumeratesMeaning(g: Graph, el: Element, row: Row, n: Id)
    requires WellFormed(el)
    ensures forall m :: m in Continue(g, el, 0, row, Path([n], []), []) <==> MatchMeans(g, el, row, n, m)
    ensures NoDup(Continue(g, el, 0, row, Path([n], []), []))
  {
    ContinueIsExact(g, el, 0, row, Path([n], []), []);
    hide Continue, Fits, RestMeans;
    forall m ensures Fits(g, el, 0, row, Path([n], []), [], m) <==> MatchMeans(g, el, row, n, m) {
      FitsMeans(g, el, 0, row, Path([n], []), [], m);
      assert Shaped(m.path) && m.path.nodes[0] == n ==> Prefix(m.path, 0) == Path([n], []);
      assert Shaped(m.path) && Prefix(m.path, 0) == Path([n], []) ==> m.path.nodes[0] == n;
    }
  }

  // ---- one pattern ----

  /** A node the pattern may start from: the one its name is known to stand for, or any
      of the graph, if it passes the test. */
  predicate StartMeans(g: Graph, row: Row, pattern: NodePattern, n: Id) {
    && (if pattern.variable != "" && pattern.variable in row then row[pattern.variable] == NodeRef(n) else n in g.nodes)
    && pattern.test(row, n)
  }

  lemma CandidatesMean(g: Graph, row: Row, pattern: NodePattern)
    ensures forall n :: n in Candidates(g, row, pattern) <==> StartMeans(g, row, pattern, n)
    ensures Increasing(Candidates(g, row, pattern))
  {
    SortedHolds(set n | n in g.nodes && pattern.test(row, n));
    hide SortedIds;
  }

  /** r is the row of the match m of the pattern from n: the names of the first node and
      of the path stand for those. */
  ghost predicate RowMeans(g: Graph, row: Row, p: Pattern, r: Row, n: Id, m: Match)
    requires WellFormed(p.element)
  {
    && StartMeans(g, row, p.element.nodes[0], n)
    && Gains(m.row, r, p.variable, PathRef(m.path))
    && exists first :: Gains(row, first, p.element.nodes[0].variable, NodeRef(n)) && MatchMeans(g, p.element, first, n, m)
  }

  /** The matches whose path can be bound. */
  ghost function WithPath(matches: seq<Match>, name: string): seq<Match> {
    if matches == [] then []
    else
      var last := matches[|matches| - 1];
      WithPath(matches[..|matches| - 1], name) + (if Bind(last.row, name, PathRef(last.path)).Some? then [last] else [])
  }

  lemma {:induction false} PathsBound(matches: seq<Match>, name: string)
    ensures var (rows, bound) := (BindPaths(Keep(matches), name), WithPath(matches, name));
            |rows| == |bound| && forall k | 0 <= k < |rows| :: Bind(bound[k].row, name, PathRef(bound[k].path)) == Some(rows[k])
    ensures forall m :: m in WithPath(matches, name) <==> m in matches && Bind(m.row, name, PathRef(m.path)).Some?
    ensures NoDup(matches) ==> NoDup(WithPath(matches, name))
    decreases |matches|
  {
    hide Bind;
    if matches != [] {
      var (rest, last) := (matches[..|matches| - 1], matches[|matches| - 1]);
      assert matches == rest + [last];
      PathsBound(rest, name);
      assert Keep(matches) == Keep(rest) + [Kept(last.row, last.path)];
      assert Keep(matches)[..|Keep(matches)| - 1] == Keep(rest);
      if NoDup(matches) && Bind(last.row, name, PathRef(last.path)).Some? { AppendNoDup(WithPath(rest, name), [last]); }
    }
  }

  /** The matches behind the rows of a pattern, in the order of the rows. */
  ghost function Tagged(n: Id, matches: seq<Match>): (found: seq<(Id, Match)>)
    ensures |found| == |matches| && forall i | 0 <= i < |found| :: found[i] == (n, matches[i])
  {
    seq(|matches|, i requires 0 <= i < |matches| => (n, matches[i]))
  }

  ghost predicate IsFound(g: Graph, row: Row, p: Pattern, rows: seq<Row>, found: seq<(Id, Match)>)
    requires WellFormed(p.element)
  {
    |found| == |rows| && NoDup(found) && forall k | 0 <= k < |rows| :: RowMeans(g, row, p, rows[k], found[k].0, found[k].1)
  }

  lemma CandidateMeans(g: Graph, row: Row, p: Pattern, n: Id) returns (found: seq<(Id, Match)>)
    requires WellFormed(p.element) && StartMeans(g, row, p.element.nodes[0], n)
    ensures IsFound(g, row, p, FromCandidate(g, row, p, n), found) && forall x | x in found :: x.0 == n
    ensures forall m, r | RowMeans(g, row, p, r, n, m) :: (n, m) in found
  {
    var next := Bind(row, p.element.nodes[0].variable, NodeRef(n));
    var all := if next.Some? then Continue(g, p.element, 0, next.value, Path([n], []), []) else [];
    FromCandidateIs(g, row, p, n);
    hide *;
    PathsBound(all, p.variable);
    if next.Some? { EnumeratesMeaning(g, p.element, next.value, n); }
    var bound := WithPath(all, p.variable);
    found := Tagged(n, bound);
    var rows := BindPaths(Keep(all), p.variable);
    forall k | 0 <= k < |rows| ensures RowMeans(g, row, p, rows[k], found[k].0, found[k].1) {
      assert bound[k] in bound;
      CandidateRow(g, row, p, rows[k], n, bound[k]);
    }
    forall m, r | RowMeans(g, row, p, r, n, m) ensures (n, m) in found {
      CandidateRow(g, row, p, r, n, m);
      assert m in all;
      TagOf(n, bound, m);
    }
    if next.Some? { TagsApart(n, bound); } else { assert all == []; NothingBound(p.variable); }
    FoundIs(g, row, p, rows, found);
  }

  lemma NothingBound(name: string)
    ensures WithPath([], name) == [] && BindPaths(Keep([]), name) == [] && NoDup(Tagged("", []))
  {
  }

  lemma TagsApart(n: Id, bound: seq<Match>)
    requires NoDup(bound)
    ensures NoDup(Tagged(n, bound))
  {
  }

  lemma TagOf(n: Id, bound: seq<Match>, m: Match)
    requires m in bound
    ensures (n, m) in Tagged(n, bound)
  {
    var i :| 0 <= i < |bound| && bound[i] == m;
    assert Tagged(n, bound)[i] == (n, m);
  }

  lemma FoundIs(g: Graph, row: Row, p: Pattern, rows: seq<Row>, found: seq<(Id, Match)>)
    requires WellFormed(p.element)
    ensures IsFound(g, row, p, rows, found) <==>
            |found| == |rows| && NoDup(found) && forall k | 0 <= k < |rows| :: RowMeans(g, row, p, rows[k], found[k].0, found[k].1)
  {
    hide RowMeans, NoDup;
  }

  lemma FromCandidateIs(g: Graph, row: Row, p: Pattern, n: Id)
    requires WellFormed(p.element)
    ensures var next := Bind(row, p.element.nodes[0].variable, NodeRef(n));
            var all := if next.Some? then Continue(g, p.element, 0, next.value, Path([n], []), []) else [];
            FromCandidate(g, row, p, n) == BindPaths(Keep(all), p.variable)
  {
    hide Continue, Bind;
  }

  lemma CandidateRow(g: Graph, row: Row, p: Pattern, r: Row, n: Id, m: Match)
    requires WellFormed(p.element) && StartMeans(g, row, p.element.nodes[0], n)
    ensures RowMeans(g, row, p, r, n, m) <==>
            var next := Bind(row, p.element.nodes[0].variable, NodeRef(n));
            next.Some? && MatchMeans(g, p.element, next.value, n, m) && Bind(m.row, p.variable, PathRef(m.path)) == Some(r)
  {
    hide MatchMeans, Gains, Bind;
    var next := Bind(row, p.element.nodes[0].variable, NodeRef(n));
    forall first ensures next == Some(first) <==> Gains(row, first, p.element.nodes[0].variable, NodeRef(n)) {
      BindIs(row, first, p.element.nodes[0].variable, NodeRef(n));
    }
    BindIs(m.row, r, p.variable, PathRef(m.path));
  }

  lemma {:induction false} CandidatesFound(g: Graph, row: Row, p: Pattern, candidates: seq<Id>) returns (found: seq<(Id, Match)>)
    requires WellFormed(p.element) && NoDup(candidates) && forall n | n in candidates :: StartMeans(g, row, p.element.nodes[0], n)
    ensures IsFound(g, row, p, FromCandidates(g, row, p, candidates), found)
    ensures forall x | x in found :: x.0 in candidates
    ensures forall n, m, r | n in candidates && RowMeans(g, row, p, r, n, m) :: (n, m) in found
    decreases |candidates|
  {
    hide RowMeans, FromCandidate, StartMeans;
    if candidates == [] { return []; }
    var (rest, n) := (candidates[..|candidates| - 1], candidates[|candidates| - 1]);
    assert candidates == rest + [n];
    assert n in candidates;
    var before := CandidatesFound(g, row, p, rest);
    var last := CandidateMeans(g, row, p, n);
    found := before + last;
    assert n !in rest;
    AppendNoDup(before, last);
    var (a, b) := (FromCandidates(g, row, p, rest), FromCandidate(g, row, p, n));
    forall k | 0 <= k < |a + b| ensures RowMeans(g, row, p, (a + b)[k], found[k].0, found[k].1) {
      if k >= |a| { assert (a + b)[k] == b[k - |a|] && found[k] == last[k - |a|]; }
    }
    forall c, m, r | c in candidates && RowMeans(g, row, p, r, c, m) ensures (c, m) in found {
      if c == n { assert (c, m) in last; } else { assert c in rest; assert (c, m) in before; }
    }
  }

  /** The rows a pattern gives for a row are those of all its matches, each once. */
  lemma PatternMeans(g: Graph, row: Row, p: Pattern) returns (found: seq<(Id, Match)>)
    requires WellFormed(p.element)
    ensures IsFound(g, row, p, PatternRow(g, row, p), found)
    ensures forall n, m, r | RowMeans(g, row, p, r, n, m) :: (n, m) in found
  {
    hide RowMeans, FromCandidates, StartMeans, Candidates, Increasing;
    CandidatesMean(g, row, p.element.nodes[0]);
    IncreasingNoDup(Candidates(g, row, p.element.nodes[0]));
    found := CandidatesFound(g, row, p, Candidates(g, row, p.element.nodes[0]));
    forall n, m, r | RowMeans(g, row, p, r, n, m) ensures (n, m) in found { StartsThere(g, row, p, r, n, m); }
  }

  lemma StartsThere(g: Graph, row: Row, p: Pattern, r: Row, n: Id, m: Match)
    requires WellFormed(p.element) && RowMeans(g, row, p, r, n, m)
    ensures StartMeans(g, row, p.element.nodes[0], n)
  {
  }

  ghost predicate IsRow(g: Graph, row: Row, p: Pattern, r: Row)
    requires WellFormed(p.element)
  {
    exists n, m :: RowMeans(g, row, p, r, n, m)
  }

  lemma PatternRowIs(g: Graph, row: Row, p: Pattern, r: Row)
    requires WellFormed(p.element)
    ensures r in PatternRow(g, row, p) <==> IsRow(g, row, p, r)
  {
    var found := PatternMeans(g, row, p);
    var rows := PatternRow(g, row, p);
    hide PatternRow;
    if r in rows { var k :| 0 <= k < |rows| && rows[k] == r; assert RowMeans(g, row, p, r, found[k].0, found[k].1); }
    if n, m :| RowMeans(g, row, p, r, n, m) {
      var k :| 0 <= k < |found| && found[k] == (n, m);
      SameRow(g, row, p, rows[k], r, n, m);
    }
  }

  lemma SameRow(g: Graph, row: Row, p: Pattern, a: Row, b: Row, n: Id, m: Match)
    requires WellFormed(p.element) && RowMeans(g, row, p, a, n, m) && RowMeans(g, row, p, b, n, m)
    ensures a == b
  {
    hide MatchMeans;
    BindIs(m.row, a, p.variable, PathRef(m.path));
    BindIs(m.row, b, p.variable, PathRef(m.path));
  }

  // ---- arrows in a pattern ----

  /** The pattern (a)-[rel]-(b). */
  function Single(a: NodePattern, rel: RelPattern, b: NodePattern): Pattern {
    Pattern("", Element([a, b], [rel]))
  }

  ghost predicate RowFree(a: NodePattern, rel: RelPattern, b: NodePattern) {
    && (forall r, s, n :: a.test(r, n) == a.test(s, n)) && (forall r, s, n :: b.test(r, n) == b.test(s, n))
    && forall r, s, e :: rel.test(r, e) == rel.test(s, e)
  }

  ghost predicate Closed(g: Graph) {
    forall e | e in g.edges :: g.edges[e].from in g.nodes && g.edges[e].to in g.nodes
  }

  /** The edge e runs as the arrow says from x to y, all three pass their tests, and r has
      the names stand for them. */
  ghost predicate HopRow(g: Graph, row: Row, a: NodePattern, rel: RelPattern, b: NodePattern, r: Row, x: Id, e: Id, y: Id) {
    && e in g.edges && Traverses(g.edges[e], rel.direction, x, y)
    && a.test(row, x) && rel.test(row, e) && b.test(row, y)
    && r.Keys == row.Keys + ({a.variable, rel.variable, b.variable} - {""}) && (forall k | k in row :: r[k] == row[k])
    && (a.variable != "" ==> r[a.variable] == NodeRef(x)) && (b.variable != "" ==> r[b.variable] == NodeRef(y))
    && (rel.variable != "" ==> r[rel.variable] == EdgeRef(e))
  }

  lemma RestOfOne(g: Graph, el: Element, row: Row, m: Match)
    requires WellFormed(el) && |el.rels| == 1 && |m.cuts| == 1 && Shaped(m.path)
    ensures RestMeans(g, el, 0, row, m, 0) <==>
            m.cuts[0] == |m.path.edges| && HopMeans(g, el.rels[0], el.nodes[1], row, m.row, m.path, 0, |m.path.edges|)
  {
    hide HopMeans;
    forall after ensures HopThenRest(g, el, 0, row, after, m, 0) <==>
        HopMeans(g, el.rels[0], el.nodes[1], row, after, m.path, 0, m.cuts[0]) && m.row == after && m.cuts[0] == |m.path.edges| { }
  }

  /** The one match there is for a single edge. */
  function MatchOf(row: Row, x: Id, e: Id, y: Id): Match {
    Match(row, Path([x, y], [e]), [1])
  }

  /** A pattern of one relationship without a length gives the rows of its edges. */
  lemma SingleIs(g: Graph, row: Row, a: NodePattern, rel: RelPattern, b: NodePattern, r: Row)
    requires rel.length.None? && RowFree(a, rel, b) && Closed(g)
    ensures IsRow(g, row, Single(a, rel, b), r) <==> exists x, e, y :: HopRow(g, row, a, rel, b, r, x, e, y)
  {
    var p := Single(a, rel, b);
    if n, m :| RowMeans(g, row, p, r, n, m) {
      SingleHasEdge(g, row, a, rel, b, r, n, m);
      assert HopRow(g, row, a, rel, b, r, n, m.path.edges[0], m.path.nodes[1]);
    }
    if x, e, y :| HopRow(g, row, a, rel, b, r, x, e, y) {
      EdgeIsSingle(g, row, a, rel, b, r, x, e, y);
    }
  }

  /** r has all of the row and the three names. */
  predicate HasNames(row: Row, r: Row, a: string, x: Value, c: string, e: Value, b: string, y: Value) {
    && r.Keys == row.Keys + ({a, c, b} - {""}) && (forall k | k in row :: r[k] == row[k])
    && (a != "" ==> r[a] == x) && (b != "" ==> r[b] == y) && (c != "" ==> r[c] == e)
  }

  lemma NamesGained(row: Row, first: Row, middle: Row, r: Row, a: string, x: Value, b: string, y: Value, c: string, e: Value)
    requires Gains(row, first, a, x) && Gains(first, middle, b, y) && Gains(middle, r, c, e)
    ensures HasNames(row, r, a, x, c, e, b, y)
  {
  }

  lemma NamesCanBeGained(row: Row, r: Row, a: string, x: Value, b: string, y: Value, c: string, e: Value) returns (first: Row, middle: Row)
    requires HasNames(row, r, a, x, c, e, b, y)
    ensures Gains(row, first, a, x) && Gains(first, middle, b, y) && Gains(middle, r, c, e)
  {
    first := if a == "" then row else row[a := x];
    middle := if b == "" then first else first[b := y];
  }

  lemma HopRowIs(g: Graph, row: Row, a: NodePattern, rel: RelPattern, b: NodePattern, r: Row, x: Id, e: Id, y: Id)
    ensures HopRow(g, row, a, rel, b, r, x, e, y) <==>
            && e in g.edges && Traverses(g.edges[e], rel.direction, x, y) && a.test(row, x) && rel.test(row, e) && b.test(row, y)
            && HasNames(row, r, a.variable, NodeRef(x), rel.variable, EdgeRef(e), b.variable, NodeRef(y))
  {
    hide Traverses;
  }

  /** One hop without a length runs over one edge. */
  lemma HopIsEdge(g: Graph, rel: RelPattern, b: NodePattern, before: Row, after: Row, path: Path)
    requires rel.length.None? && Shaped(path) && HopMeans(g, rel, b, before, after, path, 0, |path.edges|)
    ensures |path.edges| == 1 && |path.nodes| == 2
    ensures path.edges[0] in g.edges && Traverses(g.edges[path.edges[0]], rel.direction, path.nodes[0], path.nodes[1])
    ensures rel.test(before, path.edges[0]) && b.test(before, path.nodes[1])
    ensures exists middle :: Gains(before, middle, b.variable, NodeRef(path.nodes[1])) && Gains(middle, after, rel.variable, EdgeRef(path.edges[0]))
  {
    hide Gains, Traverses;
    assert LengthAllowed(rel, before, |path.edges| - 0);
    assert EdgeMeans(g, rel, before, path, 0);
    assert path.edges[0..|path.edges|] == [path.edges[0]];
  }

  lemma EdgeIsHop(g: Graph, rel: RelPattern, b: NodePattern, before: Row, middle: Row, after: Row, x: Id, e: Id, y: Id)
    requires rel.length.None? && e in g.edges && Traverses(g.edges[e], rel.direction, x, y) && y in g.nodes
    requires rel.test(before, e) && b.test(before, y)
    requires Gains(before, middle, b.variable, NodeRef(y)) && Gains(middle, after, rel.variable, EdgeRef(e))
    ensures HopMeans(g, rel, b, before, after, Path([x, y], [e]), 0, 1)
  {
    hide Gains, Traverses;
    var path := Path([x, y], [e]);
    assert EdgeMeans(g, rel, before, path, 0);
    assert path.edges[0..1] == [e] && StandsFor(rel, [e], EdgeRef(e));
  }

  lemma SingleHasEdge(g: Graph, row: Row, a: NodePattern, rel: RelPattern, b: NodePattern, r: Row, n: Id, m: Match)
    requires rel.length.None? && RowFree(a, rel, b) && RowMeans(g, row, Single(a, rel, b), r, n, m)
    ensures |m.path.edges| == 1 && |m.path.nodes| == 2 && HopRow(g, row, a, rel, b, r, n, m.path.edges[0], m.path.nodes[1])
  {
    hide HopMeans, Traverses, HopRow, RestMeans;
    var p := Single(a, rel, b);
    assert r == m.row by { BindIs(m.row, r, "", PathRef(m.path)); }
    var first :| Gains(row, first, a.variable, NodeRef(n)) && MatchMeans(g, p.element, first, n, m);
    RestOfOne(g, p.element, first, m);
    HopIsEdge(g, rel, b, first, r, m.path);
    var middle :| Gains(first, middle, b.variable, NodeRef(m.path.nodes[1])) && Gains(middle, r, rel.variable, EdgeRef(m.path.edges[0]));
    hide Gains;
    NamesGained(row, first, middle, r, a.variable, NodeRef(n), b.variable, NodeRef(m.path.nodes[1]), rel.variable, EdgeRef(m.path.edges[0]));
    HopRowIs(g, row, a, rel, b, r, n, m.path.edges[0], m.path.nodes[1]);
  }

  lemma EdgeIsSingle(g: Graph, row: Row, a: NodePattern, rel: RelPattern, b: NodePattern, r: Row, x: Id, e: Id, y: Id)
    requires rel.length.None? && RowFree(a, rel, b) && Closed(g) && HopRow(g, row, a, rel, b, r, x, e, y)
    ensures RowMeans(g, row, Single(a, rel, b), r, x, MatchOf(r, x, e, y))
  {
    HopRowIs(g, row, a, rel, b, r, x, e, y);
    assert StartMeans(g, row, a, x);
    assert y in g.nodes;
    hide HopMeans, HopRow, RestMeans, Traverses, HasNames, StartMeans;
    var p := Single(a, rel, b);
    var m := MatchOf(r, x, e, y);
    var first, middle := NamesCanBeGained(row, r, a.variable, NodeRef(x), b.variable, NodeRef(y), rel.variable, EdgeRef(e));
    assert Gains(r, r, "", PathRef(m.path));
    hide Gains;
    EdgeIsHop(g, rel, b, first, middle, r, x, e, y);
    RestOfOne(g, p.element, first, m);
    assert MatchMeans(g, p.element, first, x, m);
  }

  /** `(a)-[rel]->(b)` and `(b)<-[rel]-(a)` give the same rows, and so do the two
      readings of `(a)-[rel]-(b)`. */
  lemma ArrowsMirror(g: Graph, row: Row, a: NodePattern, rel: RelPattern, b: NodePattern, r: Row)
    requires rel.length.None? && RowFree(a, rel, b) && Closed(g)
    ensures r in PatternRow(g, row, Single(a, rel.(direction := Outgoing), b)) <==> r in PatternRow(g, row, Single(b, rel.(direction := Incoming), a))
    ensures r in PatternRow(g, row, Single(a, rel.(direction := Undirected), b)) <==>
            r in PatternRow(g, row, Single(a, rel.(direction := Outgoing), b)) || r in PatternRow(g, row, Single(a, rel.(direction := Incoming), b))
    ensures r in PatternRow(g, row, Single(a, rel.(direction := Bidirectional), b)) <==> r in PatternRow(g, row, Single(a, rel.(direction := Undirected), b))
  {
    hide PatternRow, IsRow;
    var (to, from, any, both) := (rel.(direction := Outgoing), rel.(direction := Incoming), rel.(direction := Undirected), rel.(direction := Bidirectional));
    PatternRowIs(g, row, Single(a, to, b), r);
    PatternRowIs(g, row, Single(b, from, a), r);
    PatternRowIs(g, row, Single(a, from, b), r);
    PatternRowIs(g, row, Single(a, any, b), r);
    PatternRowIs(g, row, Single(a, both, b), r);
    SingleIs(g, row, a, to, b, r);
    SingleIs(g, row, b, from, a, r);
    SingleIs(g, row, a, from, b, r);
    SingleIs(g, row, a, any, b, r);
    SingleIs(g, row, a, both, b, r);
    forall x, e, y ensures HopRow(g, row, a, to, b, r, x, e, y) <==> HopRow(g, row, b, from, a, r, y, e, x) {
      assert {a.variable, rel.variable, b.variable} == {b.variable, rel.variable, a.variable};
    }
    forall x, e, y
      ensures HopRow(g, row, a, any, b, r, x, e, y) <==> HopRow(g, row, a, to, b, r, x, e, y) || HopRow(g, row, a, from, b, r, x, e, y)
      ensures HopRow(g, row, a, both, b, r, x, e, y) <==> HopRow(g, row, a, any, b, r, x, e, y)
    { }
  }

  // ---- clauses ----

  /** r is reached from the row through the patterns in turn. */
  ghost predicate Reached(g: Graph, row: Row, patterns: seq<Pattern>, r: Row)
    requires WellFormedAll(patterns)
    decreases |patterns|
  {
    if patterns == [] then r == row else exists middle :: PatternThenRest(g, row, patterns, middle, r)
  }

  ghost predicate PatternThenRest(g: Graph, row: Row, patterns: seq<Pattern>, middle: Row, r: Row)
    requires WellFormedAll(patterns) && patterns != []
    decreases |patterns|, 0
  {
    IsRow(g, row, patterns[0], middle) && Reached(g, middle, patterns[1..], r)
  }

  lemma {:induction false} PatternRowsAre(g: Graph, rows: seq<Row>, p: Pattern, r: Row)
    requires WellFormed(p.element)
    ensures r in PatternRows(g, rows, p) <==> exists row :: row in rows && IsRow(g, row, p, r)
    decreases |rows|
  {
    hide IsRow, PatternRow;
    if rows != [] {
      var (rest, last) := (rows[..|rows| - 1], rows[|rows| - 1]);
      assert rows == rest + [last];
      PatternRowsAre(g, rest, p, r);
      PatternRowIs(g, last, p, r);
    }
  }

  lemma {:induction false} PatternsRowsAre(g: Graph, rows: seq<Row>, patterns: seq<Pattern>, r: Row)
    requires WellFormedAll(patterns)
    ensures r in PatternsRows(g, rows, patterns) <==> exists row :: row in rows && Reached(g, row, patterns, r)
    decreases |patterns|
  {
    hide IsRow, PatternRows;
    if patterns == [] {
      if r in rows { assert Reached(g, r, patterns, r); }
    } else {
      var next := PatternRows(g, rows, patterns[0]);
      PatternsRowsAre(g, next, patterns[1..], r);
      forall middle ensures middle in next <==> exists row :: row in rows && IsRow(g, row, patterns[0], middle) {
        PatternRowsAre(g, rows, patterns[0], middle);
      }
      if middle :| middle in next && Reached(g, middle, patterns[1..], r) {
        var row :| row in rows && IsRow(g, row, patterns[0], middle);
        assert PatternThenRest(g, row, patterns, middle, r);
      }
      if row :| row in rows && Reached(g, row, patterns, r) {
        ReachedThrough(g, row, patterns, r);
      }
    }
  }

  lemma ReachedThrough(g: Graph, row: Row, patterns: seq<Pattern>, r: Row)
    requires WellFormedAll(patterns) && patterns != []
    ensures Reached(g, row, patterns, r) <==> exists middle :: IsRow(g, row, patterns[0], middle) && Reached(g, middle, patterns[1..], r)
  {
    hide IsRow;
    forall middle ensures PatternThenRest(g, row, patterns, middle, r) <==>
        IsRow(g, row, patterns[0], middle) && Reached(g, middle, patterns[1..], r) { }
  }

  /** The name of a node, a relationship or a path of the patterns. */
  ghost predicate Occurs(patterns: seq<Pattern>, name: string) {
    name != "" && exists i :: 0 <= i < |patterns| && InPattern(patterns[i], name)
  }

  ghost predicate InPattern(p: Pattern, name: string) {
    || name == p.variable
    || (exists i :: 0 <= i < |p.element.nodes| && p.element.nodes[i].variable == name)
    || (exists i :: 0 <= i < |p.element.rels| && p.element.rels[i].variable == name)
  }

  lemma {:induction false} IntroducedAre(patterns: seq<Pattern>, name: string)
    ensures name in Introduced(patterns) <==> Occurs(patterns, name)
  {
    if patterns != [] {
      IntroducedAre(patterns[1..], name);
      assert name in {patterns[0].variable} + ElementNames(patterns[0].element) <==> InPattern(patterns[0], name);
      hide InPattern, Introduced, ElementNames;
      if i :| 0 <= i < |patterns| && InPattern(patterns[i], name) { assert i > 0 ==> patterns[1..][i - 1] == patterns[i]; }
      if i :| 0 <= i < |patterns[1..]| && InPattern(patterns[1..][i], name) { assert patterns[i + 1] == patterns[1..][i]; }
      assert Introduced(patterns) == ({patterns[0].variable} + ElementNames(patterns[0].element) - {""}) + Introduced(patterns[1..]) by { IntroducedIs(patterns); }
    }
  }

  lemma IntroducedIs(patterns: seq<Pattern>)
    requires patterns != []
    ensures Introduced(patterns) == ({patterns[0].variable} + ElementNames(patterns[0].element) - {""}) + Introduced(patterns[1..])
  {
  }

  /** r is the row with null for each name of the patterns that it has not got. */
  ghost predicate IsFilled(row: Row, r: Row, patterns: seq<Pattern>) {
    && (forall name :: name in r <==> name in row || Occurs(patterns, name))
    && forall name | name in r :: r[name] == if name in row then row[name] else Null
  }

  lemma FillIs(row: Row, r: Row, patterns: seq<Pattern>)
    ensures r == Fill(row, Introduced(patterns)) <==> IsFilled(row, r, patterns)
  {
    hide Introduced, Occurs;
    var filled := Fill(row, Introduced(patterns));
    forall name ensures name in filled <==> name in row || Occurs(patterns, name) { IntroducedAre(patterns, name); }
    if IsFilled(row, r, patterns) { assert r.Keys == filled.Keys; assert r == filled; }
  }

  /** WHERE keeps the rows that pass, in their order. */
  lemma {:induction false} WhereSelects(rows: seq<Row>, where: Row -> bool)
    ensures Selects(rows, FilterRows(rows, where), where)
  {
    hide Selects;
    if rows == [] {
      SelectsNothing(where);
    } else {
      var (rest, last) := (rows[..|rows| - 1], rows[|rows| - 1]);
      WhereSelects(rest, where);
      SelectsMore(rest, FilterRows(rest, where), where, last);
      assert rest + [last] == rows;
      assert FilterRows(rows, where) == if where(last) then FilterRows(rest, where) + [last] else FilterRows(rest, where);
    }
  }

  /** r is reached through the patterns and passes WHERE. */
  ghost predicate IsKept(g: Graph, row: Row, c: Clause, r: Row)
    requires WellFormedAll(c.patterns)
  {
    Reached(g, row, c.patterns, r) && c.where(r)
  }

  /** A row of a MATCH clause is one that is reached and passes WHERE; of an OPTIONAL one
      without any such, it is the input with nulls. */
  lemma ClauseRowMeans(g: Graph, row: Row, c: Clause, r: Row)
    requires WellFormedAll(c.patterns)
    ensures r in ClauseRow(g, row, c) <==>
            || IsKept(g, row, c, r)
            || (c.optional && (!exists kept :: IsKept(g, row, c, kept)) && IsFilled(row, r, c.patterns))
  {
    hide Reached, PatternsRows, Fill, Introduced, FilterRows, IsFilled, Selects;
    var all := PatternsRows(g, [row], c.patterns);
    WhereSelects(all, c.where);
    var matches := FilterRows(all, c.where);
    SelectedAre(all, matches, c.where);
    forall x ensures x in matches <==> IsKept(g, row, c, x) {
      PatternsRowsAre(g, [row], c.patterns, x);
      assert row in [row] && forall other | other in [row] :: other == row;
    }
    FillIs(row, r, c.patterns);
    if matches != [] { assert matches[0] in matches; }
  }

  /** Without OPTIONAL, or with a row kept, these are all of them in their order. */
  lemma ClauseRowSelects(g: Graph, row: Row, c: Clause)
    requires WellFormedAll(c.patterns)
    ensures Selects(PatternsRows(g, [row], c.patterns), ClauseRow(g, row, c), c.where)
            || (c.optional && |ClauseRow(g, row, c)| == 1 && Selects(PatternsRows(g, [row], c.patterns), [], c.where))
  {
    hide PatternsRows, FilterRows, Fill, Introduced, Selects;
    WhereSelects(PatternsRows(g, [row], c.patterns), c.where);
  }

  ghost function EachClauseRow(g: Graph, rows: seq<Row>, c: Clause): (parts: seq<seq<Row>>)
    requires WellFormedAll(c.patterns)
    ensures |parts| == |rows| && forall i | 0 <= i < |rows| :: parts[i] == ClauseRow(g, rows[i], c)
  {
    seq(|rows|, i requires 0 <= i < |rows| => ClauseRow(g, rows[i], c))
  }

  /** The rows of each input row, one after the other. */
  lemma {:induction false} ClauseRowsJoin(g: Graph, rows: seq<Row>, c: Clause)
    requires WellFormedAll(c.patterns)
    ensures ClauseRows(g, rows, c) == Joined(EachClauseRow(g, rows, c))
    decreases |rows|
  {
    hide ClauseRow;
    if rows != [] {
      ClauseRowsJoin(g, rows[..|rows| - 1], c);
      var parts := EachClauseRow(g, rows, c);
      assert parts[..|parts| - 1] == EachClauseRow(g, rows[..|rows| - 1], c);
    }
  }

  /** What MATCH and OPTIONAL MATCH give for a list of rows. */
  lemma ClauseRowsMean(g: Graph, rows: seq<Row>, c: Clause, r: Row)
    requires WellFormedAll(c.patterns)
    ensures r in ClauseRows(g, rows, c) <==>
            exists i :: 0 <= i < |rows| && IsClauseRow(g, rows[i], c, r)
  {
    hide ClauseRow, IsClauseRow;
    ClauseRowsJoin(g, rows, c);
    var parts := EachClauseRow(g, rows, c);
    JoinedHolds(parts, r);
    forall i | 0 <= i < |rows| ensures r in parts[i] <==> IsClauseRow(g, rows[i], c, r) { IsClauseRowIs(g, rows[i], c, r); }
  }

  ghost predicate IsClauseRow(g: Graph, row: Row, c: Clause, r: Row)
    requires WellFormedAll(c.patterns)
  {
    || IsKept(g, row, c, r)
    || (c.optional && (!exists kept :: IsKept(g, row, c, kept)) && IsFilled(row, r, c.patterns))
  }

  lemma IsClauseRowIs(g: Graph, row: Row, c: Clause, r: Row)
    requires WellFormedAll(c.patterns)
    ensures r in ClauseRow(g, row, c) <==> IsClauseRow(g, row, c, r)
  {
    hide ClauseRow, IsKept, IsFilled;
    ClauseRowMeans(g, row, c, r);
  }
}
