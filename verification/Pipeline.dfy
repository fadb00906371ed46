/** A read pipeline of MATCH, OPTIONAL MATCH, UNWIND and WITH, and the theorem that its
    rows do not depend on whether the whole snapshot or the planner's working set
    is matched against. */
module Pipeline {
  import opened Base
  import opened Sorted
  import opened Selections
  import opened MatchGraph
  import opened Walks
  import opened Trails
  import opened Matching
  import opened WorkingSet
  import opened WorkingSetAgreement

  /** A MATCH clause with the scans of its patterns, an UNWIND with its limit, or a WITH,
      which makes new rows out of the rows. */
  datatype Step =
    | Match(clause: Clause, scans: seq<Scan>)
    | Unwind(alias: string, items: Row -> seq<Value>, limit: Option<nat>)
    | With(project: seq<Row> -> seq<Row>)

  /** The nodes inside a value. */
  function NodeIds(v: Value): set<Id> {
    match v
    case NodeRef(n) => {n}
    case PathRef(p) => set n | n in p.nodes
    case List(items) => ItemNodes(items)
    case _ => {}
  }

  function ItemNodes(items: seq<Value>): set<Id> {
    if items == [] then {} else NodeIds(items[0]) + ItemNodes(items[1..])
  }

  function RowNodes(row: Row): set<Id> {
    set name, n | name in row && n in NodeIds(row[name]) :: n
  }

  predicate NoNodes(rows: seq<Row>) {
    forall row | row in rows :: RowNodes(row) == {}
  }

  function UnwindRow(row: Row, alias: string, items: seq<Value>): seq<Row> {
    if items == [] then [] else UnwindRow(row, alias, items[..|items| - 1]) + [row[alias := items[|items| - 1]]]
  }

  function UnwindRows(rows: seq<Row>, alias: string, items: Row -> seq<Value>): seq<Row> {
    if rows == [] then []
    else UnwindRows(rows[..|rows| - 1], alias, items) + UnwindRow(rows[|rows| - 1], alias, items(rows[|rows| - 1]))
  }

  function Cap(rows: seq<Row>, limit: Option<nat>): seq<Row> {
    if limit.Some? && limit.value < |rows| then rows[..limit.value] else rows
  }

  /** The loader gets the scans of the patterns; an UNWIND expression yields no
      node that its row does not hold, and a WITH makes none out of nothing. */
  ghost predicate ValidStep(step: Step) {
    match step
    case Match(clause, scans) =>
      |clause.patterns| == |scans| && forall i | 0 <= i < |scans| :: ScanOf(clause.patterns[i].element, scans[i])
    case Unwind(alias, items, limit) =>
      forall row, v | v in items(row) :: NodeIds(v) <= RowNodes(row)
    case With(project) => forall rows | NoNodes(rows) :: NoNodes(project(rows))
  }

  /** iteratorFallbackReason: a MATCH does not follow a WITH that follows a MATCH. */
  predicate InScope(steps: seq<Step>, seenMatch: bool, boundary: bool)
    decreases steps
  {
    steps == [] ||
    match steps[0]
    case Match(_, _) => !(seenMatch && boundary) && InScope(steps[1..], true, boundary)
    case Unwind(_, _, _) => InScope(steps[1..], seenMatch, boundary)
    case With(_) => InScope(steps[1..], seenMatch, boundary || seenMatch)
  }

  ghost predicate ValidSteps(steps: seq<Step>) {
    forall i | 0 <= i < |steps| :: ValidStep(steps[i])
  }

  ghost function StepRows(g: Graph, rows: seq<Row>, step: Step): seq<Row>
    requires step.Match? ==> WellFormedAll(step.clause.patterns)
  {
    match step
    case Match(clause, scans) => ClauseRows(g, rows, clause)
    case Unwind(alias, items, limit) => Cap(UnwindRows(rows, alias, items), limit)
    case With(project) => project(rows)
  }

  /** The rows of the pipeline, matched against g. */
  ghost function Rows(g: Graph, rows: seq<Row>, steps: seq<Step>): seq<Row>
    requires ValidSteps(steps)
    decreases |steps|
  {
    if steps == [] then rows
    else
      assert ValidStep(steps[0]);
      Rows(g, StepRows(g, rows, steps[0]), steps[1..])
  }

  /** One row for each item, in their order, with the item under the alias. */
  predicate OnePerItem(row: Row, alias: string, items: seq<Value>, part: seq<Row>) {
    |part| == |items| && forall j | 0 <= j < |items| :: part[j] == row[alias := items[j]]
  }

  lemma {:induction false} UnwoundRowIs(row: Row, alias: string, items: seq<Value>)
    ensures OnePerItem(row, alias, items, UnwindRow(row, alias, items))
  {
    if items != [] { UnwoundRowIs(row, alias, items[..|items| - 1]); }
  }

  lemma {:induction false} UnwoundAre(rows: seq<Row>, alias: string, items: Row -> seq<Value>) returns (parts: seq<seq<Row>>)
    ensures |parts| == |rows| && UnwindRows(rows, alias, items) == Joined(parts)
    ensures forall i | 0 <= i < |rows| :: OnePerItem(rows[i], alias, items(rows[i]), parts[i])
  {
    hide OnePerItem, UnwindRow;
    parts := [];
    if rows != [] {
      var n := |rows| - 1;
      var before := UnwoundAre(rows[..n], alias, items);
      UnwoundRowIs(rows[n], alias, items(rows[n]));
      parts := before + [UnwindRow(rows[n], alias, items(rows[n]))];
      assert parts[..n] == before;
      forall i | 0 <= i < |rows| ensures OnePerItem(rows[i], alias, items(rows[i]), parts[i]) {
        if i < n { assert rows[..n][i] == rows[i]; }
      }
    }
  }

  /** What a step makes of its rows: a MATCH the rows of the clause, an UNWIND one row for
      each item of each row, in order and at most as many as its limit, and a WITH what it
      projects. */
  ghost predicate StepGives(g: Graph, rows: seq<Row>, step: Step, next: seq<Row>)
    requires step.Match? ==> WellFormedAll(step.clause.patterns)
  {
    match step
    case Match(clause, _) => next == ClauseRows(g, rows, clause)
    case Unwind(alias, items, limit) =>
      exists parts :: |parts| == |rows| && (forall i | 0 <= i < |rows| :: OnePerItem(rows[i], alias, items(rows[i]), parts[i]))
                      && next <= Joined(parts)
                      && |next| == (if limit.Some? && limit.value < |Joined(parts)| then limit.value else |Joined(parts)|)
    case With(project) => next == project(rows)
  }

  lemma StepMeans(g: Graph, rows: seq<Row>, step: Step)
    requires ValidStep(step)
    ensures StepGives(g, rows, step, StepRows(g, rows, step))
  {
    hide OnePerItem, UnwindRows, ClauseRows;
    if step.Unwind? { var parts := UnwoundAre(rows, step.alias, step.items); }
  }

  /** The rows of a pipeline go through all its steps, one after the other. */
  lemma {:induction false} RowsMean(g: Graph, rows: seq<Row>, steps: seq<Step>) returns (states: seq<seq<Row>>)
    requires ValidSteps(steps)
    ensures |states| == |steps| + 1 && states[0] == rows && states[|steps|] == Rows(g, rows, steps)
    ensures forall i | 0 <= i < |steps| :: ValidStep(steps[i]) && StepGives(g, states[i], steps[i], states[i + 1])
    decreases |steps|
  {
    hide StepGives, StepRows;
    states := [rows];
    if steps != [] {
      var next := NextRows(g, rows, steps[0]);
      var later := RowsMean(g, next, steps[1..]);
      states := [rows] + later;
      forall i | 0 <= i < |steps| ensures ValidStep(steps[i]) && StepGives(g, states[i], steps[i], states[i + 1]) {
        if i > 0 { assert steps[1..][i - 1] == steps[i] && states[i] == later[i - 1] && states[i + 1] == later[i]; }
      }
    }
  }

  lemma NextRows(g: Graph, rows: seq<Row>, step: Step) returns (next: seq<Row>)
    requires ValidStep(step)
    ensures next == StepRows(g, rows, step) && StepGives(g, rows, step, next)
  {
    StepMeans(g, rows, step);
    next := StepRows(g, rows, step);
  }

  function ScansOf(step: Step): seq<Scan> {
    if step.Match? then step.scans else []
  }

  ghost function Load(g: Graph, w: Loaded, steps: seq<Step>): Loaded
    requires ValidSteps(steps)
    decreases |steps|
  {
    if steps == [] then w
    else
      assert ValidStep(steps[0]);
      Load(g, LoadPatterns(g, w, ScansOf(steps[0])), steps[1..])
  }

  /** loadReadWorkingSet collects all patterns first and then loads them. */
  function AllScans(steps: seq<Step>): seq<Scan> {
    if steps == [] then [] else ScansOf(steps[0]) + AllScans(steps[1..])
  }

  lemma {:induction false} LoadAppend(g: Graph, w: Loaded, a: seq<Scan>, b: seq<Scan>)
    requires ValidScans(a) && ValidScans(b)
    ensures ValidScans(a + b) && LoadPatterns(g, w, a + b) == LoadPatterns(g, LoadPatterns(g, w, a), b)
    decreases |a|
  {
    if a == [] {
      assert a + b == b;
    } else {
      assert (a + b)[1..] == a[1..] + b;
      LoadAppend(g, LoadPattern(g, w, a[0]), a[1..], b);
    }
  }

  lemma {:induction false} LoadIsLoadPatterns(g: Graph, w: Loaded, steps: seq<Step>)
    requires ValidSteps(steps)
    ensures ValidScans(AllScans(steps)) && Load(g, w, steps) == LoadPatterns(g, w, AllScans(steps))
    decreases |steps|
  {
    if steps != [] {
      assert ValidStep(steps[0]);
      var v := LoadPatterns(g, w, ScansOf(steps[0]));
      LoadIsLoadPatterns(g, v, steps[1..]);
      LoadAppend(g, w, ScansOf(steps[0]), AllScans(steps[1..]));
    }
  }

  lemma StepScansAreValid(step: Step)
    requires ValidStep(step)
    ensures ValidScans(ScansOf(step)) && (step.Match? ==> WellFormedAll(step.clause.patterns))
  {
  }

  // ---- names ----

  function NodeNames(scans: seq<Scan>): set<string> {
    if scans == [] then {} else (set x | x in scans[0].names) + NodeNames(scans[1..])
  }

  /** The node variables of the OPTIONAL patterns. */
  function OptionalNames(steps: seq<Step>): set<string> {
    if steps == [] then {}
    else (if steps[0].Match? && steps[0].clause.optional then NodeNames(steps[0].scans) else {}) + OptionalNames(steps[1..])
  }

  /** No UNWIND gives a value to a node variable of an earlier pattern or of an
      OPTIONAL one. */
  predicate SafeAliases(steps: seq<Step>, earlier: set<string>, optional: set<string>)
    decreases |steps|
  {
    steps == [] ||
    match steps[0]
    case Match(clause, scans) => SafeAliases(steps[1..], earlier + NodeNames(scans), optional)
    case Unwind(alias, items, limit) => alias !in earlier && alias !in optional && SafeAliases(steps[1..], earlier, optional)
    case With(_) => SafeAliases(steps[1..], earlier, optional)
  }

  // ---- rows that fit what has been loaded ----

  /** Names with candidate sets are bound; a node they are bound to is a candidate;
      and a name of an OPTIONAL pattern is bound to a node only by a pattern. */
  ghost predicate RowFits(g: Graph, w: Loaded, optional: set<string>, row: Row) {
    && (forall name | name in w.bindings :: name in row)
    && (forall name | name in row && row[name].NodeRef? :: NodeFits(w, optional, name, row[name].node))
    && (forall name | name in row :: NodeIds(row[name]) <= g.nodes)
  }

  predicate NodeFits(w: Loaded, optional: set<string>, name: string, n: Id) {
    (name in w.bindings ==> n in w.bindings[name]) && (name in optional ==> name in w.bindings)
  }

  ghost predicate AllFit(g: Graph, w: Loaded, optional: set<string>, rows: seq<Row>) {
    forall row | row in rows :: RowFits(g, w, optional, row)
  }

  predicate BoundIn(w: Loaded, row: Row, name: string) {
    name in row && row[name].NodeRef? && name in w.bindings && row[name].node in w.bindings[name]
  }

  lemma {:induction false} StretchClimbs(g: Graph, f: Frame, s: Scan, p: Path, base: nat, k: nat, frontier: set<Id>)
    requires f.g == g && f.i < |f.el.rels| && ScanOf(f.el, s) && Shaped(p) && base + k <= |p.edges|
    requires Stretch(f, p, base, base + k) && p.nodes[base] in frontier
    ensures p.nodes[base + k] in Level(g, s.rels[f.i], frontier, k)
  {
    if k > 0 {
      StretchClimbs(g, f, s, p, base, k - 1, frontier);
      assert Admitted(f, p, base + k - 1);
      EdgePasses(f.el, s, f.i, f.row, p.edges[base + k - 1]);
      HopReaches(g, s.rels[f.i], Level(g, s.rels[f.i], frontier, k - 1), p.nodes[base + k - 1], p.edges[base + k - 1], p.nodes[base + k]);
    }
  }

  /** What a row of a match adds to the row before: nodes of the frontiers under the
      pattern's node names, and no other node. */
  ghost predicate Adds(g: Graph, w: Loaded, s: Scan, i: nat, row: Row, after: Row)
    requires ValidScan(s)
  {
    && (forall name | name in row :: name in after && after[name] == row[name])
    && (forall name | name in after && name !in row && after[name].NodeRef? :: name != "" && name in s.names)
    && (forall name | name in after && name !in row :: NodeIds(after[name]) <= g.nodes)
    && (forall j | i < j <= |s.rels| && s.names[j] != "" :: BoundIn(w, after, s.names[j]))
  }

  /** The target of a fitting stop is a candidate of the next frontier. */
  lemma TargetIsCandidate(g: Graph, w: Loaded, f: Frame, s: Scan, path: Path, m: Trails.Match, frontier: set<Id>)
    requires ValidFrame(f) && f.g == g && ScanOf(f.el, s) && Shaped(path) && f.base == |path.edges| && End(path) in frontier
    requires f.lo == s.rels[f.i].lower && f.hi == s.rels[f.i].upper && FitsFrom(f, path, m)
    ensures End(Prefix(m.path, m.cuts[f.i])) in TargetsWithin(g, s.rels[f.i], s.nodes[f.i + 1], frontier, f.hi)
  {
    hide Fits, TargetsWithin, Level;
    var stop := Prefix(m.path, m.cuts[f.i]);
    var k := m.cuts[f.i] - f.base;
    assert Prefix(m.path, |path.edges|).nodes[|path.edges|] == m.path.nodes[|path.edges|];
    StretchClimbs(g, f, s, m.path, f.base, k, frontier);
    assert f.el.nodes[f.i + 1].test(f.row, End(stop));
    assert NodePasses(s.nodes[f.i + 1], End(stop));
    ReachIsLoaded(g, s.rels[f.i], s.nodes[f.i + 1], frontier, k, f.hi);
  }

  lemma {:induction false} MatchAdds(g: Graph, w: Loaded, el: Element, s: Scan, i: nat, row: Row, path: Path,
          cuts: seq<nat>, frontier: set<Id>, m: Trails.Match)
    requires ScanOf(el, s) && i <= |el.rels| && |cuts| == i && Shaped(path) && End(path) in frontier
    requires Covers(g, w, s, i, frontier) && Fits(g, el, i, row, path, cuts, m) && frontier <= g.nodes
    ensures Adds(g, w, s, i, row, m.row)
    decreases |el.rels| - i
  {
    hide TargetsWithin, EdgesWithin, NodesWithin;
    if i < |el.rels| {
      var r := s.rels[i];
      assert Bounds(el.rels[i], row, |g.edges|) == (r.lower, r.upper);
      var f := Frame(g, el, i, |path.edges|, r.lower, r.upper, row, cuts);
      assert FitsFrom(f, path, m);
      var stop := Prefix(m.path, m.cuts[i]);
      assert FitsStop(f, stop, m);
      TargetIsCandidate(g, w, f, s, path, m, frontier);
      var after := BindHop(el, i, row, f.base, stop).value;
      var next := TargetsWithin(g, r, s.nodes[i + 1], frontier, r.upper);
      WithinLevels(g, r, s.nodes[i + 1], frontier, r.upper);
      MatchAdds(g, w, el, s, i + 1, after, stop, cuts + [|stop.edges|], next, m);
      HopAdds(g, w, el, s, i, row, f.base, stop, after, m.row, next);
    }
  }

  lemma {:induction false} EdgeListHasNoNodes(edges: seq<Id>)
    ensures ItemNodes(EdgeList(edges)) == {}
  {
    if edges != [] {
      assert EdgeList(edges)[1..] == EdgeList(edges[1..]);
      EdgeListHasNoNodes(edges[1..]);
    }
  }

  lemma RelValueHasNoNodes(rel: RelPattern, base: nat, path: Path)
    requires base <= |path.edges|
    ensures NodeIds(RelValue(rel, base, path)) == {}
  {
    EdgeListHasNoNodes(path.edges[base..]);
  }

  /** A match stays in the graph. */
  lemma {:induction false} MatchInGraph(g: Graph, el: Element, i: nat, row: Row, path: Path, cuts: seq<nat>,
          m: Trails.Match)
    requires WellFormed(el) && i <= |el.rels| && |cuts| == i && Shaped(path) && Fits(g, el, i, row, path, cuts, m)
    requires forall n | n in path.nodes :: n in g.nodes
    ensures forall n | n in m.path.nodes :: n in g.nodes
    decreases |el.rels| - i
  {
    if i < |el.rels| {
      var (lo, hi) := Bounds(el.rels[i], row, |g.edges|);
      var f := Frame(g, el, i, |path.edges|, lo, hi, row, cuts);
      var stop := Prefix(m.path, m.cuts[i]);
      assert FitsFrom(f, path, m) && FitsStop(f, stop, m);
      forall k | 0 <= k < |stop.nodes| ensures stop.nodes[k] in g.nodes {
        if k <= |path.edges| {
          assert Prefix(m.path, |path.edges|).nodes[k] == path.nodes[k];
        } else {
          assert Admitted(f, m.path, k - 1);
        }
      }
      MatchInGraph(g, el, i + 1, BindHop(el, i, row, f.base, stop).value, stop, cuts + [|stop.edges|], m);
    }
  }

  lemma HopAdds(g: Graph, w: Loaded, el: Element, s: Scan, i: nat, row: Row, base: nat, stop: Path, after: Row,
          final: Row, next: set<Id>)
    requires ScanOf(el, s) && i < |el.rels| && Shaped(stop) && base <= |stop.edges|
    requires BindHop(el, i, row, base, stop) == Some(after) && End(stop) in next && Holds(w, s.names[i + 1], next)
    requires Adds(g, w, s, i + 1, after, final) && next <= g.nodes
    ensures Adds(g, w, s, i, row, final)
  {
    RelValueHasNoNodes(el.rels[i], base, stop);
    var target := Bind(row, el.nodes[i + 1].variable, NodeRef(End(stop))).value;
    assert s.names[i + 1] == el.nodes[i + 1].variable;
    assert s.names[i + 1] in s.names;
    if s.names[i + 1] != "" { assert after[s.names[i + 1]] == NodeRef(End(stop)); }
  }

  // ---- one pattern ----

  lemma FitsAfter(g: Graph, w: Loaded, v: Loaded, s: Scan, optional: set<string>, row: Row, c: Id, next: Row,
          mid: Row, name: string, path: Path, final: Row)
    requires ValidScan(s) && RowFits(g, w, optional, row) && Grows(w, v) && OnlyNames(w, v, s) && Within(g, v)
    requires Bind(row, s.names[0], NodeRef(c)) == Some(next) && c in g.nodes && Holds(v, s.names[0], {c})
    requires Adds(g, v, s, 0, next, mid) && Bind(mid, name, PathRef(path)) == Some(final)
    requires forall n | n in path.nodes :: n in g.nodes
    ensures RowFits(g, v, optional, final)
  {
    forall j | 0 <= j < |s.names| && s.names[j] != "" ensures BoundIn(v, final, s.names[j]) {
      if j > 0 { assert BoundIn(v, mid, s.names[j]); } else { assert next[s.names[0]] == NodeRef(c); }
    }
    forall x | x in final && final[x].NodeRef? ensures NodeFits(v, optional, x, final[x].node) {
      if x in s.names && x != "" {
        var j :| 0 <= j < |s.names| && s.names[j] == x;
        assert BoundIn(v, final, s.names[j]);
      } else {
        assert x in row && final[x] == row[x];
        assert NodeFits(w, optional, x, row[x].node);
      }
    }
    forall x | x in v.bindings ensures x in final {
      if x in s.names {
        var j :| 0 <= j < |s.names| && s.names[j] == x;
        assert BoundIn(v, final, s.names[j]);
      }
    }
  }

  lemma {:induction false} BindPathsHolds(matches: seq<Trails.Match>, name: string, r: Row) returns (m: Trails.Match)
    requires r in BindPaths(Keep(matches), name)
    ensures m in matches && Bind(m.row, name, PathRef(m.path)) == Some(r)
  {
    m := matches[|matches| - 1];
    if Bind(m.row, name, PathRef(m.path)) != Some(r) {
      m := BindPathsHolds(matches[..|matches| - 1], name, r);
    }
  }

  /** The candidates are the same, and all of them are in the loader's frontier. */
  lemma CandidatesAgree(g: Graph, w: Loaded, final: Loaded, el: Element, s: Scan, optional: set<string>, row: Row)
    requires ScanOf(el, s) && Within(g, w) && RowFits(g, w, optional, row) && Grows(LoadPattern(g, w, s), final) && Within(g, final)
    ensures Candidates(WorkingGraph(g, final), row, el.nodes[0]) == Candidates(g, row, el.nodes[0])
    ensures forall c | c in Candidates(g, row, el.nodes[0]) :: c in Root(g, w, s.names[0], s.nodes[0])
  {
    LoadCovers(g, w, s);
    var root := Root(g, w, s.names[0], s.nodes[0]);
    var name, test := el.nodes[0].variable, el.nodes[0].test;
    assert s.names[0] == name;
    forall n | test(row, n) ensures NodePasses(s.nodes[0], n) { }
    if name != "" && name in row {
      if row[name].NodeRef? { assert NodeFits(w, optional, name, row[name].node); }
    } else {
      assert Bound(w, name) == {};
      var wg := WorkingGraph(g, final);
      assert (set n | n in wg.nodes && test(row, n)) == (set n | n in g.nodes && test(row, n));
      SortedHolds(set n | n in g.nodes && test(row, n));
    }
  }

  lemma CandidateAgrees(g: Graph, w: Loaded, final: Loaded, p: Pattern, s: Scan, row: Row, c: Id)
    requires ScanOf(p.element, s) && Within(g, w) && Grows(LoadPattern(g, w, s), final) && Within(g, final)
    requires c in Root(g, w, s.names[0], s.nodes[0])
    ensures FromCandidate(WorkingGraph(g, final), row, p, c) == FromCandidate(g, row, p, c)
  {
    hide Continue, Expand, LoadPattern, ScanOf, Covers, Grows, Within;
    SameNames(p.element, s);
    var root, v := Root(g, w, s.names[0], s.nodes[0]), LoadPattern(g, w, s);
    LoadCovers(g, w, s);
    var next := Bind(row, p.element.nodes[0].variable, NodeRef(c));
    if next.Some? {
      CoversGrows(g, v, final, s, 0, root);
      ContinueAgrees(g, final, p.element, s, 0, next.value, Path([c], []), [], root);
    }
  }

  lemma RootInGraph(g: Graph, w: Loaded, s: Scan)
    requires ValidScan(s) && Within(g, w)
    ensures Root(g, w, s.names[0], s.nodes[0]) <= g.nodes
  {
  }

  lemma CandidateFits(g: Graph, w: Loaded, p: Pattern, s: Scan, optional: set<string>, row: Row, c: Id)
    requires ScanOf(p.element, s) && Within(g, w) && RowFits(g, w, optional, row)
    requires c in Root(g, w, s.names[0], s.nodes[0])
    ensures AllFit(g, LoadPattern(g, w, s), optional, FromCandidate(g, row, p, c))
  {
    hide Continue, Expand, LoadPattern, ScanOf, RowFits, Fits, Root, Grows, Within;
    SameNames(p.element, s);
    var root, v := Root(g, w, s.names[0], s.nodes[0]), LoadPattern(g, w, s);
    LoadCovers(g, w, s);
    RootInGraph(g, w, s);
    var next := Bind(row, p.element.nodes[0].variable, NodeRef(c));
    if next.Some? {
      var start := Path([c], []);
      ContinueIsExact(g, p.element, 0, next.value, start, []);
      var matches := Continue(g, p.element, 0, next.value, start, []);
      forall r | r in FromCandidate(g, row, p, c) ensures RowFits(g, v, optional, r) {
        var m := BindPathsHolds(matches, p.variable, r);
        MatchInGraph(g, p.element, 0, next.value, start, [], m);
        MatchAdds(g, v, p.element, s, 0, next.value, start, [], root, m);
        FitsAfter(g, w, v, s, optional, row, c, next.value, m.row, p.variable, m.path, r);
      }
    }
  }

  lemma SameNames(el: Element, s: Scan)
    requires ScanOf(el, s)
    ensures ValidScan(s) && WellFormed(el) && |el.rels| == |s.rels| && s.names[0] == el.nodes[0].variable
  {
  }

  lemma {:induction false} FromCandidatesAgree(g: Graph, w: Loaded, final: Loaded, p: Pattern, s: Scan,
          optional: set<string>, row: Row, candidates: seq<Id>)
    requires ScanOf(p.element, s) && Within(g, w) && RowFits(g, w, optional, row) && Grows(LoadPattern(g, w, s), final) && Within(g, final)
    requires forall c | c in candidates :: c in Root(g, w, s.names[0], s.nodes[0])
    ensures FromCandidates(WorkingGraph(g, final), row, p, candidates) == FromCandidates(g, row, p, candidates)
    ensures AllFit(g, LoadPattern(g, w, s), optional, FromCandidates(g, row, p, candidates))
    decreases |candidates|
  {
    hide FromCandidate, LoadPattern, RowFits, Root, ScanOf, Grows, Within, WorkingGraph;
    if candidates != [] {
      var n := |candidates| - 1;
      SameNames(p.element, s);
      assert candidates[n] in candidates;
      FromCandidatesAgree(g, w, final, p, s, optional, row, candidates[..n]);
      CandidateAgrees(g, w, final, p, s, row, candidates[n]);
      CandidateFits(g, w, p, s, optional, row, candidates[n]);
    }
  }

  lemma {:induction false} PatternRowsAgree(g: Graph, w: Loaded, final: Loaded, p: Pattern, s: Scan,
          optional: set<string>, rows: seq<Row>)
    requires ScanOf(p.element, s) && Within(g, w) && AllFit(g, w, optional, rows) && Grows(LoadPattern(g, w, s), final) && Within(g, final)
    ensures PatternRows(WorkingGraph(g, final), rows, p) == PatternRows(g, rows, p)
    ensures AllFit(g, LoadPattern(g, w, s), optional, PatternRows(g, rows, p))
    decreases |rows|
  {
    hide FromCandidates, LoadPattern, RowFits, Root, ScanOf, Grows, Within, WorkingGraph, Candidates;
    if rows != [] {
      var n := |rows| - 1;
      assert rows[n] in rows;
      SameNames(p.element, s);
      PatternRowsAgree(g, w, final, p, s, optional, rows[..n]);
      CandidatesAgree(g, w, final, p.element, s, optional, rows[n]);
      FromCandidatesAgree(g, w, final, p, s, optional, rows[n], Candidates(g, rows[n], p.element.nodes[0]));
    }
  }

  // ---- one clause ----

  ghost predicate ScansOfAll(patterns: seq<Pattern>, scans: seq<Scan>) {
    |patterns| == |scans| && forall i | 0 <= i < |scans| :: ScanOf(patterns[i].element, scans[i])
  }

  lemma {:induction false} LoadsGrow(g: Graph, w: Loaded, scans: seq<Scan>)
    requires ValidScans(scans) && Within(g, w)
    ensures var v := LoadPatterns(g, w, scans);
            Within(g, v) && Grows(w, v) && forall x | x in v.bindings :: x in w.bindings || x in NodeNames(scans)
    decreases |scans|
  {
    hide LoadPattern;
    if scans != [] {
      LoadCovers(g, w, scans[0]);
      LoadsGrow(g, LoadPattern(g, w, scans[0]), scans[1..]);
    }
  }

  lemma {:induction false} PatternsAgree(g: Graph, w: Loaded, final: Loaded, patterns: seq<Pattern>,
          scans: seq<Scan>, optional: set<string>, rows: seq<Row>)
    requires ScansOfAll(patterns, scans) && ValidScans(scans) && WellFormedAll(patterns) && Within(g, w) && AllFit(g, w, optional, rows)
    requires Grows(LoadPatterns(g, w, scans), final) && Within(g, final)
    ensures PatternsRows(WorkingGraph(g, final), rows, patterns) == PatternsRows(g, rows, patterns)
    ensures AllFit(g, LoadPatterns(g, w, scans), optional, PatternsRows(g, rows, patterns))
    decreases |patterns|
  {
    hide PatternRows, LoadPattern, RowFits, ScanOf, WorkingGraph;
    if patterns != [] {
      var v := LoadPattern(g, w, scans[0]);
      LoadCovers(g, w, scans[0]);
      LoadsGrow(g, v, scans[1..]);
      PatternRowsAgree(g, w, final, patterns[0], scans[0], optional, rows);
      PatternsAgree(g, v, final, patterns[1..], scans[1..], optional, PatternRows(g, rows, patterns[0]));
    }
  }

  lemma {:induction false} FilterHolds(rows: seq<Row>, where: Row -> bool)
    ensures forall r | r in FilterRows(rows, where) :: r in rows
  {
    if rows != [] { FilterHolds(rows[..|rows| - 1], where); }
  }

  lemma {:induction false} NamesAreIntroduced(patterns: seq<Pattern>, scans: seq<Scan>, name: string)
    requires ScansOfAll(patterns, scans) && name != "" && name in NodeNames(scans)
    ensures name in Introduced(patterns)
    decreases |scans|
  {
    if name in scans[0].names {
      var j :| 0 <= j < |scans[0].names| && scans[0].names[j] == name;
      SameNamesAt(patterns[0].element, scans[0], j);
    } else {
      assert ScansOfAll(patterns[1..], scans[1..]);
      NamesAreIntroduced(patterns[1..], scans[1..], name);
    }
  }

  lemma SameNamesAt(el: Element, s: Scan, j: nat)
    requires ScanOf(el, s) && j < |s.names|
    ensures |el.nodes| == |s.names| && s.names[j] == el.nodes[j].variable
    ensures s.names[j] in ElementNames(el)
  {
    assert |el.nodes| == |s.names| && el.nodes[j].variable == s.names[j];
  }

  /** The row of an OPTIONAL MATCH without a match. */
  lemma FillFits(g: Graph, w: Loaded, v: Loaded, patterns: seq<Pattern>, scans: seq<Scan>, optional: set<string>,
          row: Row)
    requires ScansOfAll(patterns, scans) && RowFits(g, w, optional, row) && Grows(w, v) && Within(g, v)
    requires forall x | x in v.bindings :: x in w.bindings || x in NodeNames(scans)
    requires NodeNames(scans) <= optional
    ensures RowFits(g, v, optional, Fill(row, Introduced(patterns)))
  {
    var filled := Fill(row, Introduced(patterns));
    forall x | x in v.bindings ensures x in filled {
      if x !in w.bindings { NamesAreIntroduced(patterns, scans, x); }
    }
    forall x | x in filled && filled[x].NodeRef? ensures NodeFits(v, optional, x, filled[x].node) {
      assert x in row;
      assert NodeFits(w, optional, x, row[x].node);
    }
  }

  lemma ClauseRowAgrees(g: Graph, w: Loaded, final: Loaded, c: Clause, scans: seq<Scan>, optional: set<string>, row: Row)
    requires ScansOfAll(c.patterns, scans) && ValidScans(scans) && WellFormedAll(c.patterns) && Within(g, w) && RowFits(g, w, optional, row)
    requires Grows(LoadPatterns(g, w, scans), final) && Within(g, final)
    requires c.optional ==> NodeNames(scans) <= optional
    ensures ClauseRow(WorkingGraph(g, final), row, c) == ClauseRow(g, row, c)
    ensures AllFit(g, LoadPatterns(g, w, scans), optional, ClauseRow(g, row, c))
  {
    hide LoadPatterns, RowFits, PatternsRows, NodeNames, Introduced, ScanOf, Fill;
    PatternsAgree(g, w, final, c.patterns, scans, optional, [row]);
    FilterHolds(PatternsRows(g, [row], c.patterns), c.where);
    LoadsGrow(g, w, scans);
    if c.optional { FillFits(g, w, LoadPatterns(g, w, scans), c.patterns, scans, optional, row); }
  }

  lemma {:induction false} ClauseRowsAgree(g: Graph, w: Loaded, final: Loaded, c: Clause, scans: seq<Scan>,
          optional: set<string>, rows: seq<Row>)
    requires ScansOfAll(c.patterns, scans) && ValidScans(scans) && WellFormedAll(c.patterns) && Within(g, w) && AllFit(g, w, optional, rows)
    requires Grows(LoadPatterns(g, w, scans), final) && Within(g, final)
    requires c.optional ==> NodeNames(scans) <= optional
    ensures ClauseRows(WorkingGraph(g, final), rows, c) == ClauseRows(g, rows, c)
    ensures AllFit(g, LoadPatterns(g, w, scans), optional, ClauseRows(g, rows, c))
    decreases |rows|
  {
    hide LoadPatterns, RowFits, ClauseRow, NodeNames, ScanOf, WorkingGraph, Grows, Within;
    if rows != [] {
      assert rows[|rows| - 1] in rows;
      ClauseRowsAgree(g, w, final, c, scans, optional, rows[..|rows| - 1]);
      ClauseRowAgrees(g, w, final, c, scans, optional, rows[|rows| - 1]);
    }
  }

  // ---- UNWIND ----

  lemma {:induction false} UnwindRowHolds(row: Row, alias: string, items: seq<Value>, r: Row) returns (x: Value)
    requires r in UnwindRow(row, alias, items)
    ensures x in items && r == row[alias := x]
  {
    x := items[|items| - 1];
    if r != row[alias := x] { x := UnwindRowHolds(row, alias, items[..|items| - 1], r); }
  }

  lemma {:induction false} UnwindFits(g: Graph, w: Loaded, optional: set<string>, rows: seq<Row>, step: Step)
    requires step.Unwind? && ValidStep(step) && AllFit(g, w, optional, rows)
    requires step.alias !in w.bindings && step.alias !in optional
    ensures AllFit(g, w, optional, UnwindRows(rows, step.alias, step.items))
    decreases |rows|
  {
    if rows != [] {
      var row := rows[|rows| - 1];
      assert row in rows;
      UnwindFits(g, w, optional, rows[..|rows| - 1], step);
      forall r | r in UnwindRow(row, step.alias, step.items(row)) ensures RowFits(g, w, optional, r) {
        var x := UnwindRowHolds(row, step.alias, step.items(row), r);
        ReboundFits(g, w, optional, row, step, x);
      }
    }
  }

  lemma ReboundFits(g: Graph, w: Loaded, optional: set<string>, row: Row, step: Step, x: Value)
    requires step.Unwind? && ValidStep(step) && RowFits(g, w, optional, row) && x in step.items(row)
    requires step.alias !in w.bindings && step.alias !in optional
    ensures RowFits(g, w, optional, row[step.alias := x])
  {
    var r := row[step.alias := x];
    forall name | name in r && r[name].NodeRef? ensures NodeFits(w, optional, name, r[name].node) {
      if name != step.alias { assert NodeFits(w, optional, name, row[name].node); }
    }
    assert NodeIds(x) <= RowNodes(row);
  }

  // ---- the pipeline ----

  lemma {:induction false} StepsAgree(g: Graph, w: Loaded, steps: seq<Step>, rows: seq<Row>, seen: bool, earlier: set<string>,
          optional: set<string>, final: Loaded)
    requires ValidSteps(steps) && Within(g, w) && AllFit(g, w, optional, rows) && InScope(steps, seen, false)
    requires !seen ==> w.bindings == map[] && NoNodes(rows)
    requires SafeAliases(steps, earlier, optional) && OptionalNames(steps) <= optional && w.bindings.Keys <= earlier
    requires final == Load(g, w, steps)
    ensures Rows(WorkingGraph(g, final), rows, steps) == Rows(g, rows, steps)
    ensures Within(g, final) && Grows(w, final)
    decreases |steps|
  {
    hide ClauseRows, LoadPatterns, RowFits, NodeNames, ScanOf, WorkingGraph, InScope, RowNodes;
    if steps != [] {
      assert ValidStep(steps[0]);
      StepScansAreValid(steps[0]);
      var v := LoadPatterns(g, w, ScansOf(steps[0]));
      StepAgrees(g, w, v, steps, rows, seen, earlier, optional, final);
    }
  }

  /** The first step, and the rest by induction. */
  lemma {:induction false} StepAgrees(g: Graph, w: Loaded, v: Loaded, steps: seq<Step>, rows: seq<Row>, seen: bool,
          earlier: set<string>, optional: set<string>, final: Loaded)
    requires steps != [] && ValidSteps(steps) && ValidScans(ScansOf(steps[0])) && Within(g, w) && AllFit(g, w, optional, rows)
    requires InScope(steps, seen, false) && (!seen ==> w.bindings == map[] && NoNodes(rows))
    requires SafeAliases(steps, earlier, optional) && OptionalNames(steps) <= optional && w.bindings.Keys <= earlier
    requires v == LoadPatterns(g, w, ScansOf(steps[0])) && final == Load(g, v, steps[1..])
    ensures Rows(WorkingGraph(g, final), rows, steps) == Rows(g, rows, steps)
    ensures Within(g, final) && Grows(w, final)
    decreases |steps|, 0
  {
    hide ClauseRows, LoadPatterns, RowFits, NodeNames, ScanOf, WorkingGraph, Load, UnwindRows, NoNodes, AllFit;
    var step := steps[0];
    assert ValidStep(step);
    StepScansAreValid(step);
    LoadsGrow(g, w, ScansOf(step));
    var after := StepRows(g, rows, step);
    if step.Match? {
      LoadGrows(g, v, steps[1..]);
      ClauseRowsAgree(g, w, final, step.clause, step.scans, optional, rows);
      StepsAgree(g, v, steps[1..], after, true, earlier + NodeNames(step.scans), optional, final);
    } else {
      NothingToLoad(g, w);
      if step.Unwind? {
        UnwindFits(g, w, optional, rows, step);
        CapFits(g, w, optional, UnwindRows(rows, step.alias, step.items), step.limit);
        if !seen { UnwindNoNodes(rows, step); }
        StepsAgree(g, v, steps[1..], after, seen, earlier, optional, final);
      } else if seen {
        LoadGrows(g, v, steps[1..]);
        NoMatchLeft(WorkingGraph(g, final), g, steps[1..], after);
      } else {
        NoNodesFit(g, w, optional, after);
        StepsAgree(g, v, steps[1..], after, seen, earlier, optional, final);
      }
    }
  }

  lemma CapFits(g: Graph, w: Loaded, optional: set<string>, rows: seq<Row>, limit: Option<nat>)
    requires AllFit(g, w, optional, rows)
    ensures AllFit(g, w, optional, Cap(rows, limit))
  {
    hide RowFits;
  }

  /** Before the first MATCH no row holds a node. */
  lemma UnwindNoNodes(rows: seq<Row>, step: Step)
    requires step.Unwind? && ValidStep(step) && NoNodes(rows)
    ensures NoNodes(StepRows(Graph({}, map[]), rows, step))
  {
    UnwoundNoNodes(rows, step);
    hide RowNodes, UnwindRows;
  }

  lemma {:induction false} UnwoundNoNodes(rows: seq<Row>, step: Step)
    requires step.Unwind? && ValidStep(step) && NoNodes(rows)
    ensures NoNodes(UnwindRows(rows, step.alias, step.items))
    decreases |rows|
  {
    if rows != [] {
      var row := rows[|rows| - 1];
      assert row in rows;
      UnwoundNoNodes(rows[..|rows| - 1], step);
      forall r | r in UnwindRow(row, step.alias, step.items(row)) ensures RowNodes(r) == {} {
        var x := UnwindRowHolds(row, step.alias, step.items(row), r);
        ReboundNodes(row, step.alias, x);
        assert NodeIds(x) <= RowNodes(row) == {};
      }
    }
  }

  lemma ReboundNodes(row: Row, alias: string, x: Value)
    ensures RowNodes(row[alias := x]) <= RowNodes(row) + NodeIds(x)
  {
  }

  lemma NoNodesFit(g: Graph, w: Loaded, optional: set<string>, rows: seq<Row>)
    requires NoNodes(rows) && w.bindings == map[]
    ensures AllFit(g, w, optional, rows)
  {
    forall row | row in rows ensures RowFits(g, w, optional, row) {
      forall name | name in row ensures NodeIds(row[name]) == {} {
        forall n | n in NodeIds(row[name]) ensures n in RowNodes(row) { }
      }
    }
  }

  /** With no MATCH left the rows do not depend on the graph. */
  lemma {:induction false} NoMatchLeft(a: Graph, b: Graph, steps: seq<Step>, rows: seq<Row>)
    requires ValidSteps(steps) && InScope(steps, true, true)
    ensures Rows(a, rows, steps) == Rows(b, rows, steps)
    decreases |steps|
  {
    hide UnwindRows;
    if steps != [] {
      assert ValidStep(steps[0]);
      assert StepRows(a, rows, steps[0]) == StepRows(b, rows, steps[0]);
      NoMatchLeft(a, b, steps[1..], StepRows(a, rows, steps[0]));
    }
  }

  lemma NothingToLoad(g: Graph, w: Loaded)
    ensures LoadPatterns(g, w, []) == w
  {
  }

  lemma {:induction false} LoadGrows(g: Graph, w: Loaded, steps: seq<Step>)
    requires ValidSteps(steps) && Within(g, w)
    ensures Within(g, Load(g, w, steps)) && Grows(w, Load(g, w, steps))
    decreases |steps|
  {
    hide LoadPatterns;
    if steps != [] {
      assert ValidStep(steps[0]);
      LoadsGrow(g, w, ScansOf(steps[0]));
      LoadGrows(g, LoadPatterns(g, w, ScansOf(steps[0])), steps[1..]);
    }
  }

  /** The main result: for every query that the planner does not pass on to the whole
      snapshot, with the aliases apart and no OPTIONAL variable bound to a node
      beforehand, the working set gives the rows of the snapshot. */
  lemma WorkingSetIsEnough(g: Graph, steps: seq<Step>)
    requires ValidSteps(steps) && InScope(steps, false, false) && SafeAliases(steps, {}, OptionalNames(steps))
    ensures ValidScans(AllScans(steps))
    ensures Rows(WorkingGraph(g, LoadPatterns(g, EmptyLoad(), AllScans(steps))), [map[]], steps) == Rows(g, [map[]], steps)
  {
    LoadIsLoadPatterns(g, EmptyLoad(), steps);
    NoNodesFit(g, EmptyLoad(), OptionalNames(steps), [map[]]);
    StepsAgree(g, EmptyLoad(), steps, [map[]], false, {}, OptionalNames(steps), Load(g, EmptyLoad(), steps));
  }

  /** Without a WITH every query is in scope. */
  lemma {:induction false} NoWithInScope(steps: seq<Step>, seenMatch: bool)
    requires forall s | s in steps :: !s.With?
    ensures InScope(steps, seenMatch, false)
    decreases steps
  {
    if steps != [] { NoWithInScope(steps[1..], seenMatch || steps[0].Match?); }
  }
}
