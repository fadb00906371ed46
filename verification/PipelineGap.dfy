/** Why the aliases must be apart: an UNWIND that gives a pattern variable another
    node makes the planner fetch the neighbourhood of the wrong one. */
module PipelineGap {
  import opened Base
  import opened Text
  import opened Sorted
  import opened MatchGraph
  import opened Walks
  import opened Trails
  import opened Matching
  import opened WorkingSet
  import opened WorkingSetAgreement
  import opened Pipeline

  const Snapshot := Graph({"1", "2", "3"}, map["f" := Ends("2", "3")])

  function Only(name: string, id: Id): NodePattern {
    NodePattern(name, (row, n) => n == id)
  }

  function Anything(name: string): NodePattern {
    NodePattern(name, (row, n) => true)
  }

  function AnyRel(): RelPattern {
    RelPattern("", Outgoing, None, (row, e) => true)
  }

  function OnlyScan(id: Id): NodeScan {
    NodeScan([n => n == id], n => n == id, false)
  }

  function AnyScan(): NodeScan {
    NodeScan([n => true], n => true, false)
  }

  function Plain(nodes: seq<NodePattern>, rels: seq<RelPattern>): Clause {
    Clause([Pattern("", Element(nodes, rels))], false, row => true)
  }

  /** MATCH (name) for one particular node. */
  function MatchOnly(name: string, id: Id): Step {
    Step.Match(Plain([Only(name, id)], []), [Scan([name], [OnlyScan(id)], [])])
  }

  /** MATCH (a)-->(c) */
  function MatchEdge(): Step {
    Step.Match(Plain([Anything("a"), Anything("c")], [AnyRel()]),
          [Scan(["a", "c"], [AnyScan(), AnyScan()], [RelScan(Outgoing, [e => true], false, 1, 1)])])
  }

  /** UNWIND [b] AS a */
  function UnwindB(): Step {
    Unwind("a", row => if "b" in row then [row["b"]] else [], None)
  }

  function Query(): seq<Step> {
    [MatchOnly("a", "1"), MatchOnly("b", "2"), UnwindB(), MatchEdge()]
  }

  lemma ScansAreValid()
    ensures ValidSteps(Query())
  {
    forall id, n | n == id ensures NodePasses(OnlyScan(id), n) { assert OnlyScan(id).alternatives[0](n); }
    forall n ensures NodePasses(AnyScan(), n) { assert AnyScan().alternatives[0](n); }
    OnlyIsValid("a", "1");
    OnlyIsValid("b", "2");
    EdgeIsValid();
    forall row, v | v in UnwindB().items(row) ensures NodeIds(v) <= RowNodes(row) { }
    assert ValidStep(UnwindB());
  }

  lemma OnlyIsValid(name: string, id: Id)
    requires forall n | n == id :: NodePasses(OnlyScan(id), n)
    ensures ValidStep(MatchOnly(name, id))
  {
  }

  lemma EdgeIsValid()
    requires forall n :: NodePasses(AnyScan(), n)
    ensures ValidStep(MatchEdge())
  {
    var all := MatchEdge().scans[0].rels[0].alternatives;
    forall e ensures Any(all, e) { assert all[0](e); }
  }

  /** A lone node pattern with one candidate extends the row by it. */
  lemma OnlyMatches(g: Graph, row: Row, name: string, id: Id)
    requires name != "" && name !in row && id in g.nodes
    ensures StepRows(g, [row], MatchOnly(name, id)) == [row[name := NodeRef(id)]]
  {
    var c := Plain([Only(name, id)], []);
    var p := c.patterns[0];
    assert (set n | n in g.nodes && p.element.nodes[0].test(row, n)) == {id};
    OneSorted(id);
    assert Candidates(g, row, p.element.nodes[0]) == [id];
    var next := row[name := NodeRef(id)];
    assert Continue(g, p.element, 0, next, Path([id], []), []) == [Trails.Match(next, Path([id], []), [])];
    OneKept(Trails.Match(next, Path([id], []), []));
    assert FromCandidates(g, row, p, []) == [];
    assert FromCandidates(g, row, p, [id]) == [next];
    OneRow(g, row, c);
  }

  lemma OneSorted(id: Id)
    ensures SortedIds({id}) == [id]
  {
    assert {id} - {id} == {};
    assert Least({id}) in {id};
  }

  lemma OneKept(m: Trails.Match)
    ensures Keep([m]) == [Kept(m.row, m.path)] && BindPaths(Keep([m]), "") == [m.row]
  {
    assert Keep([]) == [];
    assert BindPaths([], "") == [];
  }

  /** A clause of one pattern without WHERE, on one row. */
  lemma OneRow(g: Graph, row: Row, c: Clause)
    requires |c.patterns| == 1 && WellFormedAll(c.patterns) && !c.optional && forall r :: c.where(r)
    ensures ClauseRows(g, [row], c) == PatternRow(g, row, c.patterns[0])
  {
    hide PatternRow;
    var p := c.patterns[0];
    assert c.patterns[1..] == [];
    assert PatternRows(g, [row], p) == PatternRows(g, [], p) + PatternRow(g, row, p);
    assert PatternsRows(g, [row], c.patterns) == PatternsRows(g, PatternRows(g, [row], p), []);
    FilterAll(PatternRow(g, row, p), c.where);
    assert PatternRows(g, [], p) == [] && [] + PatternRow(g, row, p) == PatternRow(g, row, p);
    assert ClauseRows(g, [row], c) == ClauseRows(g, [], c) + ClauseRow(g, row, c);
  }

  lemma {:induction false} FilterAll(rows: seq<Row>, where: Row -> bool)
    requires forall r :: where(r)
    ensures FilterRows(rows, where) == rows
  {
    if rows != [] { FilterAll(rows[..|rows| - 1], where); }
  }

  ghost function EdgeMatches(g: Graph, row: Row): seq<Trails.Match> {
    Continue(g, MatchEdge().clause.patterns[0].element, 0, row, Path(["2"], []), [])
  }

  lemma EdgeStep(g: Graph, row: Row)
    requires "a" in row && row["a"] == NodeRef("2")
    ensures StepRows(g, [row], MatchEdge()) == BindPaths(Keep(EdgeMatches(g, row)), "")
  {
    hide Continue, Keep, BindPaths;
    var c := MatchEdge().clause;
    var p := c.patterns[0];
    OneRow(g, row, c);
    assert Candidates(g, row, p.element.nodes[0]) == ["2"];
    assert FromCandidates(g, row, p, []) == [];
    assert FromCandidates(g, row, p, ["2"]) == FromCandidate(g, row, p, "2");
  }

  /** (a)-->(c) from the bound node "2". */
  lemma EdgeRows(g: Graph, row: Row)
    requires "a" in row && row["a"] == NodeRef("2") && "c" !in row
    ensures g.edges == map[] ==> StepRows(g, [row], MatchEdge()) == []
    ensures g == Snapshot ==> StepRows(g, [row], MatchEdge()) != []
  {
    hide Continue, Fits;
    EdgeStep(g, row);
    var el := MatchEdge().clause.patterns[0].element;
    var matches := EdgeMatches(g, row);
    ContinueIsExact(g, el, 0, row, Path(["2"], []), []);
    KeptRows(matches);
    assert matches != [] ==> matches[0] in matches;
    if g.edges == map[] && matches != [] { NoEdgeNoMatch(g, row, matches[0]); }
    if g == Snapshot { SnapshotMatch(row); }
  }

  lemma NoEdgeNoMatch(g: Graph, row: Row, m: Trails.Match)
    requires g.edges == map[]
    ensures !Fits(g, MatchEdge().clause.patterns[0].element, 0, row, Path(["2"], []), [], m)
  {
    var el := MatchEdge().clause.patterns[0].element;
    var f := Frame(g, el, 0, 0, 1, 1, row, []);
    assert Bounds(el.rels[0], row, |g.edges|) == (1, 1);
    assert Shaped(m.path) && |m.path.edges| > 0 ==> !Admitted(f, m.path, 0);
  }

  lemma {:induction false} KeptRows(matches: seq<Trails.Match>)
    ensures |BindPaths(Keep(matches), "")| == |matches|
  {
    if matches != [] { KeptRows(matches[..|matches| - 1]); }
  }

  lemma SnapshotMatch(row: Row)
    requires "a" in row && row["a"] == NodeRef("2") && "c" !in row
    ensures exists m :: Fits(Snapshot, MatchEdge().clause.patterns[0].element, 0, row, Path(["2"], []), [], m)
  {
    var el := MatchEdge().clause.patterns[0].element;
    var path := Path(["2", "3"], ["f"]);
    var f := Frame(Snapshot, el, 0, 0, 1, 1, row, []);
    var after := row["c" := NodeRef("3")];
    assert BindHop(el, 0, row, 0, path) == Some(after);
    var m := Trails.Match(after, path, [1]);
    assert Prefix(path, 0) == Path(["2"], []) && Prefix(path, 1) == path;
    assert Admitted(f, path, 0);
    assert FitsStop(f, path, m);
    assert Bounds(el.rels[0], row, |Snapshot.edges|) == (1, 1);
    assert FitsFrom(f, Path(["2"], []), m);
    assert Fits(Snapshot, el, 0, row, Path(["2"], []), [], m);
  }

  lemma OnlyLoads(w: Loaded, name: string, id: Id)
    requires name != "" && name !in w.bindings && id in Snapshot.nodes
    ensures LoadPattern(Snapshot, w, Scan([name], [OnlyScan(id)], [])) == Loaded(w.nodes + {id}, w.edges, w.bindings[name := {id}])
  {
    var s := Scan([name], [OnlyScan(id)], []);
    assert OnlyScan(id).alternatives[0](id);
    assert Root(Snapshot, w, name, OnlyScan(id)) == {id};
    assert Bound(w, name) == {} && {} + {id} == {id};
    assert AfterRoot(Snapshot, w, s) == Loaded(w.nodes + {id}, w.edges, w.bindings[name := {id}]);
  }

  /** Nothing but the two bound nodes is fetched. */
  lemma LoadedIsSmall()
    requires ValidScans(AllScans(Query()))
    ensures LoadPatterns(Snapshot, EmptyLoad(), AllScans(Query())).edges == {}
    ensures LoadPatterns(Snapshot, EmptyLoad(), AllScans(Query())).nodes == {"1", "2"}
  {
    var s0, s1, s2 := MatchOnly("a", "1").scans[0], MatchOnly("b", "2").scans[0], MatchEdge().scans[0];
    assert AllScans(Query()) == [s0, s1, s2];
    var w0 := Loaded({"1"}, {}, map["a" := {"1"}]);
    var w1 := Loaded({"1", "2"}, {}, map["a" := {"1"}, "b" := {"2"}]);
    OnlyLoads(EmptyLoad(), "a", "1");
    OnlyLoads(w0, "b", "2");
    assert {} + {"1"} == {"1"} && {"1"} + {"2"} == {"1", "2"};
    hide LoadPattern;
    LastLoad(s2, w1);
    assert [s0, s1, s2][1..] == [s1, s2] && [s1, s2][1..] == [s2] && [s2][1..] == [];
    assert LoadPatterns(Snapshot, EmptyLoad(), [s0, s1, s2]) == LoadPatterns(Snapshot, w0, [s1, s2]);
    assert LoadPatterns(Snapshot, w0, [s1, s2]) == LoadPatterns(Snapshot, w1, [s2]);
    assert LoadPatterns(Snapshot, w1, [s2]) == LoadPatterns(Snapshot, LoadPattern(Snapshot, w1, s2), []);
  }

  lemma LastLoad(s: Scan, w: Loaded)
    requires s == MatchEdge().scans[0] && w == Loaded({"1", "2"}, {}, map["a" := {"1"}, "b" := {"2"}])
    ensures ValidScan(s) && LoadPattern(Snapshot, w, s).edges == {} && LoadPattern(Snapshot, w, s).nodes == {"1", "2"}
  {
    var r := s.rels[0];
    assert Root(Snapshot, w, "a", s.nodes[0]) == {"1"};
    assert AfterRoot(Snapshot, w, s).edges == {} && AfterRoot(Snapshot, w, s).nodes == {"1", "2"};
    OneHop(Snapshot, r, s.nodes[1], {"1"});
    assert AdjacentScan(Snapshot, r, {"1"}) == {};
    assert NextLevel(Snapshot, r, {"1"}) == {};
    assert Passing({}, s.nodes[1].base) == {};
  }

  /** The gap: MATCH (a), MATCH (b), UNWIND [b] AS a, MATCH (a)-->(c) finds the edge
      in the snapshot and nothing in the working set. */
  lemma RebindingLosesRows()
    ensures ValidSteps(Query()) && InScope(Query(), false, false) && ValidScans(AllScans(Query()))
    ensures !SafeAliases(Query(), {}, OptionalNames(Query()))
    ensures var loaded := LoadPatterns(Snapshot, EmptyLoad(), AllScans(Query()));
            Rows(Snapshot, [map[]], Query()) != [] && Rows(WorkingGraph(Snapshot, loaded), [map[]], Query()) == []
  {
    ScansAreValid();
    NoWithInScope(Query(), false);
    LoadIsLoadPatterns(Snapshot, EmptyLoad(), Query());
    LoadedIsSmall();
    assert "a" in NodeNames([Scan(["a"], [OnlyScan("1")], [])]);
    QueryRows(Snapshot);
    QueryRows(WorkingGraph(Snapshot, LoadPatterns(Snapshot, EmptyLoad(), AllScans(Query()))));
  }

  lemma QueryRows(g: Graph)
    requires ValidSteps(Query()) && {"1", "2"} <= g.nodes
    ensures g.edges == map[] ==> Rows(g, [map[]], Query()) == []
    ensures g == Snapshot ==> Rows(g, [map[]], Query()) != []
  {
    hide StepRows, MatchEdge, UnwindB, MatchOnly;
    var q := Query();
    var row1: Row := map["a" := NodeRef("1")];
    var row2: Row := map["a" := NodeRef("1"), "b" := NodeRef("2")];
    var row3: Row := map["a" := NodeRef("2"), "b" := NodeRef("2")];
    OnlyMatches(g, map[], "a", "1");
    OnlyMatches(g, row1, "b", "2");
    UnwindStep(g, row2, row3);
    EdgeRows(g, row3);
    assert row1["b" := NodeRef("2")] == row2;
    OneStep(g, [map[]], q);
    OneStep(g, [row1], q[1..]);
    OneStep(g, [row2], q[1..][1..]);
    OneStep(g, [row3], q[1..][1..][1..]);
  }

  lemma OneStep(g: Graph, rows: seq<Row>, steps: seq<Step>)
    requires steps != [] && ValidSteps(steps)
    ensures ValidSteps(steps[1..]) && (steps[0].Match? ==> WellFormedAll(steps[0].clause.patterns))
    ensures Rows(g, rows, steps) == Rows(g, StepRows(g, rows, steps[0]), steps[1..])
  {
    StepScansAreValid(steps[0]);
  }

  lemma UnwindStep(g: Graph, row: Row, after: Row)
    requires "b" in row && after == row["a" := row["b"]]
    ensures StepRows(g, [row], UnwindB()) == [after]
  {
    assert UnwindRow(row, "a", []) == [];
    assert UnwindRow(row, "a", [row["b"]]) == [after];
    assert UnwindRows([], "a", UnwindB().items) == [];
  }
}
