/** buildNodeScanPlan and buildEdgeScanPlan: the scans the planner reads off the
    labels, types and property maps of a pattern, and when they lose no match. */
module Pushdown {
  import opened Base
  import opened MatchGraph
  import opened WorkingSet
  import opened WorkingSetAgreement
  import P = Pipeline
  import T = Trails
  import N = NumericIndex
  import Numbers

  // ---- patterns ----

  /** What a snapshot stores for its nodes and edges. */
  datatype Data = Data(labels: Id -> set<string>, node: Id -> N.Entity, typ: Id -> string, edge: Id -> N.Entity)

  /** A property map that can be evaluated while planning, or only on a row. */
  datatype Wanted = Known(properties: map<string, N.Prop>) | Dynamic(read: T.Row -> map<string, N.Prop>) {
    function On(row: T.Row): map<string, N.Prop> {
      if Known? then properties else read(row)
    }
  }

  datatype NodeShape = NodeShape(variable: string, labels: seq<string>, wanted: Wanted)
  datatype RelShape = RelShape(variable: string, direction: Direction, types: seq<string>, wanted: Wanted, length: Option<(nat, nat)>)
  datatype Shape = Shape(nodes: seq<NodeShape>, rels: seq<RelShape>)

  predicate HasAll(labels: set<string>, wanted: seq<string>) {
    forall l | l in wanted :: l in labels
  }

  predicate HasType(typ: string, types: seq<string>) {
    types == [] || typ in types
  }

  /** nodePatternMatches. */
  predicate NodeTest(d: Data, p: NodeShape, row: T.Row, n: Id) {
    HasAll(d.labels(n), p.labels) && N.Matches(d.node(n), p.wanted.On(row), "body")
  }

  /** relationshipPatternMatches. */
  predicate RelTest(d: Data, p: RelShape, row: T.Row, e: Id) {
    HasType(d.typ(e), p.types) && N.Matches(d.edge(e), p.wanted.On(row), "position")
  }

  /** A node has all the labels of its pattern and what the map asks for; a relationship
      has one of the types, if there are any, and what the map asks for. */
  lemma TestsMean(d: Data, node: NodeShape, rel: RelShape, row: T.Row, n: Id, e: Id)
    ensures NodeTest(d, node, row, n) <==>
            (forall l | l in node.labels :: l in d.labels(n)) && N.AsksFor(d.node(n), node.wanted.On(row), "body")
    ensures RelTest(d, rel, row, e) <==>
            (rel.types == [] || d.typ(e) in rel.types) && N.AsksFor(d.edge(e), rel.wanted.On(row), "position")
  {
    N.MatchesMeans(d.node(n), node.wanted.On(row), "body");
    N.MatchesMeans(d.edge(e), rel.wanted.On(row), "position");
    hide N.Matches, N.AsksFor;
  }

  /** The pattern as the matcher takes it. */
  ghost predicate IsElement(d: Data, p: Shape, el: T.Element) {
    && |el.nodes| == |p.nodes| && |el.rels| == |p.rels| && T.WellFormed(el)
    && (forall i | 0 <= i < |p.nodes| :: IsNode(d, p.nodes[i], el.nodes[i]))
    && (forall i | 0 <= i < |p.rels| :: IsRel(d, p.rels[i], el.rels[i]))
  }

  ghost predicate IsNode(d: Data, p: NodeShape, node: T.NodePattern) {
    node.variable == p.variable && forall row, n :: node.test(row, n) == NodeTest(d, p, row, n)
  }

  ghost predicate IsRel(d: Data, p: RelShape, rel: T.RelPattern) {
    && rel.variable == p.variable && rel.direction == p.direction
    && (forall row, e :: rel.test(row, e) == RelTest(d, p, row, e))
    && (forall row, count :: T.Bounds(rel, row, count) == Lengths(p))
  }

  function Lengths(p: RelShape): (nat, nat) {
    if p.length.None? then (1, 1) else p.length.value
  }

  // ---- plans ----

  /** Without a known map nothing is asked of the index. */
  ghost predicate IsPlanOf(w: Wanted, special: string, toFloat: int -> Numbers.Double, plan: N.Plan) {
    if w.Known? then N.IsPlan(w.properties, special, toFloat, plan)
    else plan == N.Plan(map[], [map[]], "", false, false)
  }

  method PlanOf(w: Wanted, special: string, toFloat: int -> Numbers.Double) returns (plan: N.Plan)
    ensures IsPlanOf(w, special, toFloat, plan)
  {
    hide N.IsPlan;
    if w.Dynamic? { return N.Plan(map[], [map[]], "", false, false); }
    plan := N.BuildPlan(w.properties, special, toFloat);
  }

  function Pushed(names: seq<string>): seq<string> {
    if |names| <= N.MAX_TERMS then names else names[..N.MAX_TERMS]
  }

  /** Types are alternatives: too many of them are not cut but left to the matcher. */
  function PushedTypes(types: seq<string>): seq<string> {
    if |types| <= N.MAX_TERMS then types else []
  }

  function NodeFilter(d: Data, labels: seq<string>, exact: map<string, N.Prop>): Id -> bool {
    n => HasAll(d.labels(n), labels) && N.Satisfies(d.node(n), exact)
  }

  function RelFilter(d: Data, types: seq<string>, exact: map<string, N.Prop>): Id -> bool {
    e => HasType(d.typ(e), types) && N.Satisfies(d.edge(e), exact)
  }

  /** The rows a scan reads have the labels or one of the types, and each property asked
      for in the very representation asked for; the first 256 labels are asked for, and
      types only if there are no more. */
  lemma FiltersMean(d: Data, labels: seq<string>, types: seq<string>, exact: map<string, N.Prop>, id: Id)
    ensures NodeFilter(d, Pushed(labels), exact)(id) <==>
            && (forall i | 0 <= i < |labels| && i < 256 :: labels[i] in d.labels(id))
            && forall k | k in exact :: k in d.node(id).properties && d.node(id).properties[k] == exact[k]
    ensures RelFilter(d, PushedTypes(types), exact)(id) <==>
            && (0 < |types| <= 256 ==> d.typ(id) in types)
            && forall k | k in exact :: k in d.edge(id).properties && d.edge(id).properties[k] == exact[k]
  {
    PushedMeans(d.labels(id), labels);
    hide HasAll, Pushed;
  }

  lemma PushedMeans(labels: set<string>, wanted: seq<string>)
    ensures HasAll(labels, Pushed(wanted)) <==> forall i | 0 <= i < |wanted| && i < 256 :: wanted[i] in labels
  {
    var pushed := Pushed(wanted);
    assert |pushed| <= 256 && forall i | 0 <= i < |pushed| :: pushed[i] == wanted[i];
    if HasAll(labels, pushed) {
      forall i | 0 <= i < |wanted| && i < 256 ensures wanted[i] in labels { assert pushed[i] in pushed; }
    }
  }

  ghost predicate IsNodeScan(d: Data, p: NodeShape, plan: N.Plan, s: NodeScan) {
    && s.empty == plan.empty && s.base == NodeFilter(d, Pushed(p.labels), plan.base)
    && |s.alternatives| == |plan.alternatives|
    && forall i | 0 <= i < |s.alternatives| :: s.alternatives[i] == NodeFilter(d, Pushed(p.labels), plan.alternatives[i])
  }

  ghost predicate IsRelScan(d: Data, p: RelShape, plan: N.Plan, s: RelScan) {
    && s.direction == p.direction && s.variable == p.length.Some? && (s.lower, s.upper) == Lengths(p)
    && |s.alternatives| == |plan.alternatives|
    && forall i | 0 <= i < |s.alternatives| :: s.alternatives[i] == RelFilter(d, PushedTypes(p.types), plan.alternatives[i])
  }

  method BuildNodeScan(d: Data, p: NodeShape, toFloat: int -> Numbers.Double) returns (s: NodeScan, ghost plan: N.Plan)
    ensures IsPlanOf(p.wanted, "body", toFloat, plan) && IsNodeScan(d, p, plan, s)
  {
    hide IsPlanOf, NodeFilter, Pushed;
    var made := PlanOf(p.wanted, "body", toFloat);
    plan := made;
    var alternatives: seq<Id -> bool> := [];
    for i := 0 to |made.alternatives|
      invariant |alternatives| == i
      invariant forall j | 0 <= j < i :: alternatives[j] == NodeFilter(d, Pushed(p.labels), made.alternatives[j])
    {
      alternatives := alternatives + [NodeFilter(d, Pushed(p.labels), made.alternatives[i])];
    }
    s := NodeScan(alternatives, NodeFilter(d, Pushed(p.labels), made.base), made.empty);
  }

  method BuildRelScan(d: Data, p: RelShape, toFloat: int -> Numbers.Double) returns (s: RelScan, ghost plan: N.Plan)
    ensures IsPlanOf(p.wanted, "position", toFloat, plan) && IsRelScan(d, p, plan, s)
  {
    hide IsPlanOf, RelFilter, PushedTypes;
    var made := PlanOf(p.wanted, "position", toFloat);
    plan := made;
    var alternatives: seq<Id -> bool> := [];
    for i := 0 to |made.alternatives|
      invariant |alternatives| == i
      invariant forall j | 0 <= j < i :: alternatives[j] == RelFilter(d, PushedTypes(p.types), made.alternatives[j])
    {
      alternatives := alternatives + [RelFilter(d, PushedTypes(p.types), made.alternatives[i])];
    }
    s := RelScan(p.direction, alternatives, p.length.Some?, Lengths(p).0, Lengths(p).1);
  }

  // ---- what is lost ----

  ghost predicate StoredData(d: Data) {
    (forall n :: N.StoredEntity(d.node(n))) && forall e :: N.StoredEntity(d.edge(e))
  }

  ghost predicate StoredWanted(w: Wanted) {
    w.Known? ==> N.StoredWanted(w.properties)
  }

  /** The plan of a map passes over a match exactly when the match holds a list in the
      place of an equal byte string. */
  lemma PlanPasses(w: Wanted, special: string, toFloat: int -> Numbers.Double, plan: N.Plan, e: N.Entity, row: T.Row)
    requires IsPlanOf(w, special, toFloat, plan) && N.Rounds(toFloat) && StoredWanted(w) && N.StoredEntity(e)
    requires N.Matches(e, w.On(row), special)
    ensures !plan.empty && (N.Covers(plan, e) ==> N.Satisfies(e, plan.base))
    ensures N.Covers(plan, e) <==> N.HoldsBytes(e, plan.base)
  {
    hide N.IsPlan, N.Rounds, N.Matches, N.StoredEntity, N.StoredWanted;
    if w.Known? {
      N.PlanCovers(w.properties, special, toFloat, plan, e);
      N.BaseIsCovered(w.properties, special, toFloat, plan, e);
    } else {
      assert N.Satisfies(e, plan.alternatives[0]);
    }
  }

  /** A node test and its scan agree on every match but for byte strings. */
  lemma NodePassesIff(d: Data, p: NodeShape, toFloat: int -> Numbers.Double, plan: N.Plan, s: NodeScan, row: T.Row, n: Id)
    requires IsPlanOf(p.wanted, "body", toFloat, plan) && IsNodeScan(d, p, plan, s)
    requires N.Rounds(toFloat) && StoredWanted(p.wanted) && N.StoredEntity(d.node(n)) && NodeTest(d, p, row, n)
    ensures NodePasses(s, n) <==> N.HoldsBytes(d.node(n), plan.base)
  {
    hide IsPlanOf, N.Rounds, N.StoredEntity, StoredWanted, N.Satisfies, N.HoldsBytes;
    PlanPasses(p.wanted, "body", toFloat, plan, d.node(n), row);
    assert HasAll(d.labels(n), Pushed(p.labels));
    assert Any(s.alternatives, n) <==> N.Covers(plan, d.node(n)) by {
      forall i | 0 <= i < |s.alternatives| ensures s.alternatives[i](n) <==> N.Satisfies(d.node(n), plan.alternatives[i]) { }
    }
  }

  lemma RelPassesIff(d: Data, p: RelShape, toFloat: int -> Numbers.Double, plan: N.Plan, s: RelScan, row: T.Row, e: Id)
    requires IsPlanOf(p.wanted, "position", toFloat, plan) && IsRelScan(d, p, plan, s)
    requires N.Rounds(toFloat) && StoredWanted(p.wanted) && N.StoredEntity(d.edge(e)) && RelTest(d, p, row, e)
    ensures Any(s.alternatives, e) <==> N.HoldsBytes(d.edge(e), plan.base)
  {
    hide IsPlanOf, N.Rounds, N.StoredEntity, StoredWanted, N.Satisfies, N.HoldsBytes;
    PlanPasses(p.wanted, "position", toFloat, plan, d.edge(e), row);
    assert HasType(d.typ(e), PushedTypes(p.types));
    assert Any(s.alternatives, e) <==> N.Covers(plan, d.edge(e)) by {
      forall i | 0 <= i < |s.alternatives| ensures s.alternatives[i](e) <==> N.Satisfies(d.edge(e), plan.alternatives[i]) { }
    }
  }

  // ---- whole patterns ----

  datatype Plans = Plans(nodes: seq<N.Plan>, rels: seq<N.Plan>)

  predicate WellFormed(p: Shape) {
    |p.nodes| == |p.rels| + 1
  }

  ghost predicate ArePlans(p: Shape, toFloat: int -> Numbers.Double, plans: Plans) {
    && |plans.nodes| == |p.nodes| && |plans.rels| == |p.rels|
    && (forall i | 0 <= i < |p.nodes| :: IsPlanOf(p.nodes[i].wanted, "body", toFloat, plans.nodes[i]))
    && (forall i | 0 <= i < |p.rels| :: IsPlanOf(p.rels[i].wanted, "position", toFloat, plans.rels[i]))
  }

  ghost predicate AreScans(d: Data, p: Shape, plans: Plans, s: Scan) {
    && |s.names| == |s.nodes| == |p.nodes| == |plans.nodes| && |s.rels| == |p.rels| == |plans.rels|
    && (forall i | 0 <= i < |p.nodes| :: s.names[i] == p.nodes[i].variable && IsNodeScan(d, p.nodes[i], plans.nodes[i], s.nodes[i]))
    && (forall i | 0 <= i < |p.rels| :: IsRelScan(d, p.rels[i], plans.rels[i], s.rels[i]))
  }

  /** What the loader reads off a pattern. */
  method ScanPattern(d: Data, p: Shape, toFloat: int -> Numbers.Double) returns (s: Scan, ghost plans: Plans)
    ensures ArePlans(p, toFloat, plans) && AreScans(d, p, plans, s)
  {
    hide IsPlanOf, IsNodeScan, IsRelScan;
    var names: seq<string>, nodes: seq<NodeScan>, rels: seq<RelScan> := [], [], [];
    plans := Plans([], []);
    for i := 0 to |p.nodes|
      invariant |names| == |nodes| == |plans.nodes| == i && plans.rels == []
      invariant forall j | 0 <= j < i :: names[j] == p.nodes[j].variable && IsNodeScan(d, p.nodes[j], plans.nodes[j], nodes[j])
      invariant forall j | 0 <= j < i :: IsPlanOf(p.nodes[j].wanted, "body", toFloat, plans.nodes[j])
    {
      ghost var plan;
      var scan;
      scan, plan := BuildNodeScan(d, p.nodes[i], toFloat);
      names, nodes, plans := names + [p.nodes[i].variable], nodes + [scan], plans.(nodes := plans.nodes + [plan]);
    }
    for i := 0 to |p.rels|
      invariant |rels| == |plans.rels| == i && |plans.nodes| == |p.nodes|
      invariant forall j | 0 <= j < |p.nodes| :: IsNodeScan(d, p.nodes[j], plans.nodes[j], nodes[j])
      invariant forall j | 0 <= j < |p.nodes| :: IsPlanOf(p.nodes[j].wanted, "body", toFloat, plans.nodes[j])
      invariant forall j | 0 <= j < i :: IsRelScan(d, p.rels[j], plans.rels[j], rels[j])
      invariant forall j | 0 <= j < i :: IsPlanOf(p.rels[j].wanted, "position", toFloat, plans.rels[j])
    {
      ghost var plan;
      var scan;
      scan, plan := BuildRelScan(d, p.rels[i], toFloat);
      rels, plans := rels + [scan], plans.(rels := plans.rels + [plan]);
    }
    s := Scan(names, nodes, rels);
  }

  ghost predicate StoredPattern(p: Shape) {
    (forall i | 0 <= i < |p.nodes| :: StoredWanted(p.nodes[i].wanted)) && forall i | 0 <= i < |p.rels| :: StoredWanted(p.rels[i].wanted)
  }

  /** No node and no edge that a part of the pattern matches holds a list in the
      place of an equal byte string. */
  ghost predicate NothingLost(d: Data, p: Shape, plans: Plans)
    requires |plans.nodes| == |p.nodes| && |plans.rels| == |p.rels|
  {
    && (forall i, row, n | 0 <= i < |p.nodes| && NodeTest(d, p.nodes[i], row, n) :: N.HoldsBytes(d.node(n), plans.nodes[i].base))
    && forall i, row, e | 0 <= i < |p.rels| && RelTest(d, p.rels[i], row, e) :: N.HoldsBytes(d.edge(e), plans.rels[i].base)
  }

  /** The planner's scans keep everything a pattern can match, as the working set
      needs it, if and only if nothing is lost to byte strings. */
  lemma PushdownIsSoundIff(d: Data, p: Shape, el: T.Element, toFloat: int -> Numbers.Double, plans: Plans, s: Scan)
    requires WellFormed(p) && IsElement(d, p, el) && ArePlans(p, toFloat, plans) && AreScans(d, p, plans, s)
    requires N.Rounds(toFloat) && StoredData(d) && StoredPattern(p)
    ensures ScanOf(el, s) <==> NothingLost(d, p, plans)
  {
    hide IsPlanOf, N.Rounds, N.StoredEntity, StoredWanted, N.HoldsBytes, NodeTest, RelTest, NodePasses, IsNodeScan, Any, T.Bounds, Lengths;
    forall i, row, n | 0 <= i < |p.nodes| && NodeTest(d, p.nodes[i], row, n)
      ensures el.nodes[i].test(row, n) && (NodePasses(s.nodes[i], n) <==> N.HoldsBytes(d.node(n), plans.nodes[i].base))
    {
      assert IsNode(d, p.nodes[i], el.nodes[i]);
      NodePassesIff(d, p.nodes[i], toFloat, plans.nodes[i], s.nodes[i], row, n);
    }
    forall i, row, e | 0 <= i < |p.rels| && RelTest(d, p.rels[i], row, e)
      ensures el.rels[i].test(row, e) && (Any(s.rels[i].alternatives, e) <==> N.HoldsBytes(d.edge(e), plans.rels[i].base))
    {
      assert IsRel(d, p.rels[i], el.rels[i]);
      RelPassesIff(d, p.rels[i], toFloat, plans.rels[i], s.rels[i], row, e);
    }
    SameShape(d, p, el, plans, s);
    TestsAre(d, p, el);
  }

  lemma SameShape(d: Data, p: Shape, el: T.Element, plans: Plans, s: Scan)
    requires WellFormed(p) && IsElement(d, p, el) && AreScans(d, p, plans, s)
    ensures ValidScan(s) && T.WellFormed(el) && |el.rels| == |s.rels|
    ensures forall i | 0 <= i < |el.nodes| :: s.names[i] == el.nodes[i].variable
    ensures forall i | 0 <= i < |el.rels| :: s.rels[i].direction == el.rels[i].direction
    ensures forall i, row, count | 0 <= i < |el.rels| :: T.Bounds(el.rels[i], row, count) == (s.rels[i].lower, s.rels[i].upper)
  {
    hide T.Bounds, IsNodeScan;
    forall i | 0 <= i < |el.nodes| ensures s.names[i] == el.nodes[i].variable { assert IsNode(d, p.nodes[i], el.nodes[i]); }
    forall i | 0 <= i < |el.rels|
      ensures s.rels[i].direction == el.rels[i].direction
      ensures forall row, count :: T.Bounds(el.rels[i], row, count) == (s.rels[i].lower, s.rels[i].upper)
    {
      assert IsRel(d, p.rels[i], el.rels[i]) && IsRelScan(d, p.rels[i], plans.rels[i], s.rels[i]);
    }
  }

  lemma TestsAre(d: Data, p: Shape, el: T.Element)
    requires IsElement(d, p, el)
    ensures forall i, row, n | 0 <= i < |p.nodes| :: el.nodes[i].test(row, n) == NodeTest(d, p.nodes[i], row, n)
    ensures forall i, row, e | 0 <= i < |p.rels| :: el.rels[i].test(row, e) == RelTest(d, p.rels[i], row, e)
  {
    hide NodeTest, RelTest, T.Bounds;
    forall i, row, n | 0 <= i < |p.nodes| ensures el.nodes[i].test(row, n) == NodeTest(d, p.nodes[i], row, n) {
      assert IsNode(d, p.nodes[i], el.nodes[i]);
    }
    forall i, row, e | 0 <= i < |p.rels| ensures el.rels[i].test(row, e) == RelTest(d, p.rels[i], row, e) {
      assert IsRel(d, p.rels[i], el.rels[i]);
    }
  }

  // ---- whole pipelines ----

  /** The scans of a MATCH clause are those of its patterns, and no known map asks
      for a byte string. */
  ghost predicate Planned(d: Data, toFloat: int -> Numbers.Double, step: P.Step, shapes: seq<Shape>, plans: seq<Plans>) {
    if !step.Match? then P.ValidStep(step)
    else
      && |step.clause.patterns| == |step.scans| == |shapes| == |plans|
      && forall i | 0 <= i < |shapes| :: PlannedPattern(d, toFloat, step.clause.patterns[i].element, step.scans[i], shapes[i], plans[i])
  }

  ghost predicate PlannedPattern(d: Data, toFloat: int -> Numbers.Double, el: T.Element, s: Scan, p: Shape, plans: Plans) {
    && WellFormed(p) && IsElement(d, p, el) && ArePlans(p, toFloat, plans) && AreScans(d, p, plans, s) && StoredPattern(p)
    && (forall i | 0 <= i < |p.nodes| :: NoBytes(p.nodes[i].wanted)) && forall i | 0 <= i < |p.rels| :: NoBytes(p.rels[i].wanted)
  }

  predicate NoBytes(w: Wanted) {
    w.Known? ==> N.NoBytes(w.properties)
  }

  lemma NothingToLose(w: Wanted, special: string, toFloat: int -> Numbers.Double, plan: N.Plan)
    requires IsPlanOf(w, special, toFloat, plan) && NoBytes(w)
    ensures forall e :: N.HoldsBytes(e, plan.base)
  {
  }

  lemma PatternIsScanned(d: Data, toFloat: int -> Numbers.Double, el: T.Element, s: Scan, p: Shape, plans: Plans)
    requires PlannedPattern(d, toFloat, el, s, p, plans) && N.Rounds(toFloat) && StoredData(d)
    ensures ScanOf(el, s)
  {
    hide IsElement, AreScans, StoredPattern, NodeTest, RelTest, ScanOf, IsPlanOf, N.Rounds, StoredData, NoBytes, N.HoldsBytes;
    forall i | 0 <= i < |p.nodes| ensures forall e :: N.HoldsBytes(e, plans.nodes[i].base) {
      NothingToLose(p.nodes[i].wanted, "body", toFloat, plans.nodes[i]);
    }
    forall i | 0 <= i < |p.rels| ensures forall e :: N.HoldsBytes(e, plans.rels[i].base) {
      NothingToLose(p.rels[i].wanted, "position", toFloat, plans.rels[i]);
    }
    PushdownIsSoundIff(d, p, el, toFloat, plans, s);
  }

  /** With the planner's own scans the working set gives the rows of the snapshot. */
  lemma PlannedIsEnough(g: Graph, d: Data, toFloat: int -> Numbers.Double, steps: seq<P.Step>, shapes: seq<seq<Shape>>, plans: seq<seq<Plans>>)
    requires N.Rounds(toFloat) && StoredData(d) && |steps| == |shapes| == |plans|
    requires forall i | 0 <= i < |steps| :: Planned(d, toFloat, steps[i], shapes[i], plans[i])
    requires P.InScope(steps, false, false) && P.SafeAliases(steps, {}, P.OptionalNames(steps))
    ensures P.ValidSteps(steps) && ValidScans(P.AllScans(steps))
    ensures P.Rows(WorkingGraph(g, LoadPatterns(g, EmptyLoad(), P.AllScans(steps))), [map[]], steps) == P.Rows(g, [map[]], steps)
  {
    hide PlannedPattern, N.Rounds, StoredData, ScanOf, P.SafeAliases;
    forall i | 0 <= i < |steps| ensures P.ValidStep(steps[i]) {
      assert Planned(d, toFloat, steps[i], shapes[i], plans[i]);
      if steps[i].Match? {
        forall j | 0 <= j < |shapes[i]| ensures ScanOf(steps[i].clause.patterns[j].element, steps[i].scans[j]) {
          PatternIsScanned(d, toFloat, steps[i].clause.patterns[j].element, steps[i].scans[j], shapes[i][j], plans[i][j]);
        }
      }
    }
    P.WorkingSetIsEnough(g, steps);
  }
}
