/** loadReadWorkingSet: which part of a snapshot the read planner fetches for the
    patterns of a query. */
module WorkingSet {
  import opened Base
  import opened Sorted
  import opened MatchGraph

  /** The push-down of a node pattern: the union of the scans of a root node, the
      weaker predicate for other nodes, and whether nothing can match. */
  datatype NodeScan = NodeScan(alternatives: seq<Id -> bool>, base: Id -> bool, empty: bool)

  /** The push-down of a relationship, and its static bounds. */
  datatype RelScan = RelScan(direction: Direction, alternatives: seq<Id -> bool>, variable: bool, lower: nat, upper: nat)

  /** What the loader reads off one pattern. */
  datatype Scan = Scan(names: seq<string>, nodes: seq<NodeScan>, rels: seq<RelScan>)

  predicate ValidScan(p: Scan) {
    && |p.nodes| == |p.names| == |p.rels| + 1
    && forall i | 0 <= i < |p.rels| :: !p.rels[i].variable ==> p.rels[i].lower == p.rels[i].upper == 1
  }

  predicate Any(alternatives: seq<Id -> bool>, id: Id) {
    exists i :: 0 <= i < |alternatives| && alternatives[i](id)
  }

  // ---- what is fetched, as sets ----

  datatype Loaded = Loaded(nodes: set<Id>, edges: set<Id>, bindings: map<string, set<Id>>)

  function EmptyLoad(): Loaded {
    Loaded({}, {}, map[])
  }

  predicate LeavesAny(e: Ends, d: Direction, frontier: set<Id>) {
    (d.Forward() && e.from in frontier) || (d.Backward() && e.to in frontier)
  }

  /** scanAdjacent. */
  function AdjacentScan(g: Graph, r: RelScan, frontier: set<Id>): set<Id> {
    set e | e in g.edges && LeavesAny(g.edges[e], r.direction, frontier) && Any(r.alternatives, e)
  }

  /** edgeTargets: the ends the given edges lead to. */
  function Targets(g: Graph, found: set<Id>, d: Direction, current: set<Id>): set<Id> {
    (set e | e in found && e in g.edges && d.Forward() && g.edges[e].from in current :: g.edges[e].to)
    + (set e | e in found && e in g.edges && d.Backward() && g.edges[e].to in current :: g.edges[e].from)
  }

  function Passing(nodes: set<Id>, base: Id -> bool): set<Id> {
    set x | x in nodes && base(x)
  }

  function NextLevel(g: Graph, r: RelScan, frontier: set<Id>): set<Id> {
    Targets(g, AdjacentScan(g, r, frontier), r.direction, frontier) * g.nodes
  }

  /** The nodes reached in exactly d hops. */
  function Level(g: Graph, r: RelScan, frontier: set<Id>, d: nat): set<Id> {
    if d == 0 then frontier else NextLevel(g, r, Level(g, r, frontier, d - 1))
  }

  /** Everything fetched within n hops. */
  function EdgesWithin(g: Graph, r: RelScan, frontier: set<Id>, n: nat): set<Id> {
    if n == 0 then {} else EdgesWithin(g, r, frontier, n - 1) + AdjacentScan(g, r, Level(g, r, frontier, n - 1))
  }

  function NodesWithin(g: Graph, r: RelScan, frontier: set<Id>, n: nat): set<Id> {
    if n == 0 then {} else NodesWithin(g, r, frontier, n - 1) + Level(g, r, frontier, n)
  }

  /** The candidates for the target after lower to n hops. */
  function TargetsWithin(g: Graph, r: RelScan, target: NodeScan, frontier: set<Id>, n: nat): set<Id> {
    (if n == 0 then {} else TargetsWithin(g, r, target, frontier, n - 1))
    + (if n >= r.lower then Passing(Level(g, r, frontier, n), target.base) else {})
  }

  function Bound(w: Loaded, name: string): set<Id> {
    if name != "" && name in w.bindings then w.bindings[name] else {}
  }

  function Rebind(w: Loaded, name: string, nodes: set<Id>): Loaded {
    if name == "" || nodes == {} then w else w.(bindings := w.bindings[name := Bound(w, name) + nodes])
  }

  function Root(g: Graph, w: Loaded, name: string, scan: NodeScan): set<Id> {
    if Bound(w, name) != {} then
      if scan.empty then {} else set x | x in Bound(w, name) && scan.base(x)
    else set x | x in g.nodes && Any(scan.alternatives, x)
  }

  function AfterRoot(g: Graph, w: Loaded, p: Scan): Loaded
    requires ValidScan(p)
  {
    var root := Root(g, w, p.names[0], p.nodes[0]);
    Rebind(if Bound(w, p.names[0]) != {} then w else w.(nodes := w.nodes + root), p.names[0], root)
  }

  /** The rest of the pattern from relationship i; it stops at an empty frontier. */
  function Expand(g: Graph, w: Loaded, p: Scan, i: nat, frontier: set<Id>): Loaded
    requires ValidScan(p) && i <= |p.rels|
    decreases |p.rels| - i
  {
    if i == |p.rels| || (i > 0 && frontier == {}) then w
    else
      var r := p.rels[i];
      var next := TargetsWithin(g, r, p.nodes[i + 1], frontier, r.upper);
      var more := w.(edges := w.edges + EdgesWithin(g, r, frontier, r.upper), nodes := w.nodes + NodesWithin(g, r, frontier, r.upper));
      Expand(g, Rebind(more, p.names[i + 1], next), p, i + 1, next)
  }

  function LoadPattern(g: Graph, w: Loaded, p: Scan): Loaded
    requires ValidScan(p)
  {
    Expand(g, AfterRoot(g, w, p), p, 0, Root(g, w, p.names[0], p.nodes[0]))
  }

  predicate ValidScans(ps: seq<Scan>) {
    forall i | 0 <= i < |ps| :: ValidScan(ps[i])
  }

  function LoadPatterns(g: Graph, w: Loaded, ps: seq<Scan>): Loaded
    requires ValidScans(ps)
    decreases |ps|
  {
    if ps == [] then w else LoadPatterns(g, LoadPattern(g, w, ps[0]), ps[1..])
  }

  /** The graph the matcher then works on. */
  function WorkingGraph(g: Graph, w: Loaded): Graph {
    Graph(w.nodes, map e | e in w.edges && e in g.edges :: g.edges[e])
  }

  // ---- the program ----

  const CHUNK := 50_000

  predicate Touches(e: Ends, from: bool, ids: set<Id>) {
    if from then e.from in ids else e.to in ids
  }

  function EdgesAt(g: Graph, scan: Id -> bool, ids: set<Id>, from: bool): set<Id> {
    set e | e in g.edges && Touches(g.edges[e], from, ids) && scan(e)
  }

  lemma EdgesAtMore(g: Graph, scan: Id -> bool, a: set<Id>, b: set<Id>, from: bool)
    ensures EdgesAt(g, scan, a + b, from) == EdgesAt(g, scan, a, from) + EdgesAt(g, scan, b, from)
  {
  }

  function Elements(s: seq<Id>): set<Id> {
    set x | x in s
  }

  lemma ElementsSplit(s: seq<Id>, i: nat, j: nat)
    requires i <= j <= |s|
    ensures Elements(s[..j]) == Elements(s[..i]) + Elements(s[i..j])
  {
    assert s[..j] == s[..i] + s[i..j];
  }

  /** iteratorWorkingSet; the snapshot it reads is the constant g. */
  class Loader {
    const g: Graph
    var nodes: set<Id>
    var edges: set<Id>
    var bindings: map<string, set<Id>>

    constructor (g: Graph)
      ensures State() == EmptyLoad() && this.g == g
    {
      this.g := g;
      nodes, edges, bindings := {}, {}, map[];
    }

    ghost function State(): Loaded
      reads this
    {
      Loaded(nodes, edges, bindings)
    }

    method BoundNodes(name: string) returns (found: set<Id>)
      ensures found == Bound(State(), name)
    {
      if name == "" || name !in bindings { return {}; }
      found := bindings[name];
    }

    method Bind(name: string, found: set<Id>)
      modifies this`bindings
      ensures State() == Rebind(old(State()), name, found)
    {
      if name == "" || found == {} { return; }
      var values: set<Id> := if name in bindings then bindings[name] else {};
      bindings := bindings[name := values + found];
    }

    method ScanNodes(scan: Id -> bool) returns (found: set<Id>)
      modifies this`nodes
      ensures found == set x | x in g.nodes && scan(x)
      ensures nodes == old(nodes) + found
    {
      found := set x | x in g.nodes && scan(x);
      nodes := nodes + found;
    }

    method FetchNodes(ids: set<Id>) returns (found: set<Id>)
      modifies this`nodes
      ensures found == ids * g.nodes
      ensures nodes == old(nodes) + found
    {
      found := ids * g.nodes;
      nodes := nodes + found;
    }

    /** A long list of endpoints is looked up in chunks. */
    method ScanEdgesForIds(scan: Id -> bool, ids: seq<Id>, from: bool) returns (found: set<Id>)
      modifies this`edges
      ensures found == EdgesAt(g, scan, Elements(ids), from)
      ensures edges == old(edges) + found
    {
      found := {};
      var start := 0;
      while start < |ids|
        invariant 0 <= start <= |ids|
        invariant found == EdgesAt(g, scan, Elements(ids[..start]), from)
        invariant edges == old(edges) + found
      {
        var end := if start + CHUNK > |ids| then |ids| else start + CHUNK;
        ElementsSplit(ids, start, end);
        EdgesAtMore(g, scan, Elements(ids[..start]), Elements(ids[start..end]), from);
        var part := Elements(ids[start..end]);
        var page := set e | e in g.edges && Touches(g.edges[e], from, part) && scan(e);
        edges := edges + page;
        found := found + page;
        start := end;
      }
      assert ids[..start] == ids;
    }

    method ScanAdjacent(frontier: seq<Id>, r: RelScan) returns (found: set<Id>)
      modifies this`edges
      ensures found == AdjacentScan(g, r, Elements(frontier))
      ensures edges == old(edges) + found
    {
      found := {};
      var n := Elements(frontier);
      if frontier == [] { return; }
      var i := 0;
      while i < |r.alternatives|
        invariant 0 <= i <= |r.alternatives|
        invariant found == set e | e in g.edges && LeavesAny(g.edges[e], r.direction, n) && Any(r.alternatives[..i], e)
        invariant edges == old(edges) + found
      {
        AnyMore(r.alternatives, i);
        if r.direction.Forward() {
          var some := ScanEdgesForIds(r.alternatives[i], frontier, true);
          found := found + some;
        }
        if r.direction.Backward() {
          var some := ScanEdgesForIds(r.alternatives[i], frontier, false);
          found := found + some;
        }
        i := i + 1;
      }
      assert r.alternatives[..i] == r.alternatives;
    }

    method ExpandOne(frontier: seq<Id>, r: RelScan, target: NodeScan) returns (next: set<Id>)
      requires r.lower == r.upper == 1
      modifies this`nodes, this`edges
      ensures next == TargetsWithin(g, r, target, Elements(frontier), 1)
      ensures edges == old(edges) + EdgesWithin(g, r, Elements(frontier), 1)
      ensures nodes == old(nodes) + NodesWithin(g, r, Elements(frontier), 1)
    {
      hide AdjacentScan, Targets, Passing;
      var current := Elements(frontier);
      var found := ScanAdjacent(frontier, r);
      var targets := FetchNodes(Targets(g, found, r.direction, current));
      next := Passing(targets, target.base);
      OneHop(g, r, target, current);
    }

    method ExpandVariable(frontier: seq<Id>, r: RelScan, target: NodeScan) returns (seen: set<Id>)
      modifies this`nodes, this`edges
      ensures seen == TargetsWithin(g, r, target, Elements(frontier), r.upper)
      ensures edges == old(edges) + EdgesWithin(g, r, Elements(frontier), r.upper)
      ensures nodes == old(nodes) + NodesWithin(g, r, Elements(frontier), r.upper)
    {
      hide AdjacentScan, Targets, Passing, Elements;
      ghost var first := Elements(frontier);
      seen := {};
      var current := Elements(frontier);
      if r.lower == 0 { seen := Passing(current, target.base); }
      var depth := 0;
      while depth < r.upper && current != {}
        invariant 0 <= depth <= r.upper
        invariant current == Level(g, r, first, depth)
        invariant seen == TargetsWithin(g, r, target, first, depth)
        invariant edges == old(edges) + EdgesWithin(g, r, first, depth)
        invariant nodes == old(nodes) + NodesWithin(g, r, first, depth)
      {
        depth := depth + 1;
        var ids := Listed(current);
        var found := ScanAdjacent(ids, r);
        var next := FetchNodes(Targets(g, found, r.direction, current));
        if depth >= r.lower { seen := seen + Passing(next, target.base); }
        current := next;
      }
      if current == {} { NothingBeyond(g, r, target, first, depth, r.upper); }
    }

    method LoadOne(p: Scan)
      requires ValidScan(p)
      modifies this
      ensures State() == LoadPattern(g, old(State()), p)
    {
      var bound := BoundNodes(p.names[0]);
      var frontier: set<Id> := {};
      if bound != {} {
        if !p.nodes[0].empty { frontier := set x | x in bound && p.nodes[0].base(x); }
      } else {
        var i := 0;
        while i < |p.nodes[0].alternatives|
          invariant 0 <= i <= |p.nodes[0].alternatives|
          invariant frontier == set x | x in g.nodes && Any(p.nodes[0].alternatives[..i], x)
          invariant State() == old(State()).(nodes := old(nodes) + frontier)
        {
          AnyMore(p.nodes[0].alternatives, i);
          var candidates := ScanNodes(p.nodes[0].alternatives[i]);
          frontier := frontier + candidates;
          i := i + 1;
        }
        assert p.nodes[0].alternatives[..i] == p.nodes[0].alternatives;
      }
      assert frontier == Root(g, old(State()), p.names[0], p.nodes[0]);
      Bind(p.names[0], frontier);
      assert State() == AfterRoot(g, old(State()), p);
      ExpandRest(p, frontier);
    }

    method ExpandRest(p: Scan, root: set<Id>)
      requires ValidScan(p)
      modifies this
      ensures State() == Expand(g, old(State()), p, 0, root)
    {
      hide TargetsWithin, EdgesWithin, NodesWithin, Level;
      var frontier := root;
      var i := 0;
      while i < |p.rels|
        invariant 0 <= i <= |p.rels|
        invariant i > 0 && frontier == {} ==> i == |p.rels|
        invariant Expand(g, old(State()), p, 0, root) == Expand(g, State(), p, i, frontier)
      {
        ghost var before := State();
        var next := ExpandHop(p.rels[i], p.nodes[i + 1], frontier);
        Bind(p.names[i + 1], next);
        assert Expand(g, before, p, i, frontier) == Expand(g, State(), p, i + 1, next);
        frontier := next;
        i := i + 1;
        if frontier == {} {
          assert Expand(g, State(), p, i, frontier) == State();
          return;
        }
      }
    }

    method ExpandHop(r: RelScan, target: NodeScan, frontier: set<Id>) returns (next: set<Id>)
      requires !r.variable ==> r.lower == r.upper == 1
      modifies this`nodes, this`edges
      ensures next == TargetsWithin(g, r, target, frontier, r.upper)
      ensures edges == old(edges) + EdgesWithin(g, r, frontier, r.upper)
      ensures nodes == old(nodes) + NodesWithin(g, r, frontier, r.upper)
    {
      var ids := Listed(frontier);
      if r.variable { next := ExpandVariable(ids, r, target); } else { next := ExpandOne(ids, r, target); }
    }

    /** loadReadWorkingSet's loop over the patterns of the query. */
    method LoadAll(ps: seq<Scan>)
      requires ValidScans(ps)
      modifies this
      ensures State() == LoadPatterns(g, old(State()), ps)
    {
      hide LoadPattern;
      var i := 0;
      while i < |ps|
        invariant 0 <= i <= |ps|
        invariant LoadPatterns(g, old(State()), ps) == LoadPatterns(g, State(), ps[i..])
      {
        LoadOne(ps[i]);
        i := i + 1;
      }
    }
  }

  lemma OneHop(g: Graph, r: RelScan, target: NodeScan, frontier: set<Id>)
    requires r.lower == 1
    ensures TargetsWithin(g, r, target, frontier, 1) == Passing(NextLevel(g, r, frontier), target.base)
    ensures EdgesWithin(g, r, frontier, 1) == AdjacentScan(g, r, frontier)
    ensures NodesWithin(g, r, frontier, 1) == NextLevel(g, r, frontier)
  {
    hide AdjacentScan, Targets, Passing, NextLevel;
    assert Level(g, r, frontier, 0) == frontier && Level(g, r, frontier, 1) == NextLevel(g, r, frontier);
    assert TargetsWithin(g, r, target, frontier, 0) == {};
    assert EdgesWithin(g, r, frontier, 0) == {} && NodesWithin(g, r, frontier, 0) == {};
  }

  method Listed(ids: set<Id>) returns (list: seq<Id>)
    ensures Elements(list) == ids
  {
    list := SortedIds(ids);
    SortedHolds(ids);
  }

  lemma AnyMore(alternatives: seq<Id -> bool>, i: nat)
    requires i < |alternatives|
    ensures forall x :: Any(alternatives[..i + 1], x) <==> Any(alternatives[..i], x) || alternatives[i](x)
  {
    forall x ensures Any(alternatives[..i + 1], x) <==> Any(alternatives[..i], x) || alternatives[i](x) {
      if Any(alternatives[..i], x) {
        var j :| 0 <= j < i && alternatives[..i][j](x);
        assert alternatives[..i + 1][j](x);
      }
      if alternatives[i](x) { assert alternatives[..i + 1][i](x); }
      if Any(alternatives[..i + 1], x) {
        var j :| 0 <= j < i + 1 && alternatives[..i + 1][j](x);
        if j < i { assert alternatives[..i][j](x); }
      }
    }
  }

  lemma {:induction false} NothingBeyond(g: Graph, r: RelScan, target: NodeScan, frontier: set<Id>, d: nat, n: nat)
    requires Level(g, r, frontier, d) == {} && d <= n
    ensures Level(g, r, frontier, n) == {}
    ensures EdgesWithin(g, r, frontier, n) == EdgesWithin(g, r, frontier, d)
    ensures NodesWithin(g, r, frontier, n) == NodesWithin(g, r, frontier, d)
    ensures TargetsWithin(g, r, target, frontier, n) == TargetsWithin(g, r, target, frontier, d)
    decreases n
  {
    if d < n { NothingBeyond(g, r, target, frontier, d, n - 1); }
  }
}
