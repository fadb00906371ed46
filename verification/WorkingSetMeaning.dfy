/** What the loader fetches, read off the patterns: the edges that a relationship can
    step over within its bounds, the nodes these lead to, and nothing else. */
module WorkingSetMeaning {
  import opened Base
  import opened MatchGraph
  import opened WorkingSet
  import opened MatchMeaning

  // ---- one relationship ----

  /** A relationship can step from a to b over an edge that one of its scans finds. */
  ghost predicate StepsOver(g: Graph, r: RelScan, a: Id, e: Id, b: Id) {
    e in g.edges && Traverses(g.edges[e], r.direction, a, b) && exists i :: 0 <= i < |r.alternatives| && r.alternatives[i](e)
  }

  /** A walk over the edges found, staying in the snapshot. */
  ghost predicate Chain(g: Graph, r: RelScan, ns: seq<Id>, es: seq<Id>) {
    |ns| == |es| + 1 && forall i | 0 <= i < |es| :: IsStep(g, r, ns, es, i)
  }

  ghost predicate IsStep(g: Graph, r: RelScan, ns: seq<Id>, es: seq<Id>, i: nat)
    requires i < |es| && |ns| == |es| + 1
  {
    StepsOver(g, r, ns[i], es[i], ns[i + 1]) && ns[i + 1] in g.nodes
  }

  ghost predicate Leads(g: Graph, r: RelScan, frontier: set<Id>, x: Id, d: nat, ns: seq<Id>, es: seq<Id>) {
    Chain(g, r, ns, es) && |es| == d && ns[0] in frontier && ns[d] == x
  }

  /** A node at the end of a walk of d edges from the frontier. */
  ghost predicate Reached(g: Graph, r: RelScan, frontier: set<Id>, x: Id, d: nat) {
    exists ns, es :: Leads(g, r, frontier, x, d, ns, es)
  }

  ghost predicate StepsFrom(g: Graph, r: RelScan, frontier: set<Id>, e: Id) {
    exists a, b :: a in frontier && StepsOver(g, r, a, e, b)
  }

  ghost predicate StepsTo(g: Graph, r: RelScan, frontier: set<Id>, x: Id) {
    exists a, e :: a in frontier && StepsOver(g, r, a, e, x)
  }

  lemma OneStep(g: Graph, r: RelScan, frontier: set<Id>)
    ensures forall e :: e in AdjacentScan(g, r, frontier) <==> StepsFrom(g, r, frontier, e)
    ensures forall x :: x in NextLevel(g, r, frontier) <==> x in g.nodes && StepsTo(g, r, frontier, x)
  {
    forall e ensures e in AdjacentScan(g, r, frontier) <==> StepsFrom(g, r, frontier, e) {
      if e in AdjacentScan(g, r, frontier) {
        var (a, b) := if r.direction.Forward() && g.edges[e].from in frontier then (g.edges[e].from, g.edges[e].to) else (g.edges[e].to, g.edges[e].from);
        assert a in frontier && StepsOver(g, r, a, e, b);
      }
    }
    forall x ensures x in NextLevel(g, r, frontier) <==> x in g.nodes && StepsTo(g, r, frontier, x) { NextIs(g, r, frontier, x); }
  }

  lemma NextIs(g: Graph, r: RelScan, frontier: set<Id>, x: Id)
    ensures x in NextLevel(g, r, frontier) <==> x in g.nodes && StepsTo(g, r, frontier, x)
  {
    var found := AdjacentScan(g, r, frontier);
    if x in Targets(g, found, r.direction, frontier) {
      if e :| e in found && r.direction.Forward() && g.edges[e].from in frontier && g.edges[e].to == x {
        assert StepsOver(g, r, g.edges[e].from, e, x);
      } else {
        var e :| e in found && r.direction.Backward() && g.edges[e].to in frontier && g.edges[e].from == x;
        assert StepsOver(g, r, g.edges[e].to, e, x);
      }
    }
    if a, e :| a in frontier && StepsOver(g, r, a, e, x) { assert e in found; }
  }

  lemma {:induction false} LevelMeans(g: Graph, r: RelScan, frontier: set<Id>, x: Id, d: nat)
    ensures x in Level(g, r, frontier, d) <==> Reached(g, r, frontier, x, d)
    decreases d
  {
    hide NextLevel, StepsOver;
    if d == 0 {
      if x in frontier { assert Leads(g, r, frontier, x, 0, [x], []); }
    } else {
      var before := Level(g, r, frontier, d - 1);
      OneStep(g, r, before);
      if x in Level(g, r, frontier, d) {
        var a, e :| a in before && StepsOver(g, r, a, e, x);
        LevelMeans(g, r, frontier, a, d - 1);
        var ns, es :| Leads(g, r, frontier, a, d - 1, ns, es);
        OneMore(g, r, frontier, a, d - 1, ns, es, e, x);
      }
      if ns, es :| Leads(g, r, frontier, x, d, ns, es) {
        OneLess(g, r, frontier, x, d, ns, es);
        LevelMeans(g, r, frontier, ns[d - 1], d - 1);
      }
    }
  }

  lemma OneMore(g: Graph, r: RelScan, frontier: set<Id>, a: Id, d: nat, ns: seq<Id>, es: seq<Id>, e: Id, x: Id)
    requires Leads(g, r, frontier, a, d, ns, es) && StepsOver(g, r, a, e, x) && x in g.nodes
    ensures Leads(g, r, frontier, x, d + 1, ns + [x], es + [e])
  {
    hide StepsOver;
    forall i | 0 <= i < d + 1 ensures IsStep(g, r, ns + [x], es + [e], i) {
      if i < d { assert IsStep(g, r, ns, es, i); }
    }
  }

  lemma OneLess(g: Graph, r: RelScan, frontier: set<Id>, x: Id, d: nat, ns: seq<Id>, es: seq<Id>)
    requires d > 0 && Leads(g, r, frontier, x, d, ns, es)
    ensures Leads(g, r, frontier, ns[d - 1], d - 1, ns[..d], es[..d - 1])
    ensures StepsOver(g, r, ns[d - 1], es[d - 1], x) && x in g.nodes
  {
    hide StepsOver;
    assert IsStep(g, r, ns, es, d - 1);
    var fewer, earlier := ns[..d], es[..d - 1];
    forall i | 0 <= i < d - 1 ensures IsStep(g, r, fewer, earlier, i) { assert IsStep(g, r, ns, es, i); }
  }

  /** The edges fetched within n hops are those that can be stepped over in at most n. */
  ghost predicate FetchedWithin(g: Graph, r: RelScan, frontier: set<Id>, n: nat, e: Id) {
    exists d: nat, a, b :: d < n && Reached(g, r, frontier, a, d) && StepsOver(g, r, a, e, b)
  }

  lemma {:induction false} EdgesMean(g: Graph, r: RelScan, frontier: set<Id>, n: nat, e: Id)
    ensures e in EdgesWithin(g, r, frontier, n) <==> FetchedWithin(g, r, frontier, n, e)
  {
    hide AdjacentScan, StepsOver, Reached, Level;
    if n > 0 {
      EdgesMean(g, r, frontier, n - 1, e);
      OneStep(g, r, Level(g, r, frontier, n - 1));
      if e in AdjacentScan(g, r, Level(g, r, frontier, n - 1)) {
        var a, b :| a in Level(g, r, frontier, n - 1) && StepsOver(g, r, a, e, b);
        LevelMeans(g, r, frontier, a, n - 1);
      }
      if d: nat, a, b :| d < n && Reached(g, r, frontier, a, d) && StepsOver(g, r, a, e, b) {
        LevelMeans(g, r, frontier, a, n - 1);
        if d < n - 1 { assert FetchedWithin(g, r, frontier, n - 1, e); }
      }
    }
  }

  lemma {:induction false} NodesMean(g: Graph, r: RelScan, frontier: set<Id>, n: nat, x: Id)
    ensures x in NodesWithin(g, r, frontier, n) <==> exists d: nat :: 1 <= d <= n && Reached(g, r, frontier, x, d)
  {
    hide Reached, Level;
    if n > 0 {
      NodesMean(g, r, frontier, n - 1, x);
      LevelMeans(g, r, frontier, x, n);
    }
  }

  /** The candidates for the next node: what is reached within the bounds and passes its scan. */
  lemma {:induction false} TargetsMean(g: Graph, r: RelScan, target: NodeScan, frontier: set<Id>, n: nat, x: Id)
    ensures x in TargetsWithin(g, r, target, frontier, n) <==>
            target.base(x) && exists d: nat :: r.lower <= d <= n && Reached(g, r, frontier, x, d)
  {
    hide Reached, Level;
    if n > 0 { TargetsMean(g, r, target, frontier, n - 1, x); }
    LevelMeans(g, r, frontier, x, n);
  }

  // ---- one pattern ----

  ghost predicate Known(w: Loaded, name: string, x: Id) {
    name != "" && name in w.bindings && x in w.bindings[name]
  }

  /** The first node is a candidate from before, if its name has any, and otherwise a node
      that one of its scans finds. */
  ghost predicate Starts(g: Graph, w: Loaded, p: Scan, x: Id)
    requires ValidScan(p)
  {
    if exists y :: Known(w, p.names[0], y) then !p.nodes[0].empty && Known(w, p.names[0], x) && p.nodes[0].base(x)
    else x in g.nodes && exists i :: 0 <= i < |p.nodes[0].alternatives| && p.nodes[0].alternatives[i](x)
  }

  ghost predicate Continues(g: Graph, p: Scan, i: nat, frontier: set<Id>, x: Id)
    requires ValidScan(p) && i < |p.rels|
  {
    p.nodes[i + 1].base(x) && exists d: nat :: p.rels[i].lower <= d <= p.rels[i].upper && Reached(g, p.rels[i], frontier, x, d)
  }

  /** The candidates of each node of a pattern, from those of the node before. */
  ghost predicate AreFrontiers(g: Graph, w: Loaded, p: Scan, fs: seq<set<Id>>)
    requires ValidScan(p)
  {
    && |fs| == |p.nodes| && (forall x :: x in fs[0] <==> Starts(g, w, p, x))
    && forall i, x | 0 <= i < |p.rels| :: x in fs[i + 1] <==> Continues(g, p, i, fs[i], x)
  }

  ghost predicate EdgeFetched(g: Graph, p: Scan, fs: seq<set<Id>>, i: nat, e: Id)
    requires ValidScan(p) && |fs| == |p.nodes|
  {
    i < |p.rels| && FetchedWithin(g, p.rels[i], fs[i], p.rels[i].upper, e)
  }

  ghost predicate NodeFetched(g: Graph, p: Scan, fs: seq<set<Id>>, i: nat, x: Id)
    requires ValidScan(p) && |fs| == |p.nodes|
  {
    i < |p.rels| && exists d: nat :: 1 <= d <= p.rels[i].upper && Reached(g, p.rels[i], fs[i], x, d)
  }

  /** What one pattern adds: the edges and nodes its relationships fetch, the first nodes if
      they were found by a scan, and its candidates under their names. */
  ghost predicate Adds(g: Graph, w: Loaded, p: Scan, fs: seq<set<Id>>, v: Loaded)
    requires ValidScan(p) && |fs| == |p.nodes|
  {
    && (forall e :: e in v.edges <==> e in w.edges || exists i: nat :: EdgeFetched(g, p, fs, i, e))
    && (forall x :: x in v.nodes <==>
                    || x in w.nodes || (x in fs[0] && !exists y :: Known(w, p.names[0], y))
                    || exists i: nat :: NodeFetched(g, p, fs, i, x))
    && forall name, x :: Known(v, name, x) <==> Known(w, name, x) || (name != "" && exists i :: 0 <= i < |fs| && p.names[i] == name && x in fs[i])
  }

  ghost predicate Loads(g: Graph, w: Loaded, p: Scan, v: Loaded)
    requires ValidScan(p)
  {
    exists fs :: AreFrontiers(g, w, p, fs) && Adds(g, w, p, fs, v)
  }

  // ---- the loader does just that ----

  ghost function FrontierAt(g: Graph, p: Scan, root: set<Id>, i: nat): set<Id>
    requires ValidScan(p) && i <= |p.rels|
  {
    if i == 0 then root else TargetsWithin(g, p.rels[i - 1], p.nodes[i], FrontierAt(g, p, root, i - 1), p.rels[i - 1].upper)
  }

  ghost function AllFrontiers(g: Graph, p: Scan, root: set<Id>): (fs: seq<set<Id>>)
    requires ValidScan(p)
    ensures |fs| == |p.nodes| && forall i | 0 <= i < |fs| :: fs[i] == FrontierAt(g, p, root, i)
  {
    seq(|p.nodes|, i requires 0 <= i < |p.nodes| => FrontierAt(g, p, root, i))
  }

  lemma FrontiersAre(g: Graph, w: Loaded, p: Scan)
    requires ValidScan(p)
    ensures AreFrontiers(g, w, p, AllFrontiers(g, p, Root(g, w, p.names[0], p.nodes[0])))
  {
    var root := Root(g, w, p.names[0], p.nodes[0]);
    var fs := AllFrontiers(g, p, root);
    forall x ensures x in root <==> Starts(g, w, p, x) { RootIs(g, w, p, x); }
    hide Root, Starts;
    forall i, x | 0 <= i < |p.rels| ensures x in fs[i + 1] <==> Continues(g, p, i, fs[i], x) {
      TargetsMean(g, p.rels[i], p.nodes[i + 1], fs[i], p.rels[i].upper, x);
    }
  }

  lemma RootIs(g: Graph, w: Loaded, p: Scan, x: Id)
    requires ValidScan(p)
    ensures x in Root(g, w, p.names[0], p.nodes[0]) <==> Starts(g, w, p, x)
  {
    KnownIs(w, p.names[0]);
  }

  lemma KnownIs(w: Loaded, name: string)
    ensures forall x :: x in Bound(w, name) <==> Known(w, name, x)
    ensures Bound(w, name) == {} <==> !exists x :: Known(w, name, x)
  {
    if Bound(w, name) != {} {
      var x :| x in Bound(w, name);
      assert Known(w, name, x);
    }
  }

  lemma RebindIs(w: Loaded, name: string, nodes: set<Id>, other: string, x: Id)
    ensures Known(Rebind(w, name, nodes), other, x) <==> Known(w, other, x) || (other != "" && other == name && x in nodes)
    ensures Rebind(w, name, nodes).edges == w.edges && Rebind(w, name, nodes).nodes == w.nodes
  {
  }

  /** What is added from relationship i on. */
  ghost predicate AddsFrom(g: Graph, w: Loaded, p: Scan, fs: seq<set<Id>>, i: nat, v: Loaded)
    requires ValidScan(p) && |fs| == |p.nodes|
  {
    && (forall e :: e in v.edges <==> e in w.edges || exists j: nat :: i <= j && EdgeFetched(g, p, fs, j, e))
    && (forall x :: x in v.nodes <==> x in w.nodes || exists j: nat :: i <= j && NodeFetched(g, p, fs, j, x))
    && forall name, x :: Known(v, name, x) <==> Known(w, name, x) || (name != "" && exists j :: i < j < |fs| && p.names[j] == name && x in fs[j])
  }

  lemma NothingFrom(g: Graph, r: RelScan, target: NodeScan, n: nat)
    ensures EdgesWithin(g, r, {}, n) == {} && NodesWithin(g, r, {}, n) == {} && TargetsWithin(g, r, target, {}, n) == {}
  {
    NothingBeyond(g, r, target, {}, 0, n);
  }

  lemma {:induction false} StaysEmpty(g: Graph, p: Scan, root: set<Id>, i: nat, j: nat)
    requires ValidScan(p) && i <= j <= |p.rels| && FrontierAt(g, p, root, i) == {}
    ensures FrontierAt(g, p, root, j) == {}
    decreases j
  {
    if i < j {
      StaysEmpty(g, p, root, i, j - 1);
      NothingFrom(g, p.rels[j - 1], p.nodes[j], p.rels[j - 1].upper);
    }
  }

  lemma FetchedIs(g: Graph, p: Scan, root: set<Id>, i: nat, x: Id)
    requires ValidScan(p) && i < |p.rels|
    ensures EdgeFetched(g, p, AllFrontiers(g, p, root), i, x) <==> x in EdgesWithin(g, p.rels[i], FrontierAt(g, p, root, i), p.rels[i].upper)
    ensures NodeFetched(g, p, AllFrontiers(g, p, root), i, x) <==> x in NodesWithin(g, p.rels[i], FrontierAt(g, p, root, i), p.rels[i].upper)
  {
    EdgesMean(g, p.rels[i], FrontierAt(g, p, root, i), p.rels[i].upper, x);
    NodesMean(g, p.rels[i], FrontierAt(g, p, root, i), p.rels[i].upper, x);
    hide FrontierAt, EdgesWithin, NodesWithin, FetchedWithin, Reached;
  }

  lemma NothingFetched(g: Graph, p: Scan, root: set<Id>, i: nat, w: Loaded)
    requires ValidScan(p) && i <= |p.rels| && (i == |p.rels| || FrontierAt(g, p, root, i) == {})
    ensures AddsFrom(g, w, p, AllFrontiers(g, p, root), i, w)
  {
    var fs := AllFrontiers(g, p, root);
    forall j: nat, x | i <= j ensures !EdgeFetched(g, p, fs, j, x) && !NodeFetched(g, p, fs, j, x) {
      if j < |p.rels| {
        StaysEmpty(g, p, root, i, j);
        NothingFrom(g, p.rels[j], p.nodes[j + 1], p.rels[j].upper);
        FetchedIs(g, p, root, j, x);
      }
    }
    forall j | i < j < |fs| ensures fs[j] == {} { StaysEmpty(g, p, root, i, j); }
    hide Known, EdgeFetched, NodeFetched;
  }

  lemma {:induction false} ExpandAdds(g: Graph, w: Loaded, p: Scan, root: set<Id>, i: nat)
    requires ValidScan(p) && i <= |p.rels|
    ensures AddsFrom(g, w, p, AllFrontiers(g, p, root), i, Expand(g, w, p, i, FrontierAt(g, p, root, i)))
    decreases |p.rels| - i
  {
    var frontier := FrontierAt(g, p, root, i);
    if i == |p.rels| || (i > 0 && frontier == {}) {
      NothingFetched(g, p, root, i, w);
    } else {
      var r, next := p.rels[i], FrontierAt(g, p, root, i + 1);
      var more := w.(edges := w.edges + EdgesWithin(g, r, frontier, r.upper), nodes := w.nodes + NodesWithin(g, r, frontier, r.upper));
      var after := Rebind(more, p.names[i + 1], next);
      assert Expand(g, w, p, i, frontier) == Expand(g, after, p, i + 1, next);
      ExpandAdds(g, after, p, root, i + 1);
      AddedFirst(g, w, after, p, root, i, Expand(g, w, p, i, frontier));
    }
  }

  lemma AddedFirst(g: Graph, w: Loaded, after: Loaded, p: Scan, root: set<Id>, i: nat, v: Loaded)
    requires ValidScan(p) && i < |p.rels|
    requires var frontier := FrontierAt(g, p, root, i);
             after == Rebind(w.(edges := w.edges + EdgesWithin(g, p.rels[i], frontier, p.rels[i].upper),
                                nodes := w.nodes + NodesWithin(g, p.rels[i], frontier, p.rels[i].upper)),
                             p.names[i + 1], FrontierAt(g, p, root, i + 1))
    requires AddsFrom(g, after, p, AllFrontiers(g, p, root), i + 1, v)
    ensures AddsFrom(g, w, p, AllFrontiers(g, p, root), i, v)
  {
    var fs := AllFrontiers(g, p, root);
    var more := w.(edges := w.edges + EdgesWithin(g, p.rels[i], fs[i], p.rels[i].upper), nodes := w.nodes + NodesWithin(g, p.rels[i], fs[i], p.rels[i].upper));
    RebindIs(more, p.names[i + 1], fs[i + 1], "", "");
    hide Rebind, EdgeFetched, NodeFetched, EdgesWithin, NodesWithin, FrontierAt;
    forall e ensures e in v.edges <==> e in w.edges || exists j: nat :: i <= j && EdgeFetched(g, p, fs, j, e) {
      FetchedIs(g, p, root, i, e);
      assert e in after.edges <==> e in w.edges || EdgeFetched(g, p, fs, i, e);
    }
    forall x ensures x in v.nodes <==> x in w.nodes || exists j: nat :: i <= j && NodeFetched(g, p, fs, j, x) {
      FetchedIs(g, p, root, i, x);
      assert x in after.nodes <==> x in w.nodes || NodeFetched(g, p, fs, i, x);
    }
    forall name, x ensures Known(v, name, x) <==> Known(w, name, x) || (name != "" && exists j :: i < j < |fs| && p.names[j] == name && x in fs[j]) {
      RebindIs(more, p.names[i + 1], fs[i + 1], name, x);
      NamesFrom(p, fs, i, name, x);
      assert Known(more, name, x) <==> Known(w, name, x);
    }
  }

  lemma NamesFrom(p: Scan, fs: seq<set<Id>>, i: nat, name: string, x: Id)
    requires |fs| == |p.names| && i + 1 < |fs|
    ensures (exists j :: i < j < |fs| && p.names[j] == name && x in fs[j])
            <==> (p.names[i + 1] == name && x in fs[i + 1]) || exists j :: i + 1 < j < |fs| && p.names[j] == name && x in fs[j]
  {
  }

  /** A pattern adds exactly what its relationships can step over, and the nodes there. */
  lemma PatternMeans(g: Graph, w: Loaded, p: Scan)
    requires ValidScan(p)
    ensures Loads(g, w, p, LoadPattern(g, w, p))
  {
    var root := Root(g, w, p.names[0], p.nodes[0]);
    var fs, start, v := AllFrontiers(g, p, root), AfterRoot(g, w, p), LoadPattern(g, w, p);
    FrontiersAre(g, w, p);
    assert fs[0] == root;
    ExpandAdds(g, start, p, root, 0);
    KnownIs(w, p.names[0]);
    var before := if Bound(w, p.names[0]) != {} then w else w.(nodes := w.nodes + root);
    forall name, x ensures Known(start, name, x) <==> Known(w, name, x) || (name != "" && name == p.names[0] && x in root) {
      RebindIs(before, p.names[0], root, name, x);
    }
    RebindIs(before, p.names[0], root, "", "");
    hide Root, Rebind, AfterRoot, Expand, FrontierAt, Known, EdgeFetched, NodeFetched, AreFrontiers, Bound;
    assert AddsFrom(g, start, p, fs, 0, v);
    assert Adds(g, w, p, fs, v);
  }

  // ---- the whole query ----

  /** The patterns are loaded one after the other. */
  ghost predicate LoadsAll(g: Graph, w: Loaded, ps: seq<Scan>, v: Loaded)
    requires ValidScans(ps)
  {
    exists states: seq<Loaded> ::
      && |states| == |ps| + 1 && states[0] == w && states[|ps|] == v
      && forall i | 0 <= i < |ps| :: Loads(g, states[i], ps[i], states[i + 1])
  }

  lemma {:induction false} LoadMeans(g: Graph, w: Loaded, ps: seq<Scan>)
    requires ValidScans(ps)
    ensures LoadsAll(g, w, ps, LoadPatterns(g, w, ps))
    decreases |ps|
  {
    hide LoadPattern, Loads;
    if ps == [] {
      assert [w][0] == w;
    } else {
      var next := LoadPattern(g, w, ps[0]);
      PatternMeans(g, w, ps[0]);
      LoadMeans(g, next, ps[1..]);
      var later: seq<Loaded> :| && |later| == |ps[1..]| + 1 && later[0] == next && later[|ps[1..]|] == LoadPatterns(g, next, ps[1..])
                                && forall i | 0 <= i < |ps[1..]| :: Loads(g, later[i], ps[1..][i], later[i + 1]);
      var states := [w] + later;
      forall i | 0 <= i < |ps| ensures Loads(g, states[i], ps[i], states[i + 1]) {
        if i > 0 { assert ps[1..][i - 1] == ps[i] && Loads(g, later[i - 1], ps[1..][i - 1], later[i]); }
      }
      assert states[|ps|] == LoadPatterns(g, w, ps);
    }
  }

  /** Some scan of some relationship of the query finds the edge. */
  ghost predicate Scanned(ps: seq<Scan>, e: Id) {
    exists i, j, k :: 0 <= i < |ps| && 0 <= j < |ps[i].rels| && 0 <= k < |ps[i].rels[j].alternatives| && ps[i].rels[j].alternatives[k](e)
  }

  /** Nothing else is loaded: every edge was found by a scan of the query. */
  lemma {:induction false} OnlyScanned(g: Graph, w: Loaded, ps: seq<Scan>, e: Id)
    requires ValidScans(ps) && e in LoadPatterns(g, w, ps).edges
    ensures e in w.edges || Scanned(ps, e)
    decreases |ps|
  {
    if ps != [] {
      var next := LoadPattern(g, w, ps[0]);
      OnlyScanned(g, next, ps[1..], e);
      if e in next.edges && e !in w.edges {
        PatternMeans(g, w, ps[0]);
        FoundByScan(g, w, ps[0], next, e);
        var j, k :| 0 <= j < |ps[0].rels| && 0 <= k < |ps[0].rels[j].alternatives| && ps[0].rels[j].alternatives[k](e);
        assert Scanned(ps, e);
      } else if e !in w.edges {
        var i, j, k :| 0 <= i < |ps[1..]| && 0 <= j < |ps[1..][i].rels| && 0 <= k < |ps[1..][i].rels[j].alternatives| && ps[1..][i].rels[j].alternatives[k](e);
        assert ps[1..][i] == ps[i + 1];
        assert Scanned(ps, e);
      }
    }
  }

  lemma FoundByScan(g: Graph, w: Loaded, p: Scan, v: Loaded, e: Id)
    requires ValidScan(p) && Loads(g, w, p, v) && e in v.edges && e !in w.edges
    ensures exists j, k :: 0 <= j < |p.rels| && 0 <= k < |p.rels[j].alternatives| && p.rels[j].alternatives[k](e)
  {
    hide Starts, Continues, Reached, NodeFetched, Known;
    var fs :| AreFrontiers(g, w, p, fs) && Adds(g, w, p, fs, v);
    var j: nat :| EdgeFetched(g, p, fs, j, e);
    var d: nat, a, b :| d < p.rels[j].upper && Reached(g, p.rels[j], fs[j], a, d) && StepsOver(g, p.rels[j], a, e, b);
    var k :| 0 <= k < |p.rels[j].alternatives| && p.rels[j].alternatives[k](e);
  }

  /** The graph matched on has the nodes and edges loaded, with their ends, and no other. */
  lemma WorkingGraphMeans(g: Graph, w: Loaded)
    ensures WorkingGraph(g, w).nodes == w.nodes
    ensures forall e :: e in WorkingGraph(g, w).edges <==> e in w.edges && e in g.edges
    ensures forall e | e in WorkingGraph(g, w).edges :: WorkingGraph(g, w).edges[e] == g.edges[e]
  {
  }
}
