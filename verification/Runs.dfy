/** Whole runs of batches: what a reader pinned to a revision can rely on, which
    batches leave no trace, and the integrity checks the store runs on open. */
module Runs {
  import opened Base
  import opened GraphRules
  import opened Tables
  import opened Store
  import opened EntityId
  import Text
  import V = Versions

  // ---- runs ----

  ghost predicate IsPrefix(a: seq<Graph>, b: seq<Graph>) {
    |a| <= |b| && forall r | 0 <= r < |a| :: b[r] == a[r]
  }

  /** Runs batches one after the other on one store. */
  method Run(store: Store, batches: seq<Batch>)
    requires ValidStore(store.tables)
    modifies store
    ensures ValidStore(store.tables)
    ensures IsPrefix(old(States(store.tables)), States(store.tables))
    ensures NoRepeats(old(States(store.tables)), States(store.tables))
    ensures old(store.tables.revisions) <= store.tables.revisions
  {
    hide ValidStore, After, Reports, States;
    for i := 0 to |batches|
      invariant ValidStore(store.tables)
      invariant IsPrefix(old(States(store.tables)), States(store.tables))
      invariant NoRepeats(old(States(store.tables)), States(store.tables))
      invariant old(store.tables.revisions) <= store.tables.revisions
    {
      assert !HasUnsealed(store.tables.revisions) by { SealedStore(store.tables); }
      AfterExtends(States(store.tables), Unavailable(store.tables.revisions, |store.tables.revisions|, batches[i].meta, batches[i].clock), batches[i]);
      var result := store.Write(batches[i]);
    }
  }

  /** A batch only ever appends a state that differs from the last one. */
  lemma AfterExtends(past: seq<Graph>, unavailable: Option<Error>, b: Batch)
    requires |past| > 0
    ensures IsPrefix(past, After(past, unavailable, b)) && NoRepeats(past, After(past, unavailable, b))
  {
  }

  lemma SealedStore(t: Tables)
    requires ValidStore(t)
    ensures !HasUnsealed(t.revisions)
  {
  }

  /** Each new state differs from the one before it. */
  ghost predicate NoRepeats(before: seq<Graph>, after: seq<Graph>)
    requires |before| > 0
  {
    forall r | |before| <= r < |after| :: after[r] != after[r - 1]
  }

  // ---- batches that leave no trace ----

  lemma {:induction false} PlayOne(past: seq<Graph>, unavailable: Option<Error>, ops: seq<Op>, op: Op)
    requires |past| > 0
    ensures var before := Play(past, unavailable, ops);
            var step := Meaning(before.graph, UsedNodes(past, before.graph), UsedEdges(past, before.graph), unavailable, op);
            Play(past, unavailable, ops + [op]) ==
            Played(step.graph, if before.failure.Some? then before.failure else step.error)
  {
    assert (ops + [op])[..|ops|] == ops;
  }

  lemma DeleteUndoesCreate(g: Graph, used: set<Id>, unavailable: Option<Error>, create: Op)
    requires create.CreateNode? && EndpointsLive(g) && g.nodes.Keys <= used
    requires NodeCreated(g, used, unavailable, create).error.None?
    ensures NodeDeleted(NodeCreated(g, used, unavailable, create).graph, unavailable,
                        ChosenId(create.id, create.generated)) == Step(g, None)
  {
    var id := ChosenId(create.id, create.generated);
    assert WithoutNode(NodeCreated(g, used, unavailable, create).graph, id) == g;
  }

  /** Creating a node and deleting it again records nothing. */
  lemma CreateThenDeleteCollapses(past: seq<Graph>, unavailable: Option<Error>, b: Batch, create: Op)
    requires |past| > 0 && create.CreateNode? && EndpointsLive(past[|past| - 1])
    requires b.ops == [create, DeleteNode(ChosenId(create.id, create.generated))]
    ensures After(past, unavailable, b) == past
  {
    hide NodeCreated, NodeDeleted, EndpointsLive;
    var id := ChosenId(create.id, create.generated);
    var g := past[|past| - 1];
    PlayOne(past, unavailable, [], create);
    PlayOne(past, unavailable, [create], DeleteNode(id));
    assert [] + [create] == [create];
    assert [create] + [DeleteNode(id)] == b.ops;
    if NodeCreated(g, UsedNodes(past, g), unavailable, create).error.None? {
      DeleteUndoesCreate(g, UsedNodes(past, g), unavailable, create);
    }
  }

  /** Updating a node's body and putting the old body back records nothing. */
  lemma UpdateThenRevertCollapses(past: seq<Graph>, b: Batch, id: Id, body: string)
    requires |past| > 0 && id in past[|past| - 1].nodes
    requires Text.ByteLen(past[|past| - 1].nodes[id].body) <= MAX_NODE_BODY_BYTES
    requires b.ops == [UpdateNode(id, None, None, Some(body)),
                       UpdateNode(id, None, None, Some(past[|past| - 1].nodes[id].body))]
    ensures forall unavailable: Option<Error> :: After(past, unavailable, b) == past
  {
    var g := past[|past| - 1];
    forall unavailable: Option<Error> ensures After(past, unavailable, b) == past {
      PlayOne(past, unavailable, [], b.ops[0]);
      PlayOne(past, unavailable, [b.ops[0]], b.ops[1]);
      assert [] + [b.ops[0]] == [b.ops[0]];
      assert [b.ops[0]] + [b.ops[1]] == b.ops;
      var middle := Play(past, unavailable, [b.ops[0]]);
      assert middle.graph.edges == g.edges;
      assert middle.graph.nodes[id := g.nodes[id]] == g.nodes;
    }
  }

  /** An error of any mutation, even one the callback ignores, rolls the batch back. */
  lemma {:induction false} FailureIsFinal(past: seq<Graph>, unavailable: Option<Error>, b: Batch, n: nat)
    requires |past| > 0 && n < |b.ops|
    requires var before := Play(past, unavailable, b.ops[..n]).graph;
             Meaning(before, UsedNodes(past, before), UsedEdges(past, before), unavailable, b.ops[n]).error.Some?
    ensures After(past, unavailable, b) == past
  {
    FailureStays(past, unavailable, b.ops, n, |b.ops|);
    assert b.ops[..|b.ops|] == b.ops;
  }

  lemma {:induction false} FailureStays(past: seq<Graph>, unavailable: Option<Error>, ops: seq<Op>, n: nat, m: nat)
    requires |past| > 0 && n < m <= |ops|
    requires var before := Play(past, unavailable, ops[..n]).graph;
             Meaning(before, UsedNodes(past, before), UsedEdges(past, before), unavailable, ops[n]).error.Some?
    ensures Play(past, unavailable, ops[..m]).failure.Some?
    decreases m
  {
    hide Meaning, UsedNodes, UsedEdges;
    PlayOne(past, unavailable, ops[..m - 1], ops[m - 1]);
    assert ops[..m - 1] + [ops[m - 1]] == ops[..m];
    if n < m - 1 { FailureStays(past, unavailable, ops, n, m - 1); }
  }

  // ---- the integrity checks ----

  ghost predicate LivesAt(nodes: V.History<NodeContent>, id: Id, r: nat) {
    exists k :: V.Shows(nodes, k, id, r)
  }

  ghost predicate OpenNode(nodes: V.History<NodeContent>, id: Id) {
    exists k :: k in nodes.rows && k.id == id && nodes.rows[k].to.None?
  }

  /** A version that began before `to` and did not end before it. */
  ghost predicate LivesUntil(nodes: V.History<NodeContent>, id: Id, to: nat) {
    exists k :: k in nodes.rows && k.id == id && k.from < to
                && (nodes.rows[k].to.None? || nodes.rows[k].to.value >= to)
  }

  lemma EdgeRowIsVisible(t: Tables, k: V.Key, r: nat)
    requires ValidStore(t) && k in t.edges.rows && V.Covers(k, t.edges.rows[k], r) && r <= |t.revisions|
    ensures k.id in GraphAt(t, r).edges && GraphAt(t, r).edges[k.id] == t.edges.rows[k].content
  {
    V.RowIsVisible(t.edges, |t.revisions|, k, r);
  }

  lemma VisibleNodeLives(t: Tables, id: Id, r: nat)
    requires id in GraphAt(t, r).nodes
    ensures LivesAt(t.nodes, id, r)
  {
  }

  /** "edge endpoint lifetime": both endpoints live when an edge version begins
      and as long as it lasts. */
  lemma EndpointLifetimeHolds(t: Tables, k: V.Key, endpoint: Id)
    requires ValidStore(t) && k in t.edges.rows
    requires endpoint == t.edges.rows[k].content.from || endpoint == t.edges.rows[k].content.to
    ensures LivesAt(t.nodes, endpoint, k.from)
    ensures t.edges.rows[k].to.None? ==> OpenNode(t.nodes, endpoint)
    ensures t.edges.rows[k].to.Some? ==> LivesUntil(t.nodes, endpoint, t.edges.rows[k].to.value)
  {
    var top := |t.revisions|;
    var row := t.edges.rows[k];
    assert V.InRange(t.edges, k, top);
    EdgeRowIsVisible(t, k, k.from);
    VisibleNodeLives(t, endpoint, k.from);
    var last := if row.to.None? then top else row.to.value - 1;
    EdgeRowIsVisible(t, k, last);
    VisibleNodeLives(t, endpoint, last);
    var n :| V.Shows(t.nodes, n, endpoint, last);
    V.OpenIsVisible(t.nodes, top, n);
  }

  /** "historical CHILD parent uniqueness": CHILD versions of different edges to
      one node never overlap. */
  lemma ParentUniquenessHolds(t: Tables, a: V.Key, b: V.Key)
    requires ValidStore(t) && a in t.edges.rows && b in t.edges.rows && a.id != b.id
    requires t.edges.rows[a].content.typ == CHILD && t.edges.rows[b].content.typ == CHILD
    requires t.edges.rows[a].content.to == t.edges.rows[b].content.to
    ensures !(t.edges.rows[b].to.None? || a.from < t.edges.rows[b].to.value)
            || !(t.edges.rows[a].to.None? || b.from < t.edges.rows[a].to.value)
  {
    var r := if a.from < b.from then b.from else a.from;
    assert V.InRange(t.edges, a, |t.revisions|) && V.InRange(t.edges, b, |t.revisions|);
    assert ValidGraph(GraphAt(t, r));
    if V.Covers(a, t.edges.rows[a], r) && V.Covers(b, t.edges.rows[b], r) {
      EdgeRowIsVisible(t, a, r);
      EdgeRowIsVisible(t, b, r);
    }
  }

  /** A chain of CHILD versions whose lifetimes share revision r. */
  ghost predicate VersionPath(t: Tables, p: seq<V.Key>, a: Id, b: Id, r: nat) {
    if p == [] then a == b
    else
      && p[0] in t.edges.rows
      && V.Covers(p[0], t.edges.rows[p[0]], r)
      && IsChild(t.edges.rows[p[0]].content, a)
      && VersionPath(t, p[1..], t.edges.rows[p[0]].content.to, b, r)
  }

  function EdgeIds(p: seq<V.Key>): seq<Id> {
    seq(|p|, i requires 0 <= i < |p| => p[i].id)
  }

  lemma {:induction false} VersionPathIsPath(t: Tables, p: seq<V.Key>, a: Id, b: Id, r: nat)
    requires ValidStore(t) && r <= |t.revisions| && VersionPath(t, p, a, b, r)
    ensures ChildPath(GraphAt(t, r).edges, EdgeIds(p), a, b)
  {
    hide ValidStore, GraphAt;
    if p != [] {
      EdgeRowIsVisible(t, p[0], r);
      VersionPathIsPath(t, p[1..], t.edges.rows[p[0]].content.to, b, r);
      assert EdgeIds(p)[1..] == EdgeIds(p[1..]);
    }
  }

  /** "historical CHILD acyclicity": no chain of CHILD versions with a common
      revision leads back to where it began. */
  lemma AcyclicityHolds(t: Tables, p: seq<V.Key>, a: Id, r: nat)
    requires ValidStore(t) && r <= |t.revisions| && p != []
    ensures !VersionPath(t, p, a, a, r)
  {
    assert |EdgeIds(p)| == |p|;
    assert ValidGraph(GraphAt(t, r));
    if VersionPath(t, p, a, a, r) {
      VersionPathIsPath(t, p, a, a, r);
    }
  }

  ghost predicate NoEdgeAt(edges: map<Id, EdgeContent>, id: Id) {
    forall x | x in edges :: edges[x].from != id && edges[x].to != id
  }

  /** Deleting the identity of a node created in the same batch violates no
      foreign key: once its current edges are closed, no edge version names it. */
  lemma NewNodeIsUnreferenced(t: Tables, base: nat, id: Id, k: V.Key)
    requires V.Valid(t.nodes, base + 1) && V.Valid(t.edges, base + 1)
    requires forall r: nat | r <= base :: EndpointsLive(GraphAt(t, r))
    requires id in t.nodes.created && t.nodes.created[id] == base + 1
    requires NoEdgeAt(GraphAt(t, base + 1).edges, id)
    requires k in t.edges.rows
    ensures t.edges.rows[k].content.from != id && t.edges.rows[k].content.to != id
  {
    hide V.Valid, V.At;
    V.RowRange(t.edges, base + 1, k);
    V.RowIsVisible(t.edges, base + 1, k, k.from);
    var g := GraphAt(t, k.from);
    if k.from <= base {
      NotYetVisible(t, base, id, k.from);
      assert EndpointsLive(g);
    }
  }

  lemma NotYetVisible(t: Tables, base: nat, id: Id, r: nat)
    requires V.Valid(t.nodes, base + 1) && id in t.nodes.created && r < t.nodes.created[id]
    ensures id !in GraphAt(t, r).nodes
  {
    forall k | k in t.nodes.rows && k.id == id ensures r < k.from {
      assert V.InRange(t.nodes, k, base + 1);
    }
  }
}
