/** The store's write path: one batch of mutations over the version tables,
    sealed as a revision, collapsed as a no-op, or rolled back. */
module WriteTx {
  import opened Base
  import opened EntityId
  import opened GraphRules
  import opened Tables
  import Sorted
  import Text
  import V = Versions
  import M = MutationMeaning

  datatype RevisionInfo = RevisionInfo(revision: nat, time: int, actor: string, message: string)
  datatype WriteResult = WriteResult(revision: nat, changed: bool, info: Option<RevisionInfo>)

  // ---- queries ----

  /** SELECT ... WHERE id = ? AND valid_to IS NULL. */
  method FindOpen<C>(h: V.History<C>, ghost top: nat, id: Id) returns (k: Option<V.Key>)
    requires V.Valid(h, top)
    ensures k.Some? <==> id in V.At(h, top)
    ensures k.Some? ==> k.value in h.rows && k.value.id == id && h.rows[k.value].to.None?
                        && h.rows[k.value].content == V.At(h, top)[id]
  {
    if x :| x in h.rows && x.id == id && h.rows[x].to.None? {
      V.OpenRowIsCurrent(h, top, x);
      return Some(x);
    }
    if id in V.At(h, top) {
      ghost var x := V.CurrentHasOpenRow(h, top, id);
      assert false;
    }
    return None;
  }

  /** The content visible at revision r: the join condition of graphChanged. */
  method FindAt<C>(h: V.History<C>, ghost top: nat, id: Id, r: nat) returns (c: Option<C>)
    requires V.Valid(h, top)
    ensures c == V.Lookup(h, id, r)
  {
    if x :| x in h.rows && x.id == id && V.Covers(x, h.rows[x], r) {
      assert V.Shows(h, x, id, r);
      V.LookupIs(h, top, x, r);
      return Some(h.rows[x].content);
    }
    return None;
  }

  /** One half of graphChanged: compares only the touched identities of a table. */
  method TableChanged<C(==)>(h: V.History<C>, base: nat, rev: nat) returns (changed: bool)
    requires rev == base + 1 && V.Valid(h, rev)
    ensures changed <==> V.At(h, base) != V.At(h, rev)
  {
    V.TouchedDecides(h, base);
    var todo := V.Touched(h, rev);
    while todo != {}
      invariant todo <= V.Touched(h, rev)
      invariant forall id | id in V.Touched(h, rev) - todo :: V.Lookup(h, id, base) == V.Lookup(h, id, rev)
      decreases |todo|
    {
      var id :| id in todo;
      var before := FindAt(h, rev, id, base);
      var after := FindAt(h, rev, id, rev);
      if before != after { return true; }
      todo := todo - {id};
    }
    return false;
  }

  // ---- CHILD reachability ----

  predicate MatchesChildQuery(k: V.Key, row: V.Row<EdgeContent>, batch: seq<Id>, exclude: Id) {
    row.to.None? && row.content.typ == CHILD && row.content.from in batch && k.id != exclude
  }

  function ChildRows(h: V.History<EdgeContent>, batch: seq<Id>, exclude: Id): set<V.Key> {
    set k | k in h.rows && MatchesChildQuery(k, h.rows[k], batch, exclude)
  }

  /** SELECT to_id FROM edge_versions WHERE valid_to IS NULL AND type = 'CHILD'
      AND from_id IN (batch) AND id <> exclude, rows in no particular order. */
  method QueryChildren(h: V.History<EdgeContent>, batch: seq<Id>, exclude: Id) returns (rows: seq<Id>)
    ensures forall x | x in rows :: exists k :: k in ChildRows(h, batch, exclude) && h.rows[k].content.to == x
    ensures forall k | k in ChildRows(h, batch, exclude) :: h.rows[k].content.to in rows
  {
    var todo := ChildRows(h, batch, exclude);
    rows := [];
    while todo != {}
      invariant todo <= ChildRows(h, batch, exclude)
      invariant forall x | x in rows :: exists k :: k in ChildRows(h, batch, exclude) && h.rows[k].content.to == x
      invariant forall k | k in ChildRows(h, batch, exclude) - todo :: h.rows[k].content.to in rows
      decreases |todo|
    {
      var k :| k in todo;
      rows := rows + [h.rows[k].content.to];
      todo := todo - {k};
    }
  }

  ghost predicate IsChildEdge(edges: map<Id, EdgeContent>, batch: seq<Id>, x: Id, e: Id) {
    e in edges && edges[e].typ == CHILD && edges[e].from in batch && edges[e].to == x
  }

  ghost predicate IsChildOf(edges: map<Id, EdgeContent>, batch: seq<Id>, x: Id) {
    exists e :: IsChildEdge(edges, batch, x, e)
  }

  /** The query sees the CHILD edges of the current snapshot, except one. */
  lemma QuerySeesSnapshot(h: V.History<EdgeContent>, top: nat, batch: seq<Id>, exclude: Id, rows: seq<Id>)
    requires V.Valid(h, top)
    requires forall x | x in rows :: exists k :: k in ChildRows(h, batch, exclude) && h.rows[k].content.to == x
    requires forall k | k in ChildRows(h, batch, exclude) :: h.rows[k].content.to in rows
    ensures forall x :: x in rows <==> IsChildOf(V.At(h, top) - {exclude}, batch, x)
  {
    var edges := V.At(h, top) - {exclude};
    forall x | x in rows ensures IsChildOf(edges, batch, x) {
      var k :| k in ChildRows(h, batch, exclude) && h.rows[k].content.to == x;
      V.OpenRowIsCurrent(h, top, k);
      assert IsChildEdge(edges, batch, x, k.id);
    }
    forall x | IsChildOf(edges, batch, x) ensures x in rows {
      var e :| IsChildEdge(edges, batch, x, e);
      var k := V.CurrentHasOpenRow(h, top, e);
      assert k in ChildRows(h, batch, exclude);
    }
  }

  ghost predicate ClosedUnderChildren(edges: map<Id, EdgeContent>, inside: set<Id>, except: seq<Id>) {
    forall e | e in edges && edges[e].typ == CHILD && edges[e].from in inside && edges[e].from !in except ::
      edges[e].to in inside
  }

  lemma {:induction false} ClosedSetHoldsPaths(edges: map<Id, EdgeContent>, inside: set<Id>, p: seq<Id>, a: Id, b: Id)
    requires ClosedUnderChildren(edges, inside, []) && a in inside && ChildPath(edges, p, a, b)
    ensures b in inside
  {
    if p != [] { ClosedSetHoldsPaths(edges, inside, p[1..], edges[p[0]].to, b); }
  }

  lemma ChildIsReached(edges: map<Id, EdgeContent>, start: Id, batch: seq<Id>, x: Id)
    requires forall b | b in batch :: Reaches(edges, start, b)
    requires IsChildOf(edges, batch, x)
    ensures Reaches(edges, start, x)
  {
    var e :| IsChildEdge(edges, batch, x, e);
    assert ChildPath(edges, [e] + [], edges[e].from, x);
    ReachesIsTransitive(edges, start, edges[e].from, x);
  }

  const BATCH_SIZE: nat := 400

  /** The row loop of one batch: queues what is new, stops at the goal. */
  method Visit(rows: seq<Id>, goal: Id, seen0: set<Id>, queue0: seq<Id>)
      returns (found: bool, seen: set<Id>, queue: seq<Id>)
    ensures found ==> goal in rows
    ensures !found ==> goal !in rows && seen == seen0 + set x | x in rows
    ensures forall x | x in queue :: x in queue0 || x in rows
    ensures forall x :: x in queue0 || x in seen - seen0 ==> x in queue
    ensures seen == seen0 ==> queue == queue0
  {
    found, seen, queue := false, seen0, queue0;
    for i := 0 to |rows|
      invariant goal !in rows[..i]
      invariant seen == seen0 + set x | x in rows[..i]
      invariant forall x | x in queue :: x in queue0 || x in rows
      invariant forall x :: x in queue0 || x in seen - seen0 ==> x in queue
      invariant seen == seen0 ==> queue == queue0
    {
      assert rows[..i + 1] == rows[..i] + [rows[i]];
      if rows[i] == goal { found := true; return; }
      if rows[i] !in seen {
        seen := seen + {rows[i]};
        queue := queue + [rows[i]];
      }
    }
    assert rows[..|rows|] == rows;
  }

  lemma BatchClosed(edges: map<Id, EdgeContent>, seen0: set<Id>, queue0: seq<Id>, n: nat, rows: seq<Id>,
          seen: set<Id>, queue: seq<Id>)
    requires n <= |queue0| && ClosedUnderChildren(edges, seen0, queue0)
    requires forall x :: x in rows <==> IsChildOf(edges, queue0[..n], x)
    requires seen == seen0 + set x | x in rows
    requires forall x :: x in queue0[n..] || x in seen - seen0 ==> x in queue
    ensures ClosedUnderChildren(edges, seen, queue)
  {
    forall e | e in edges && edges[e].typ == CHILD && edges[e].from in seen && edges[e].from !in queue
      ensures edges[e].to in seen
    {
      var from := edges[e].from;
      if from in queue0 {
        assert queue0 == queue0[..n] + queue0[n..];
        assert from in queue0[..n];
        assert IsChildEdge(edges, queue0[..n], edges[e].to, e);
      }
    }
  }

  ghost function Known(edges: map<Id, EdgeContent>, start: Id): set<Id> {
    {start} + set e | e in edges :: edges[e].to
  }

  /** What holds between two batches of the walk. */
  ghost predicate Walked(edges: map<Id, EdgeContent>, start: Id, goal: Id, seen: set<Id>, queue: seq<Id>) {
    && start in seen && goal !in seen && seen <= Known(edges, start)
    && (forall x | x in queue :: x in seen)
    && (forall x | x in seen :: Reaches(edges, start, x))
    && ClosedUnderChildren(edges, seen, queue)
  }

  lemma WalkStarts(edges: map<Id, EdgeContent>, start: Id, goal: Id)
    ensures Reaches(edges, start, start)
    ensures start != goal ==> Walked(edges, start, goal, {start}, [start])
  {
    assert ChildPath(edges, [], start, start);
  }

  lemma WalkFindsGoal(edges: map<Id, EdgeContent>, start: Id, goal: Id, seen: set<Id>, queue: seq<Id>, n: nat,
          rows: seq<Id>)
    requires n <= |queue| && Walked(edges, start, goal, seen, queue)
    requires goal in rows && forall x :: x in rows <==> IsChildOf(edges, queue[..n], x)
    ensures Reaches(edges, start, goal)
  {
    ChildIsReached(edges, start, queue[..n], goal);
  }

  lemma WalkContinues(edges: map<Id, EdgeContent>, start: Id, goal: Id, seen0: set<Id>, queue0: seq<Id>, n: nat,
                      rows: seq<Id>, seen: set<Id>, queue: seq<Id>)
    requires n <= |queue0| && Walked(edges, start, goal, seen0, queue0)
    requires forall x :: x in rows <==> IsChildOf(edges, queue0[..n], x)
    requires goal !in rows && seen == seen0 + set x | x in rows
    requires forall x | x in queue :: x in queue0[n..] || x in rows
    requires forall x :: x in queue0[n..] || x in seen - seen0 ==> x in queue
    ensures Walked(edges, start, goal, seen, queue)
    ensures seen != seen0 ==> |Known(edges, start) - seen| < |Known(edges, start) - seen0|
  {
    forall x | x in rows ensures Reaches(edges, start, x) && x in Known(edges, start) {
      ChildIsReached(edges, start, queue0[..n], x);
    }
    BatchClosed(edges, seen0, queue0, n, rows, seen, queue);
    if seen != seen0 { SmallerSet(Known(edges, start) - seen, Known(edges, start) - seen0); }
  }

  lemma WalkEnds(edges: map<Id, EdgeContent>, start: Id, goal: Id, seen: set<Id>)
    requires Walked(edges, start, goal, seen, [])
    ensures !Reaches(edges, start, goal)
  {
    if p :| ChildPath(edges, p, start, goal) {
      ClosedSetHoldsPaths(edges, seen, p, start, goal);
    }
  }

  /** Breadth-first walk in batches of at most 400 source nodes. */
  method ChildPathExists(h: V.History<EdgeContent>, ghost top: nat, ghost edges: map<Id, EdgeContent>,
                         start: Id, goal: Id, exclude: Id) returns (found: bool)
    requires V.Valid(h, top) && edges == V.At(h, top) - {exclude}
    ensures found <==> Reaches(edges, start, goal)
  {
    WalkStarts(edges, start, goal);
    if start == goal { return true; }
    var seen := {start};
    var queue := [start];
    while |queue| > 0
      invariant Walked(edges, start, goal, seen, queue)
      decreases |Known(edges, start) - seen|, |queue|
    {
      var batchSize := if |queue| < BATCH_SIZE then |queue| else BATCH_SIZE;
      var batch := queue[..batchSize];
      var rows := QueryChildren(h, batch, exclude);
      QuerySeesSnapshot(h, top, batch, exclude, rows);
      ghost var queue0, seen0 := queue, seen;
      found, seen, queue := Visit(rows, goal, seen, queue[batchSize..]);
      if found {
        WalkFindsGoal(edges, start, goal, seen0, queue0, batchSize, rows);
        return true;
      }
      WalkContinues(edges, start, goal, seen0, queue0, batchSize, rows, seen, queue);
    }
    WalkEnds(edges, start, goal, seen);
    return false;
  }

  lemma {:induction false} SmallerSet<T>(a: set<T>, b: set<T>)
    requires a < b
    ensures |a| < |b|
  {
    var x :| x in b && x !in a;
    Sorted.SubsetSize(a, b - {x});
  }

  /** Is there another current CHILD edge with this target? */
  method HasParent(h: V.History<EdgeContent>, ghost top: nat, ghost edges: map<Id, EdgeContent>, e: EdgeContent,
          exclude: Id)
      returns (taken: bool)
    requires V.Valid(h, top) && edges == V.At(h, top)
    ensures taken <==> HasOtherParent(edges, e, exclude)
  {
    if k :| k in h.rows && h.rows[k].to.None? && h.rows[k].content.typ == CHILD && h.rows[k].content.to == e.to && k.id != exclude {
      V.OpenRowIsCurrent(h, top, k);
      return true;
    }
    if x :| x in edges && x != exclude && edges[x].typ == CHILD && edges[x].to == e.to {
      ghost var k := V.CurrentHasOpenRow(h, top, x);
    }
    return false;
  }

  // ---- deleting a node's edges ----

  predicate Touches(e: EdgeContent, id: Id) {
    e.from == id || e.to == id
  }

  predicate IncidentRow(row: V.Row<EdgeContent>, id: Id) {
    row.to.None? && Touches(row.content, id)
  }

  function WithoutIncident(edges: map<Id, EdgeContent>, id: Id): map<Id, EdgeContent> {
    map x | x in edges && !Touches(edges[x], id) :: edges[x]
  }

  ghost predicate SamePast(h: V.History<EdgeContent>, g: V.History<EdgeContent>, rev: nat) {
    forall r: nat | r < rev :: V.At(g, r) == V.At(h, r)
  }

  /** Snapshots of two edge tables agree, apart from edges at one node. */
  ghost predicate AgreeAway(h: V.History<EdgeContent>, g: V.History<EdgeContent>, rev: nat, id: Id) {
    WithoutIncident(V.At(g, rev), id) == WithoutIncident(V.At(h, rev), id)
  }

  /** The rows of the incident-edge query, then closeEdge for each. */
  method CloseIncident(h: V.History<EdgeContent>, rev: nat, id: Id) returns (g: V.History<EdgeContent>)
    requires V.Valid(h, rev)
    ensures V.Valid(g, rev) && SamePast(h, g, rev)
    ensures V.At(g, rev) == WithoutIncident(V.At(h, rev), id)
  {
    g := h;
    var todo := set k | k in h.rows && IncidentRow(h.rows[k], id);
    while todo != {}
      invariant V.Valid(g, rev) && SamePast(h, g, rev) && AgreeAway(h, g, rev, id)
      invariant todo == set k | k in g.rows && IncidentRow(g.rows[k], id)
      decreases |todo|
    {
      var k :| k in todo;
      V.Closed(g, k, rev);
      CloseOneIncident(g, k, rev, id);
      g := V.Close(g, k, rev);
      todo := todo - {k};
    }
    assert forall k | k in g.rows :: !IncidentRow(g.rows[k], id) by {
      forall k | k in g.rows && IncidentRow(g.rows[k], id) ensures k in todo { }
    }
    NoneLeft(g, rev, id);
  }

  lemma CloseOneIncident(g: V.History<EdgeContent>, k: V.Key, rev: nat, id: Id)
    requires V.Valid(g, rev) && k in g.rows && IncidentRow(g.rows[k], id)
    ensures k.id in g.created
    ensures AgreeAway(g, V.Close(g, k, rev), rev, id)
    ensures (set x | x in V.Close(g, k, rev).rows && IncidentRow(V.Close(g, k, rev).rows[x], id))
            == (set x | x in g.rows && IncidentRow(g.rows[x], id)) - {k}
  {
    hide V.Valid, V.OnlyChanges, V.At;
    V.Closed(g, k, rev);
    V.OpenRowIsCurrent(g, rev, k);
    var after := V.Close(g, k, rev);
    forall x | x in g.rows && x.id == k.id && x != k ensures g.rows[x].to.Some? {
      V.OlderVersionsEnded(g, k, rev, x);
    }
    forall x | x in g.rows && x.id != k.id ensures x in after.rows && after.rows[x] == g.rows[x] {
      V.CloseKeepsOthers(g, k, rev, x);
    }
  }

  lemma NoneLeft(g: V.History<EdgeContent>, rev: nat, id: Id)
    requires V.Valid(g, rev) && forall k | k in g.rows :: !IncidentRow(g.rows[k], id)
    ensures V.At(g, rev) == WithoutIncident(V.At(g, rev), id)
  {
    forall x | x in V.At(g, rev) ensures !Touches(V.At(g, rev)[x], id) {
      var k := V.CurrentHasOpenRow(g, rev, x);
    }
  }

  // ---- what a statement group does to the snapshots ----

  lemma EdgesCleared(t: Tables, edges: V.History<EdgeContent>, rev: nat, id: Id)
    requires SamePast(t.edges, edges, rev) && V.At(edges, rev) == WithoutIncident(V.At(t.edges, rev), id)
    ensures forall r: nat | r < rev :: GraphAt(t.(edges := edges), r) == GraphAt(t, r)
    ensures GraphAt(t.(edges := edges), rev) == GraphAt(t, rev).(edges := WithoutIncident(GraphAt(t, rev).edges, id))
  {
  }

  lemma NodeWritten(t: Tables, nodes: V.History<NodeContent>, rev: nat, id: Id, after: Option<NodeContent>)
    requires V.Changes(t.nodes, nodes, id, rev, after)
    ensures forall r: nat | r < rev :: GraphAt(t.(nodes := nodes), r) == GraphAt(t, r)
    ensures GraphAt(t.(nodes := nodes), rev) ==
            GraphAt(t, rev).(nodes := if after.Some? then GraphAt(t, rev).nodes[id := after.value] else GraphAt(t, rev).nodes - {id})
  {
  }

  lemma EdgeWritten(t: Tables, edges: V.History<EdgeContent>, rev: nat, id: Id, after: Option<EdgeContent>)
    requires V.Changes(t.edges, edges, id, rev, after)
    ensures forall r: nat | r < rev :: GraphAt(t.(edges := edges), r) == GraphAt(t, r)
    ensures GraphAt(t.(edges := edges), rev) ==
            GraphAt(t, rev).(edges := if after.Some? then GraphAt(t, rev).edges[id := after.value] else GraphAt(t, rev).edges - {id})
  {
  }

  datatype NodeView = NodeView(id: Id, content: NodeContent, validFrom: nat)
  datatype EdgeView = EdgeView(id: Id, content: EdgeContent, validFrom: nat)

  // ---- the transaction ----

  /** The mutation surface handed to a write callback.  `tables` is what its
      connection sees; `start` is what was committed when it began. */
  class Transaction {
    const meta: RevisionMeta
    const clock: int
    const base: nat
    ghost const start: Tables
    var tables: Tables
    var revision: nat
    var info: Option<RevisionInfo>
    var failure: Option<Error>
    var done: bool

    /** The graph the callback sees. */
    ghost function Now(): Graph
      reads this
    {
      GraphAt(tables, base + 1)
    }

    ghost function NoRevision(): Option<Error> {
      Unavailable(start.revisions, base, meta, clock)
    }

    ghost predicate VersionsValid()
      reads this
    {
      V.Valid(tables.nodes, base + 1) && V.Valid(tables.edges, base + 1)
    }

    ghost predicate PastKept()
      reads this
    {
      forall r: nat | r <= base :: GraphAt(tables, r) == GraphAt(start, r)
    }

    /** The revision row exists exactly once the first effective mutation asked for it. */
    ghost predicate RowAllocated()
      reads this
    {
      if revision == 0 then tables == start && info.None?
      else
        && revision == base + 1
        && NoRevision().None?
        && info == Some(RevisionInfo(revision, Allocate(start.revisions, base, meta, clock).value, meta.actor, meta.message))
        && tables.revisions == start.revisions + [RevisionRow(revision, info.value.time, meta.actor, meta.message, false)]
    }

    ghost predicate Valid()
      reads this
    {
      base == |start.revisions| && VersionsValid() && PastKept() && RowAllocated() && ValidGraph(Now())
    }

    constructor (committed: Tables, meta: RevisionMeta, clock: int)
      requires ValidStore(committed)
      ensures Valid() && fresh(this)
      ensures tables == start == committed && this.meta == meta && this.clock == clock
      ensures failure.None? && !done && revision == 0
      ensures Now() == GraphAt(committed, base)
    {
      this.meta, this.clock := meta, clock;
      base := CurrentRevision(committed.revisions);
      start := committed;
      tables := committed;
      revision, info, failure, done := 0, None, None, false;
      new;
      CurrentRevisionIsLast(committed.revisions);
      NothingWritten(committed, base);
    }

    /** Allocates the batch's revision at most once. */
    method EnsureRevision() returns (error: Option<Error>)
      requires Valid()
      modifies this
      ensures Valid() && error == NoRevision()
      ensures tables.nodes == old(tables.nodes) && tables.edges == old(tables.edges)
      ensures Now() == old(Now())
      ensures failure == old(failure) && done == old(done)
      ensures error.None? ==> revision == base + 1
      ensures error.Some? ==> revision == old(revision) && tables == old(tables)
    {
      if revision != 0 { return None; }
      match Allocate(tables.revisions, base, meta, clock)
      case Err(e) => return Some(e);
      case Ok(when) =>
        revision := base + 1;
        info := Some(RevisionInfo(revision, when, meta.actor, meta.message));
        tables := tables.(revisions := tables.revisions + [RevisionRow(revision, when, meta.actor, meta.message, false)]);
        return None;
    }
  
    /** The mutation led to the graph it means and reported the error it means; one
        that changes nothing, or fails, writes nothing, not even a revision row. */
    twostate predicate Did(new meant: Step, new error: Option<Error>)
      reads this
    {
      Valid() && Now() == meant.graph && error == meant.error
      && failure == old(failure) && done == old(done)
      && (meant.graph == old(Now()) ==> tables == old(tables) && revision == old(revision))
    }

    /** Writes back a node table that differs at one identity. */
    method PutNodes(nodes: V.History<NodeContent>, ghost id: Id, ghost after: Option<NodeContent>, ghost next: Graph)
      requires Valid() && revision == base + 1 && V.Valid(nodes, revision)
      requires V.Changes(tables.nodes, nodes, id, revision, after)
      requires next == Now().(nodes := if after.Some? then Now().nodes[id := after.value] else Now().nodes - {id})
      requires ValidGraph(next)
      modifies this`tables
      ensures Valid() && Now() == next
    {
      NodeWritten(tables, nodes, revision, id, after);
      tables := tables.(nodes := nodes);
    }

    /** Writes back an edge table that differs at one identity. */
    method PutEdges(edges: V.History<EdgeContent>, ghost id: Id, ghost after: Option<EdgeContent>, ghost next: Graph)
      requires Valid() && revision == base + 1 && V.Valid(edges, revision)
      requires V.Changes(tables.edges, edges, id, revision, after)
      requires next == Now().(edges := if after.Some? then Now().edges[id := after.value] else Now().edges - {id})
      requires ValidGraph(next)
      modifies this`tables
      ensures Valid() && Now() == next
    {
      EdgeWritten(tables, edges, revision, id, after);
      tables := tables.(edges := edges);
    }

    /** Closes the current edges at a node. */
    method PutCleared(id: Id, ghost next: Graph)
      requires Valid() && revision == base + 1
      requires next == Now().(edges := WithoutIncident(Now().edges, id)) && ValidGraph(next)
      modifies this`tables
      ensures Valid() && Now() == next && tables.nodes == old(tables.nodes)
    {
      var edges := CloseIncident(tables.edges, revision, id);
      EdgesCleared(tables, edges, revision, id);
      tables := tables.(edges := edges);
    }

    lemma DoneIfMeant(op: Op)
      requires Valid()
      ensures Meant(op).error.None? ==> M.Done(Now(), op, Meant(op).graph)
      ensures Meant(op).error.Some? ==> Meant(op).graph == Now()
      ensures Meant(op) == match op
                           case CreateNode(_, _, _, _, _) => NodeCreated(Now(), tables.nodes.created.Keys, NoRevision(), op)
                           case UpdateNode(_, _, _, _) => NodeUpdated(Now(), NoRevision(), op)
                           case DeleteNode(id) => NodeDeleted(Now(), NoRevision(), id)
                           case CreateEdge(_, _, _, _, _, _, _) => EdgeCreated(Now(), tables.edges.created.Keys, NoRevision(), op)
                           case UpdateEdge(_, _, _, _, _, _) => EdgeUpdated(Now(), NoRevision(), op)
                           case DeleteEdge(id) => EdgeDeleted(Now(), NoRevision(), id)
    {
      hide V.Valid, ValidGraph, NodeCreated, NodeUpdated, NodeDeleted, EdgeCreated, EdgeUpdated, EdgeDeleted, PastKept, RowAllocated, NoRevision;
      M.DoneIs(Now(), tables.nodes.created.Keys, tables.edges.created.Keys, NoRevision(), op);
    }

    method CreateNode(op: Op) returns (r: Result<NodeView>)
      requires Valid() && op.CreateNode?
      modifies this
      ensures Did(old(NodeCreated(Now(), tables.nodes.created.Keys, NoRevision(), op)), if r.Err? then Some(r.error) else None)
      ensures r.Ok? ==> r.value.id in Now().nodes && Now().nodes[r.value.id] == r.value.content
      ensures r.Ok? ==> M.Done(old(Now()), op, Now())
    {
      hide V.Valid, V.Changes, V.OnlyChanges, V.At;
      DoneIfMeant(op);
      if Text.ByteLen(op.body) > MAX_NODE_BODY_BYTES { return Err(InvalidArgument); }
      var id := if op.id == "" then op.generated else op.id;
      if !IsEntityId(id) { return Err(InvalidArgument); }
      if op.labels.Err? || op.properties.Err? { return Err(InvalidArgument); }
      if id in tables.nodes.created { return Err(Conflict); }
      var error := EnsureRevision();
      if error.Some? { return Err(error.value); }
      var content := NodeContent(op.labels.value, op.properties.value, op.body);
      V.Inserted(tables.nodes, id, revision, content);
      PutNodes(V.InsertIdentity(tables.nodes, id, revision, content), id, Some(content), Now().(nodes := Now().nodes[id := content]));
      return Ok(NodeView(id, content, revision));
    }
  
    method UpdateNode(op: Op) returns (r: Result<NodeView>)
      requires Valid() && op.UpdateNode?
      modifies this
      ensures Did(old(NodeUpdated(Now(), NoRevision(), op)), if r.Err? then Some(r.error) else None)
      ensures r.Ok? ==> r.value.id in Now().nodes && Now().nodes[r.value.id] == r.value.content
      ensures r.Ok? ==> M.Done(old(Now()), op, Now())
    {
      hide V.Valid, V.Changes, V.OnlyChanges, V.At;
      DoneIfMeant(op);
      var found := FindOpen(tables.nodes, base + 1, op.id);
      if found.None? { return Err(NotFound); }
      var key := found.value;
      var current := tables.nodes.rows[key].content;
      var body := Or(op.newBody, current.body);
      if Text.ByteLen(body) > MAX_NODE_BODY_BYTES { return Err(InvalidArgument); }
      var labels := Or(op.newLabels, Ok(current.labels));
      var properties := Or(op.newProperties, Ok(current.properties));
      if labels.Err? || properties.Err? { return Err(InvalidArgument); }
      var next := NodeContent(labels.value, properties.value, body);
      if next == current { return Ok(NodeView(op.id, current, key.from)); }
      var error := EnsureRevision();
      if error.Some? { return Err(error.value); }
      V.Replaced(tables.nodes, key, revision, next);
      PutNodes(V.Replace(tables.nodes, key, revision, next), op.id, Some(next), Now().(nodes := Now().nodes[op.id := next]));
      return Ok(NodeView(op.id, next, revision));
    }

    /** The checks of an edge about to be written. */
    method CheckEdge(e: EdgeContent, exclude: Id) returns (error: Option<Error>)
      requires Valid()
      ensures error == ValidateEdge(Now(), e, exclude)
    {
      if e.from == "" || e.to == "" { return Some(Constraint("edge_endpoint")); }
      if ValidateType(e.typ).Some? { return ValidateType(e.typ); }
      if e.typ != CHILD && e.position.Some? { return Some(Constraint("edge_position")); }
      var source := FindOpen(tables.nodes, base + 1, e.from);
      if source.None? { return Some(Constraint("edge_endpoint")); }
      var target := FindOpen(tables.nodes, base + 1, e.to);
      if target.None? { return Some(Constraint("edge_endpoint")); }
      if e.typ != CHILD { return None; }
      var taken := HasParent(tables.edges, base + 1, Now().edges, e, exclude);
      if taken { return Some(Constraint("child_parent")); }
      var cycle := ChildPathExists(tables.edges, base + 1, Now().edges - {exclude}, e.to, e.from, exclude);
      if cycle { return Some(Constraint("child_cycle")); }
      return None;
    }

    method CreateEdge(op: Op) returns (r: Result<EdgeView>)
      requires Valid() && op.CreateEdge?
      modifies this
      ensures Did(old(EdgeCreated(Now(), tables.edges.created.Keys, NoRevision(), op)), if r.Err? then Some(r.error) else None)
      ensures r.Ok? ==> r.value.id in Now().edges && Now().edges[r.value.id] == r.value.content
      ensures r.Ok? ==> M.Done(old(Now()), op, Now())
    {
      hide ValidGraph, ValidateEdge, ValidateType, IsEntityId, V.Valid, V.Changes, V.OnlyChanges, V.At, PastKept, RowAllocated;
      DoneIfMeant(op);
      EdgeCreatedKeepsRules(Now(), tables.edges.created.Keys, NoRevision(), op);
      if ValidateType(op.typ).Some? { return Err(ValidateType(op.typ).value); }
      var id := if op.id == "" then op.generated else op.id;
      if !IsEntityId(id) { return Err(InvalidArgument); }
      if op.properties.Err? { return Err(InvalidArgument); }
      var e := EdgeContent(op.from, op.typ, op.to, op.position, op.properties.value);
      var invalid := CheckEdge(e, "");
      if invalid.Some? { return Err(invalid.value); }
      if id in tables.edges.created { return Err(Conflict); }
      var error := EnsureRevision();
      if error.Some? { return Err(error.value); }
      V.Inserted(tables.edges, id, revision, e);
      ghost var before := Now();
      PutEdges(V.InsertIdentity(tables.edges, id, revision, e), id, Some(e), before.(edges := before.edges[id := e]));
      return Ok(EdgeView(id, e, revision));
    }

    method UpdateEdge(op: Op) returns (r: Result<EdgeView>)
      requires Valid() && op.UpdateEdge?
      modifies this
      ensures Did(old(EdgeUpdated(Now(), NoRevision(), op)), if r.Err? then Some(r.error) else None)
      ensures r.Ok? ==> r.value.id in Now().edges && Now().edges[r.value.id] == r.value.content
      ensures r.Ok? ==> M.Done(old(Now()), op, Now())
    {
      hide ValidGraph, ValidateEdge, ValidateType, IsEntityId, V.Valid, V.Changes, V.OnlyChanges, V.At, PastKept, RowAllocated;
      DoneIfMeant(op);
      EdgeUpdatedKeepsRules(Now(), NoRevision(), op);
      var found := FindOpen(tables.edges, base + 1, op.id);
      if found.None? { return Err(NotFound); }
      var key := found.value;
      var current := tables.edges.rows[key].content;
      var next := current;
      if op.newFrom.Some? { next := next.(from := op.newFrom.value); }
      if op.newType.Some? { next := next.(typ := op.newType.value); }
      if op.newTo.Some? { next := next.(to := op.newTo.value); }
      if op.newPosition.Some? { next := next.(position := op.newPosition.value); }
      assert next == UpdatedEdge(current, op);
      var invalid := CheckEdge(next, op.id);
      if invalid.Some? { return Err(invalid.value); }
      var properties := Or(op.newProperties, Ok(current.properties));
      if properties.Err? { return Err(InvalidArgument); }
      next := next.(properties := properties.value);
      if next == current { return Ok(EdgeView(op.id, current, key.from)); }
      var error := EnsureRevision();
      if error.Some? { return Err(error.value); }
      V.Replaced(tables.edges, key, revision, next);
      ghost var before := Now();
      PutEdges(V.Replace(tables.edges, key, revision, next), op.id, Some(next), before.(edges := before.edges[op.id := next]));
      return Ok(EdgeView(op.id, next, revision));
    }

    method DeleteEdge(id: Id) returns (error: Option<Error>)
      requires Valid()
      modifies this
      ensures Did(old(EdgeDeleted(Now(), NoRevision(), id)), error)
      ensures error.None? ==> M.Done(old(Now()), Op.DeleteEdge(id), Now())
    {
      hide ValidGraph, V.Valid, V.Changes, V.OnlyChanges, V.At;
      DoneIfMeant(Op.DeleteEdge(id));
      var found := FindOpen(tables.edges, base + 1, id);
      if found.None? { return Some(NotFound); }
      error := EnsureRevision();
      if error.Some? { return; }
      ghost var before := Now();
      EdgeDeletedKeepsRules(before, id);
      V.Closed(tables.edges, found.value, revision);
      PutEdges(V.Close(tables.edges, found.value, revision), id, None, before.(edges := before.edges - {id}));
    }

    /** Closes the incident edges first and then the node. */
    method DeleteNode(id: Id) returns (error: Option<Error>)
      requires Valid()
      modifies this
      ensures Did(old(NodeDeleted(Now(), NoRevision(), id)), error)
      ensures error.None? ==> M.Done(old(Now()), Op.DeleteNode(id), Now())
    {
      hide ValidGraph, V.Valid, V.Changes, V.OnlyChanges, V.At;
      DoneIfMeant(Op.DeleteNode(id));
      var found := FindOpen(tables.nodes, base + 1, id);
      if found.None? { return Some(NotFound); }
      error := EnsureRevision();
      if error.Some? { return; }
      ghost var before := Now();
      NodeDeletedKeepsRules(before, id);
      PutCleared(id, WithoutNode(before, id).(nodes := before.nodes));
      V.Closed(tables.nodes, found.value, revision);
      PutNodes(V.Close(tables.nodes, found.value, revision), id, None, WithoutNode(before, id));
    }
  
    lemma AcceptedIfLegal(op: Op)
      requires Valid()
      ensures Meant(op).error.None? <==> M.Legal(Now(), tables.nodes.created.Keys, tables.edges.created.Keys, op)
                                         && (M.Changes(Now(), op) ==> NoRevision().None?)
    {
      hide V.Valid, ValidGraph, Meaning, PastKept, RowAllocated, NoRevision, M.Legal, M.Changes;
      M.AcceptedIff(Now(), tables.nodes.created.Keys, tables.edges.created.Keys, NoRevision(), op);
    }

    /** Any mutation, with the failure it leaves behind: the first error of the
        batch stays recorded even if the callback ignores it. */
    method Apply(op: Op) returns (error: Option<Error>)
      requires Valid()
      modifies this
      ensures Valid() && done == old(done)
      ensures done ==> error == Some(Inactive) && tables == old(tables)
      ensures !done ==> Now() == old(Meant(op)).graph && error == old(Meant(op)).error
      ensures old(Meant(op)).graph == old(Now()) ==> tables == old(tables) && revision == old(revision)
      ensures !done ==> (error.None? <==> old(M.Legal(Now(), tables.nodes.created.Keys, tables.edges.created.Keys, op)
                                              && (M.Changes(Now(), op) ==> NoRevision().None?)))
      ensures !done ==> if error.None? then M.Done(old(Now()), op, Now()) else Now() == old(Now())
      ensures failure == if old(failure).Some? then old(failure) else error
    {
      hide ValidGraph, V.Valid, V.At, NodeCreated, NodeUpdated, NodeDeleted, EdgeCreated, EdgeUpdated, EdgeDeleted;
      AcceptedIfLegal(op);
      DoneIfMeant(op);
      if done {
        error := Some(Inactive);
      } else {
        match op {
          case CreateNode(_, _, _, _, _) =>
            var r := CreateNode(op);
            error := if r.Err? then Some(r.error) else None;
          case UpdateNode(_, _, _, _) =>
            var r := UpdateNode(op);
            error := if r.Err? then Some(r.error) else None;
          case DeleteNode(id) =>
            error := DeleteNode(id);
          case CreateEdge(_, _, _, _, _, _, _) =>
            var r := CreateEdge(op);
            error := if r.Err? then Some(r.error) else None;
          case UpdateEdge(_, _, _, _, _, _) =>
            var r := UpdateEdge(op);
            error := if r.Err? then Some(r.error) else None;
          case DeleteEdge(id) =>
            error := DeleteEdge(id);
        }
      }
      if failure.None? { failure := error; }
    }

    ghost function Meant(op: Op): Step
      reads this
    {
      Meaning(Now(), tables.nodes.created.Keys, tables.edges.created.Keys, NoRevision(), op)
    }

    /** Did the batch change the graph?  Looks only at touched identities. */
    method GraphChanged() returns (changed: bool)
      requires Valid() && revision == base + 1
      ensures changed <==> Now() != GraphAt(start, base)
    {
      assert GraphAt(tables, base) == GraphAt(start, base);
      changed := TableChanged(tables.nodes, base, revision);
      if !changed { changed := TableChanged(tables.edges, base, revision); }
    }
  }
}
