/** One graph state, the rules every committed state obeys, and what each
    mutation means on a whole graph, with no versions and no tables. */
module GraphRules {
  import opened Base
  import opened EntityId
  import Text

  /** Canonical bytes produced by the codec. */
  type Encoded = string

  datatype NodeContent = NodeContent(labels: Encoded, properties: Encoded, body: string)
  datatype EdgeContent = EdgeContent(from: Id, typ: string, to: Id, position: Option<int>, properties: Encoded)
  datatype Graph = Graph(nodes: map<Id, NodeContent>, edges: map<Id, EdgeContent>)

  const CHILD := "CHILD"
  const MAX_NODE_BODY_BYTES: nat := 67_108_864
  const MAX_RELATIONSHIP_TYPE_BYTES: nat := 65_536

  // ---- CHILD paths ----

  predicate IsChild(e: EdgeContent, from: Id) {
    e.typ == CHILD && e.from == from
  }

  ghost predicate ChildPath(edges: map<Id, EdgeContent>, p: seq<Id>, a: Id, b: Id) {
    if p == [] then a == b
    else p[0] in edges && IsChild(edges[p[0]], a) && ChildPath(edges, p[1..], edges[p[0]].to, b)
  }

  ghost predicate Reaches(edges: map<Id, EdgeContent>, a: Id, b: Id) {
    exists p :: ChildPath(edges, p, a, b)
  }

  ghost predicate Acyclic(edges: map<Id, EdgeContent>) {
    forall p, a | ChildPath(edges, p, a, a) :: p == []
  }

  ghost predicate OneParent(edges: map<Id, EdgeContent>) {
    forall x, y | x in edges && y in edges && edges[x].typ == CHILD && edges[y].typ == CHILD
                  && edges[x].to == edges[y].to :: x == y
  }

  lemma {:induction false} PathsConcatenate(edges: map<Id, EdgeContent>, p: seq<Id>, q: seq<Id>, a: Id, b: Id, c: Id)
    requires ChildPath(edges, p, a, b) && ChildPath(edges, q, b, c)
    ensures ChildPath(edges, p + q, a, c)
  {
    if p == [] {
      assert p + q == q;
    } else {
      PathsConcatenate(edges, p[1..], q, edges[p[0]].to, b, c);
      assert (p + q)[1..] == p[1..] + q;
    }
  }

  lemma ReachesIsTransitive(edges: map<Id, EdgeContent>, a: Id, b: Id, c: Id)
    requires Reaches(edges, a, b) && Reaches(edges, b, c)
    ensures Reaches(edges, a, c)
  {
    var p :| ChildPath(edges, p, a, b);
    var q :| ChildPath(edges, q, b, c);
    PathsConcatenate(edges, p, q, a, b, c);
  }

  lemma {:induction false} PathInMoreEdges(edges: map<Id, EdgeContent>, more: map<Id, EdgeContent>, p: seq<Id>,
          a: Id, b: Id)
    requires forall id | id in edges :: id in more && more[id] == edges[id]
    requires ChildPath(edges, p, a, b)
    ensures ChildPath(more, p, a, b)
  {
    if p != [] {
      PathInMoreEdges(edges, more, p[1..], edges[p[0]].to, b);
    }
  }

  lemma AcyclicInFewerEdges(edges: map<Id, EdgeContent>, more: map<Id, EdgeContent>)
    requires forall id | id in edges :: id in more && more[id] == edges[id]
    requires Acyclic(more)
    ensures Acyclic(edges)
  {
    forall p, a | ChildPath(edges, p, a, a) ensures p == [] {
      PathInMoreEdges(edges, more, p, a, a);
    }
  }

  /** A path that uses a new edge reaches its source without it, and leaves its
      target without it. */
  lemma {:induction false} PathAroundNewEdge(edges: map<Id, EdgeContent>, id: Id, e: EdgeContent, p: seq<Id>, a: Id,
          b: Id)
    requires id !in edges && ChildPath(edges[id := e], p, a, b)
    ensures ChildPath(edges, p, a, b) || (Reaches(edges, a, e.from) && Reaches(edges, e.to, b))
  {
    if p != [] {
      var more := edges[id := e];
      var next := more[p[0]].to;
      PathAroundNewEdge(edges, id, e, p[1..], next, b);
      if p[0] == id {
        assert ChildPath(edges, [], a, e.from);
      } else if !ChildPath(edges, p, a, b) {
        assert ChildPath(edges, [p[0]] + [], a, next);
        ReachesIsTransitive(edges, a, next, e.from);
      }
    }
  }

  /** The acyclicity check of validateEdge is enough: adding an edge whose target
      does not reach its source closes no cycle. */
  lemma NewEdgeClosesNoCycle(edges: map<Id, EdgeContent>, id: Id, e: EdgeContent)
    requires Acyclic(edges) && id !in edges
    requires e.typ == CHILD ==> !Reaches(edges, e.to, e.from)
    ensures Acyclic(edges[id := e])
  {
    var more := edges[id := e];
    forall p, a | ChildPath(more, p, a, a) ensures p == [] {
      if e.typ == CHILD {
        PathAroundNewEdge(edges, id, e, p, a, a);
        if Reaches(edges, a, e.from) && Reaches(edges, e.to, a) {
          ReachesIsTransitive(edges, e.to, a, e.from);
        }
      } else {
        PathWithoutOther(edges, id, e, p, a, a);
      }
    }
  }

  lemma {:induction false} PathWithoutOther(edges: map<Id, EdgeContent>, id: Id, e: EdgeContent, p: seq<Id>, a: Id, b: Id)
    requires e.typ != CHILD && ChildPath(edges[id := e], p, a, b)
    ensures ChildPath(edges, p, a, b)
  {
    if p != [] {
      PathWithoutOther(edges, id, e, p[1..], edges[id := e][p[0]].to, b);
    }
  }

  /** ... and necessary: if the target does reach the source, a cycle appears. */
  lemma RejectedEdgeClosesCycle(edges: map<Id, EdgeContent>, id: Id, e: EdgeContent)
    requires e.typ == CHILD && id !in edges && Reaches(edges, e.to, e.from)
    ensures !Acyclic(edges[id := e])
  {
    var more := edges[id := e];
    var p :| ChildPath(edges, p, e.to, e.from);
    PathInMoreEdges(edges, more, p, e.to, e.from);
    assert ([id] + p)[1..] == p;
    assert ChildPath(more, [id] + p, e.from, e.from);
  }

  // ---- valid graphs ----

  ghost predicate IdsWellFormed(g: Graph) {
    (forall id | id in g.nodes :: IsEntityId(id)) && (forall id | id in g.edges :: IsEntityId(id))
  }

  ghost predicate EndpointsLive(g: Graph) {
    forall id | id in g.edges :: g.edges[id].from in g.nodes && g.edges[id].to in g.nodes
  }

  ghost predicate PositionsOnChildren(g: Graph) {
    forall id | id in g.edges :: g.edges[id].position.None? || g.edges[id].typ == CHILD
  }

  /** The rules of every committed graph state: no dangling edge, positions only
      on CHILD edges, and CHILD edges forming a forest. */
  ghost predicate ValidGraph(g: Graph) {
    IdsWellFormed(g) && EndpointsLive(g) && PositionsOnChildren(g) && OneParent(g.edges) && Acyclic(g.edges)
  }

  // ---- mutations on a whole graph ----

  datatype Op =
    | CreateNode(id: Id, generated: Id, labels: Result<Encoded>, properties: Result<Encoded>, body: string)
    | UpdateNode(id: Id, newLabels: Option<Result<Encoded>>, newProperties: Option<Result<Encoded>>, newBody: Option<string>)
    | DeleteNode(id: Id)
    | CreateEdge(id: Id, generated: Id, from: Id, typ: string, to: Id, position: Option<int>, properties: Result<Encoded>)
    | UpdateEdge(id: Id, newFrom: Option<Id>, newType: Option<string>, newTo: Option<Id>,
                 newPosition: Option<Option<int>>, newProperties: Option<Result<Encoded>>)
    | DeleteEdge(id: Id)

  function Or<T>(update: Option<T>, current: T): T {
    if update.Some? then update.value else current
  }

  function ValidateType(typ: string): Option<Error> {
    if typ == "" then Some(Constraint("edge_type"))
    else if Text.ByteLen(typ) > MAX_RELATIONSHIP_TYPE_BYTES || '\0' in typ then Some(InvalidArgument)
    else None
  }

  ghost predicate HasOtherParent(edges: map<Id, EdgeContent>, e: EdgeContent, exclude: Id) {
    exists x :: x in edges && x != exclude && edges[x].typ == CHILD && edges[x].to == e.to
  }

  ghost function ValidateEdge(g: Graph, e: EdgeContent, exclude: Id): Option<Error> {
    if e.from == "" || e.to == "" then Some(Constraint("edge_endpoint"))
    else if ValidateType(e.typ).Some? then ValidateType(e.typ)
    else if e.typ != CHILD && e.position.Some? then Some(Constraint("edge_position"))
    else if e.from !in g.nodes || e.to !in g.nodes then Some(Constraint("edge_endpoint"))
    else if e.typ != CHILD then None
    else if HasOtherParent(g.edges, e, exclude) then Some(Constraint("child_parent"))
    else if Reaches(g.edges - {exclude}, e.to, e.from) then Some(Constraint("child_cycle"))
    else None
  }

  /** The graph after a mutation, or the mutation's error. */
  datatype Step = Step(graph: Graph, error: Option<Error>)

  function ChosenId(id: Id, generated: Id): Id {
    if id == "" then generated else id
  }

  function WithoutNode(g: Graph, id: Id): Graph {
    Graph(g.nodes - {id}, map x | x in g.edges && g.edges[x].from != id && g.edges[x].to != id :: g.edges[x])
  }

  /** An effective mutation, unless no revision can be allocated for it. */
  function Effect(g: Graph, next: Graph, unavailable: Option<Error>): Step {
    if unavailable.Some? then Step(g, unavailable) else Step(next, None)
  }

  function UpdatedNode(current: NodeContent, op: Op): Result<NodeContent>
    requires op.UpdateNode?
  {
    var body := Or(op.newBody, current.body);
    var labels := Or(op.newLabels, Ok(current.labels));
    var properties := Or(op.newProperties, Ok(current.properties));
    if Text.ByteLen(body) > MAX_NODE_BODY_BYTES || labels.Err? || properties.Err? then Err(InvalidArgument)
    else Ok(NodeContent(labels.value, properties.value, body))
  }

  function UpdatedEdge(current: EdgeContent, op: Op): EdgeContent
    requires op.UpdateEdge?
  {
    EdgeContent(Or(op.newFrom, current.from), Or(op.newType, current.typ), Or(op.newTo, current.to),
                Or(op.newPosition, current.position), current.properties)
  }

  // What each mutation means.  `used` holds the identities that exist already,
  // `unavailable` is the error of allocating this batch's revision, if any.

  function NodeCreated(g: Graph, used: set<Id>, unavailable: Option<Error>, op: Op): Step
    requires op.CreateNode?
  {
    var id := ChosenId(op.id, op.generated);
    if Text.ByteLen(op.body) > MAX_NODE_BODY_BYTES || !IsEntityId(id) || op.labels.Err? || op.properties.Err? then
      Step(g, Some(InvalidArgument))
    else if id in used then Step(g, Some(Conflict))
    else Effect(g, g.(nodes := g.nodes[id := NodeContent(op.labels.value, op.properties.value, op.body)]), unavailable)
  }

  function NodeUpdated(g: Graph, unavailable: Option<Error>, op: Op): Step
    requires op.UpdateNode?
  {
    if op.id !in g.nodes then Step(g, Some(NotFound))
    else
      var next := UpdatedNode(g.nodes[op.id], op);
      if next.Err? then Step(g, Some(next.error))
      else if next.value == g.nodes[op.id] then Step(g, None)
      else Effect(g, g.(nodes := g.nodes[op.id := next.value]), unavailable)
  }

  function NodeDeleted(g: Graph, unavailable: Option<Error>, id: Id): Step {
    if id !in g.nodes then Step(g, Some(NotFound)) else Effect(g, WithoutNode(g, id), unavailable)
  }

  ghost function EdgeCreated(g: Graph, used: set<Id>, unavailable: Option<Error>, op: Op): Step
    requires op.CreateEdge?
  {
    var id := ChosenId(op.id, op.generated);
    if ValidateType(op.typ).Some? then Step(g, ValidateType(op.typ))
    else if !IsEntityId(id) || op.properties.Err? then Step(g, Some(InvalidArgument))
    else
      var e := EdgeContent(op.from, op.typ, op.to, op.position, op.properties.value);
      var invalid := ValidateEdge(g, e, "");
      if invalid.Some? then Step(g, invalid)
      else if id in used then Step(g, Some(Conflict))
      else Effect(g, g.(edges := g.edges[id := e]), unavailable)
  }

  ghost function EdgeUpdated(g: Graph, unavailable: Option<Error>, op: Op): Step
    requires op.UpdateEdge?
  {
    if op.id !in g.edges then Step(g, Some(NotFound))
    else
      var e := UpdatedEdge(g.edges[op.id], op);
      var properties := Or(op.newProperties, Ok(e.properties));
      var invalid := ValidateEdge(g, e, op.id);
      if invalid.Some? then Step(g, invalid)
      else if properties.Err? then Step(g, Some(InvalidArgument))
      else
        var next := e.(properties := properties.value);
        if next == g.edges[op.id] then Step(g, None)
        else Effect(g, g.(edges := g.edges[op.id := next]), unavailable)
  }

  function EdgeDeleted(g: Graph, unavailable: Option<Error>, id: Id): Step {
    if id !in g.edges then Step(g, Some(NotFound))
    else Effect(g, g.(edges := g.edges - {id}), unavailable)
  }

  ghost function Meaning(g: Graph, usedNodes: set<Id>, usedEdges: set<Id>, unavailable: Option<Error>, op: Op): Step {
    match op
    case CreateNode(_, _, _, _, _) => NodeCreated(g, usedNodes, unavailable, op)
    case UpdateNode(_, _, _, _) => NodeUpdated(g, unavailable, op)
    case DeleteNode(id) => NodeDeleted(g, unavailable, id)
    case CreateEdge(_, _, _, _, _, _, _) => EdgeCreated(g, usedEdges, unavailable, op)
    case UpdateEdge(_, _, _, _, _, _) => EdgeUpdated(g, unavailable, op)
    case DeleteEdge(id) => EdgeDeleted(g, unavailable, id)
  }

  // ---- every mutation keeps the rules ----

  lemma AddedEdgeKeepsRules(g: Graph, id: Id, e: EdgeContent, exclude: Id)
    requires ValidGraph(g) && ValidateEdge(g, e, exclude).None? && IsEntityId(id)
    requires id == exclude || (exclude == "" && id !in g.edges)
    ensures ValidGraph(g.(edges := g.edges[id := e]))
  {
    hide Acyclic, OneParent, Reaches, HasOtherParent, IsEntityId;
    AddedEdgeStaysAcyclic(g, id, e, exclude);
    AddedEdgeHasOneParent(g, id, e, exclude);
  }

  lemma AddedEdgeStaysAcyclic(g: Graph, id: Id, e: EdgeContent, exclude: Id)
    requires IdsWellFormed(g) && Acyclic(g.edges) && ValidateEdge(g, e, exclude).None?
    requires id == exclude || (exclude == "" && id !in g.edges)
    ensures Acyclic(g.edges[id := e])
  {
    hide Acyclic, HasOtherParent, Reaches;
    var rest := g.edges - {id};
    assert "" !in g.edges;
    assert g.edges - {exclude} == rest;
    AcyclicInFewerEdges(rest, g.edges);
    NewEdgeClosesNoCycle(rest, id, e);
    assert rest[id := e] == g.edges[id := e];
  }

  lemma AddedEdgeHasOneParent(g: Graph, id: Id, e: EdgeContent, exclude: Id)
    requires IdsWellFormed(g) && OneParent(g.edges) && ValidateEdge(g, e, exclude).None?
    requires id == exclude || (exclude == "" && id !in g.edges)
    ensures OneParent(g.edges[id := e])
  {
    hide Reaches;
    forall x | x in g.edges && e.typ == CHILD && g.edges[x].typ == CHILD && g.edges[x].to == e.to ensures x == id {
      assert !HasOtherParent(g.edges, e, exclude);
    }
  }

  lemma SameEdgesUpToProperties(g: Graph, id: Id, e: EdgeContent, properties: Encoded)
    requires ValidateEdge(g, e, id).None?
    ensures ValidateEdge(g, e.(properties := properties), id).None?
  {
  }

  lemma FewerEdgesKeepRules(g: Graph, less: Graph)
    requires ValidGraph(g) && less.nodes.Keys <= g.nodes.Keys
    requires forall id | id in less.edges :: id in g.edges && less.edges[id] == g.edges[id]
    requires EndpointsLive(less)
    ensures ValidGraph(less)
  {
    AcyclicInFewerEdges(less.edges, g.edges);
  }

  lemma EdgeCreatedKeepsRules(g: Graph, used: set<Id>, unavailable: Option<Error>, op: Op)
    requires ValidGraph(g) && g.edges.Keys <= used && op.CreateEdge?
    ensures ValidGraph(EdgeCreated(g, used, unavailable, op).graph)
  {
    if EdgeCreated(g, used, unavailable, op).graph != g {
      AddedEdgeKeepsRules(g, ChosenId(op.id, op.generated),
                          EdgeContent(op.from, op.typ, op.to, op.position, op.properties.value), "");
    }
  }

  lemma EdgeUpdatedKeepsRules(g: Graph, unavailable: Option<Error>, op: Op)
    requires ValidGraph(g) && op.UpdateEdge?
    ensures ValidGraph(EdgeUpdated(g, unavailable, op).graph)
  {
    if EdgeUpdated(g, unavailable, op).graph != g {
      var e := UpdatedEdge(g.edges[op.id], op);
      var properties := Or(op.newProperties, Ok(e.properties)).value;
      SameEdgesUpToProperties(g, op.id, e, properties);
      AddedEdgeKeepsRules(g, op.id, e.(properties := properties), op.id);
    }
  }

  lemma EdgeDeletedKeepsRules(g: Graph, id: Id)
    requires ValidGraph(g)
    ensures ValidGraph(g.(edges := g.edges - {id}))
  {
    FewerEdgesKeepRules(g, g.(edges := g.edges - {id}));
  }

  lemma NodeDeletedKeepsRules(g: Graph, id: Id)
    requires ValidGraph(g)
    ensures ValidGraph(WithoutNode(g, id))
    ensures ValidGraph(WithoutNode(g, id).(nodes := g.nodes))
  {
    FewerEdgesKeepRules(g, WithoutNode(g, id));
    FewerEdgesKeepRules(g, WithoutNode(g, id).(nodes := g.nodes));
  }

  /** Every mutation, accepted or not, leads from a valid graph to a valid graph. */
  lemma MeaningKeepsRules(g: Graph, usedNodes: set<Id>, usedEdges: set<Id>, unavailable: Option<Error>, op: Op)
    requires ValidGraph(g) && g.edges.Keys <= usedEdges
    ensures ValidGraph(Meaning(g, usedNodes, usedEdges, unavailable, op).graph)
  {
    match op
    case CreateNode(_, _, _, _, _) =>
    case UpdateNode(_, _, _, _) =>
    case DeleteNode(id) => NodeDeletedKeepsRules(g, id);
    case CreateEdge(_, _, _, _, _, _, _) => EdgeCreatedKeepsRules(g, usedEdges, unavailable, op);
    case UpdateEdge(_, _, _, _, _, _) => EdgeUpdatedKeepsRules(g, unavailable, op);
    case DeleteEdge(id) => EdgeDeletedKeepsRules(g, id);
  }
}
