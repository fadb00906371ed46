/** What each mutation does to a graph, looked up field by field, and exactly when it is
    accepted. */
module MutationMeaning {
  import opened Base
  import opened EntityId
  import opened GraphRules
  import Text

  // ---- what is there afterwards ----

  /** The identity a new node or edge gets. */
  function NewId(op: Op): Id
    requires op.CreateNode? || op.CreateEdge?
  {
    if op.id != "" then op.id else op.generated
  }

  /** Every node but this one is as it was. */
  ghost predicate OtherNodesKept(before: Graph, after: Graph, id: Id) {
    forall x | x != id :: (x in after.nodes <==> x in before.nodes) && (x in before.nodes ==> after.nodes[x] == before.nodes[x])
  }

  ghost predicate OtherEdgesKept(before: Graph, after: Graph, id: Id) {
    forall x | x != id :: (x in after.edges <==> x in before.edges) && (x in before.edges ==> after.edges[x] == before.edges[x])
  }

  /** A field given has the new value, and one not given the old one. */
  predicate Becomes<T(==)>(given: Option<T>, before: T, after: T) {
    match given
    case Some(v) => after == v
    case None => after == before
  }

  /** The mutation was carried out. */
  ghost predicate Done(before: Graph, op: Op, after: Graph) {
    match op
    case CreateNode(_, _, labels, properties, body) =>
      var id := NewId(op);
      && id !in before.nodes && id in after.nodes && labels.Ok? && properties.Ok?
      && after.nodes[id].labels == labels.value && after.nodes[id].properties == properties.value && after.nodes[id].body == body
      && OtherNodesKept(before, after, id) && after.edges == before.edges
    case UpdateNode(id, newLabels, newProperties, newBody) =>
      && id in before.nodes && id in after.nodes
      && (newLabels.Some? ==> newLabels.value.Ok?) && (newProperties.Some? ==> newProperties.value.Ok?)
      && Becomes(Given(newLabels), before.nodes[id].labels, after.nodes[id].labels)
      && Becomes(Given(newProperties), before.nodes[id].properties, after.nodes[id].properties)
      && Becomes(newBody, before.nodes[id].body, after.nodes[id].body)
      && OtherNodesKept(before, after, id) && after.edges == before.edges
    case DeleteNode(id) =>
      && id in before.nodes && id !in after.nodes && OtherNodesKept(before, after, id)
      && (forall x :: x in after.edges <==> x in before.edges && before.edges[x].from != id && before.edges[x].to != id)
      && forall x | x in after.edges :: after.edges[x] == before.edges[x]
    case CreateEdge(_, _, from, typ, to, position, properties) =>
      var id := NewId(op);
      && id !in before.edges && id in after.edges && properties.Ok?
      && after.edges[id].from == from && after.edges[id].typ == typ && after.edges[id].to == to
      && after.edges[id].position == position && after.edges[id].properties == properties.value
      && OtherEdgesKept(before, after, id) && after.nodes == before.nodes
    case UpdateEdge(id, newFrom, newType, newTo, newPosition, newProperties) =>
      && id in before.edges && id in after.edges && (newProperties.Some? ==> newProperties.value.Ok?)
      && Becomes(newFrom, before.edges[id].from, after.edges[id].from)
      && Becomes(newType, before.edges[id].typ, after.edges[id].typ)
      && Becomes(newTo, before.edges[id].to, after.edges[id].to)
      && Becomes(newPosition, before.edges[id].position, after.edges[id].position)
      && Becomes(Given(newProperties), before.edges[id].properties, after.edges[id].properties)
      && OtherEdgesKept(before, after, id) && after.nodes == before.nodes
    case DeleteEdge(id) =>
      && id in before.edges && id !in after.edges && OtherEdgesKept(before, after, id) && after.nodes == before.nodes
  }

  /** The bytes of a field given, if they could be encoded. */
  function Given(field: Option<Result<Encoded>>): Option<Encoded> {
    if field.Some? && field.value.Ok? then Some(field.value.value) else None
  }

  lemma DoneIs(g: Graph, usedNodes: set<Id>, usedEdges: set<Id>, unavailable: Option<Error>, op: Op)
    requires g.nodes.Keys <= usedNodes && g.edges.Keys <= usedEdges
    ensures var step := Meaning(g, usedNodes, usedEdges, unavailable, op);
            if step.error.None? then Done(g, op, step.graph) else step.graph == g
  {
    hide ValidateEdge, ValidateType, IsEntityId;
  }

  /** The mutation leaves no choice. */
  lemma DoneOnce(g: Graph, op: Op, a: Graph, b: Graph)
    requires Done(g, op, a) && Done(g, op, b)
    ensures a == b
  {
    assert forall x :: x in a.nodes <==> x in b.nodes;
    assert forall x :: x in a.edges <==> x in b.edges;
    forall x | x in a.nodes ensures a.nodes[x] == b.nodes[x] { }
    forall x | x in a.edges ensures a.edges[x] == b.edges[x] { }
    assert a.nodes == b.nodes && a.edges == b.edges;
  }

  // ---- when it is accepted ----

  predicate TypeAllowed(typ: string) {
    typ != "" && Text.ByteLen(typ) <= MAX_RELATIONSHIP_TYPE_BYTES && '\0' !in typ
  }

  /** An edge passes the checks exactly when its type is well-formed and the graph with it
      obeys the rules: nothing is refused needlessly. */
  lemma EdgeAcceptedIff(g: Graph, id: Id, e: EdgeContent, exclude: Id)
    requires ValidGraph(g) && IsEntityId(id) && (id == exclude || (exclude == "" && id !in g.edges))
    ensures ValidateEdge(g, e, exclude).None? <==> TypeAllowed(e.typ) && ValidGraph(g.(edges := g.edges[id := e]))
  {
    if ValidateEdge(g, e, exclude).None? { AddedEdgeKeepsRules(g, id, e, exclude); }
    if TypeAllowed(e.typ) && ValidGraph(g.(edges := g.edges[id := e])) { LegalEdgePasses(g, id, e, exclude); }
  }

  lemma LegalEdgePasses(g: Graph, id: Id, e: EdgeContent, exclude: Id)
    requires ValidGraph(g) && IsEntityId(id) && (id == exclude || (exclude == "" && id !in g.edges))
    requires TypeAllowed(e.typ) && ValidGraph(g.(edges := g.edges[id := e]))
    ensures ValidateEdge(g, e, exclude).None?
  {
    var next := g.(edges := g.edges[id := e]);
    EndsAreIds(next, id);
    if e.typ == CHILD {
      NoOtherParent(g, id, e, exclude);
      NoCycle(g, id, e, exclude);
    }
    hide Acyclic, OneParent, HasOtherParent, Reaches, IsEntityId;
  }

  lemma EndsAreIds(g: Graph, id: Id)
    requires ValidGraph(g) && id in g.edges
    ensures g.edges[id].from in g.nodes && g.edges[id].to in g.nodes && g.edges[id].from != "" && g.edges[id].to != ""
    ensures g.edges[id].position.None? || g.edges[id].typ == CHILD
  {
    hide Acyclic, OneParent;
    assert !IsEntityId("");
  }

  lemma NoOtherParent(g: Graph, id: Id, e: EdgeContent, exclude: Id)
    requires ValidGraph(g) && IsEntityId(id) && (id == exclude || (exclude == "" && id !in g.edges))
    requires e.typ == CHILD && OneParent(g.edges[id := e])
    ensures !HasOtherParent(g.edges, e, exclude)
  {
    hide Acyclic, OneParent;
    if x :| x in g.edges && x != exclude && g.edges[x].typ == CHILD && g.edges[x].to == e.to {
      SecondParent(g.edges, id, e, x);
    }
  }

  lemma SecondParent(edges: map<Id, EdgeContent>, id: Id, e: EdgeContent, x: Id)
    requires x in edges && x != id && edges[x].typ == CHILD == e.typ && edges[x].to == e.to
    ensures !OneParent(edges[id := e])
  {
    var more := edges[id := e];
    assert x in more && id in more && more[x].to == more[id].to;
  }

  lemma NoCycle(g: Graph, id: Id, e: EdgeContent, exclude: Id)
    requires ValidGraph(g) && IsEntityId(id) && (id == exclude || (exclude == "" && id !in g.edges))
    requires e.typ == CHILD && Acyclic(g.edges[id := e])
    ensures !Reaches(g.edges - {exclude}, e.to, e.from)
  {
    hide Acyclic, Reaches, OneParent;
    var rest := g.edges - {id};
    assert "" !in g.edges by { assert !IsEntityId(""); }
    assert g.edges - {exclude} == rest && rest[id := e] == g.edges[id := e];
    if Reaches(rest, e.to, e.from) { RejectedEdgeClosesCycle(rest, id, e); }
  }

  /** The edge a mutation asks for. */
  predicate IsAskedFor(before: Graph, op: Op, e: EdgeContent) {
    match op
    case CreateEdge(_, _, from, typ, to, position, properties) =>
      properties.Ok? && e.from == from && e.typ == typ && e.to == to && e.position == position && e.properties == properties.value
    case UpdateEdge(id, newFrom, newType, newTo, newPosition, newProperties) =>
      && id in before.edges && (newProperties.Some? ==> newProperties.value.Ok?)
      && Becomes(newFrom, before.edges[id].from, e.from) && Becomes(newType, before.edges[id].typ, e.typ)
      && Becomes(newTo, before.edges[id].to, e.to) && Becomes(newPosition, before.edges[id].position, e.position)
      && Becomes(Given(newProperties), before.edges[id].properties, e.properties)
    case _ => false
  }

  /** What a mutation needs: an identity never used, or one that is there; fields within
      bounds; and an edge under which the graph still obeys the rules. */
  ghost predicate Legal(g: Graph, usedNodes: set<Id>, usedEdges: set<Id>, op: Op) {
    match op
    case CreateNode(_, _, labels, properties, body) =>
      IsEntityId(NewId(op)) && NewId(op) !in usedNodes && labels.Ok? && properties.Ok? && Text.ByteLen(body) <= MAX_NODE_BODY_BYTES
    case UpdateNode(id, newLabels, newProperties, newBody) =>
      && id in g.nodes && (newLabels.Some? ==> newLabels.value.Ok?) && (newProperties.Some? ==> newProperties.value.Ok?)
      && Text.ByteLen(if newBody.Some? then newBody.value else g.nodes[id].body) <= MAX_NODE_BODY_BYTES
    case DeleteNode(id) => id in g.nodes
    case CreateEdge(_, _, _, _, _, _, _) =>
      && IsEntityId(NewId(op)) && NewId(op) !in usedEdges
      && exists e :: IsAskedFor(g, op, e) && TypeAllowed(e.typ) && ValidGraph(g.(edges := g.edges[NewId(op) := e]))
    case UpdateEdge(id, _, _, _, _, _) =>
      exists e :: IsAskedFor(g, op, e) && TypeAllowed(e.typ) && ValidGraph(g.(edges := g.edges[id := e]))
    case DeleteEdge(id) => id in g.edges
  }

  /** It has an effect: something is made or taken away, or a field gets another value. */
  ghost predicate Changes(g: Graph, op: Op) {
    !Done(g, op, g)
  }

  /** A mutation is carried out exactly when it is legal and, if it has an effect, the batch
      can have a revision. */
  lemma AcceptedIff(g: Graph, usedNodes: set<Id>, usedEdges: set<Id>, unavailable: Option<Error>, op: Op)
    requires ValidGraph(g) && g.nodes.Keys <= usedNodes && g.edges.Keys <= usedEdges
    ensures Meaning(g, usedNodes, usedEdges, unavailable, op).error.None? <==>
            Legal(g, usedNodes, usedEdges, op) && (Changes(g, op) ==> unavailable.None?)
  {
    match op
    case CreateEdge(_, _, _, _, _, _, _) => CreateEdgeAcceptedIff(g, usedEdges, unavailable, op);
    case UpdateEdge(_, _, _, _, _, _) => UpdateEdgeAcceptedIff(g, unavailable, op);
    case _ => hide ValidGraph, IsEntityId;
  }

  lemma CreateEdgeAcceptedIff(g: Graph, usedEdges: set<Id>, unavailable: Option<Error>, op: Op)
    requires ValidGraph(g) && g.edges.Keys <= usedEdges && op.CreateEdge?
    ensures EdgeCreated(g, usedEdges, unavailable, op).error.None? <==>
            Legal(g, {}, usedEdges, op) && (Changes(g, op) ==> unavailable.None?)
  {
    var id := NewId(op);
    if op.properties.Ok? && IsEntityId(id) && id !in usedEdges {
      var e := EdgeContent(op.from, op.typ, op.to, op.position, op.properties.value);
      EdgeAcceptedIff(g, id, e, "");
      hide ValidGraph, ValidateEdge, IsEntityId;
      assert IsAskedFor(g, op, e);
      assert forall x | IsAskedFor(g, op, x) :: x == e;
      TypeIs(op.typ);
    } else {
      hide ValidGraph, ValidateEdge, IsEntityId;
    }
  }

  lemma TypeIs(typ: string)
    ensures ValidateType(typ).None? <==> TypeAllowed(typ)
  {
  }

  lemma UpdateEdgeAcceptedIff(g: Graph, unavailable: Option<Error>, op: Op)
    requires ValidGraph(g) && op.UpdateEdge?
    ensures EdgeUpdated(g, unavailable, op).error.None? <==>
            Legal(g, {}, {}, op) && (Changes(g, op) ==> unavailable.None?)
  {
    if op.id in g.edges && (op.newProperties.Some? ==> op.newProperties.value.Ok?) {
      assert IsEntityId(op.id);
      var e := AskedFor(g, op);
      EdgeAcceptedIff(g, op.id, e, op.id);
      UpdateIs(g, unavailable, op, e);
      hide ValidGraph, ValidateEdge, IsEntityId, EdgeUpdated;
      assert Legal(g, {}, {}, op) <==> TypeAllowed(e.typ) && ValidGraph(g.(edges := g.edges[op.id := e]));
      assert Done(g, op, g) <==> e == g.edges[op.id];
    } else {
      hide ValidGraph, ValidateEdge, IsEntityId;
    }
  }

  lemma AskedFor(g: Graph, op: Op) returns (e: EdgeContent)
    requires op.UpdateEdge? && op.id in g.edges && (op.newProperties.Some? ==> op.newProperties.value.Ok?)
    ensures IsAskedFor(g, op, e) && forall x | IsAskedFor(g, op, x) :: x == e
  {
    var c := g.edges[op.id];
    e := EdgeContent(Or(op.newFrom, c.from), Or(op.newType, c.typ), Or(op.newTo, c.to), Or(op.newPosition, c.position),
                     if op.newProperties.Some? then op.newProperties.value.value else c.properties);
  }

  lemma UpdateIs(g: Graph, unavailable: Option<Error>, op: Op, e: EdgeContent)
    requires op.UpdateEdge? && IsAskedFor(g, op, e)
    ensures EdgeUpdated(g, unavailable, op).error.None? <==>
            ValidateEdge(g, e, op.id).None? && (e == g.edges[op.id] || unavailable.None?)
  {
    var plain := UpdatedEdge(g.edges[op.id], op);
    assert plain == e.(properties := plain.properties);
    PropertiesUnseen(g, e, op.id, plain.properties);
    hide ValidateEdge;
  }

  lemma PropertiesUnseen(g: Graph, e: EdgeContent, exclude: Id, properties: Encoded)
    ensures ValidateEdge(g, e.(properties := properties), exclude) == ValidateEdge(g, e, exclude)
  {
    hide Reaches;
  }
}
