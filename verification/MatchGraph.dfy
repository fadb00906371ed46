/** The graph the pattern matcher walks over: which nodes and edges are loaded,
    and, for a direction, which edges leave a node and where they lead. */
module MatchGraph {
  import opened Base
  import opened Sorted

  datatype Direction = Outgoing | Incoming | Undirected | Bidirectional {
    predicate Directed() { Outgoing? || Incoming? }
    predicate Forward() { !Incoming? }
    predicate Backward() { !Outgoing? }
  }

  datatype Ends = Ends(from: Id, to: Id)
  datatype Graph = Graph(nodes: set<Id>, edges: map<Id, Ends>)
  datatype Adjacent = Adjacent(edge: Id, next: Id)

  /** Edge e can be traversed from a to b. */
  predicate Connects(e: Ends, d: Direction, a: Id, b: Id) {
    (d.Forward() && e.from == a && e.to == b) || (d.Backward() && e.to == a && e.from == b)
  }

  predicate Leaves(e: Ends, d: Direction, a: Id) {
    (d.Forward() && e.from == a) || (d.Backward() && e.to == a)
  }

  function Next(e: Ends, d: Direction, a: Id): Id {
    if d.Forward() && e.from == a then e.to else e.from
  }

  function LeavingIds(g: Graph, a: Id, d: Direction): set<Id> {
    set e | e in g.edges && Leaves(g.edges[e], d, a)
  }

  function Attach(g: Graph, a: Id, d: Direction, ids: seq<Id>): (s: seq<Adjacent>)
    requires forall x | x in ids :: x in g.edges
    ensures |s| == |ids|
    ensures forall i | 0 <= i < |s| :: s[i] == Adjacent(ids[i], Next(g.edges[ids[i]], d, a))
  {
    if ids == [] then [] else [Adjacent(ids[0], Next(g.edges[ids[0]], d, a))] + Attach(g, a, d, ids[1..])
  }

  /** The traversable edges at a node in ID order, a self-loop once. */
  function AdjacentEdges(g: Graph, a: Id, d: Direction): (s: seq<Adjacent>)
    ensures forall x | x in s :: x.edge in g.edges
  {
    SortedHolds(LeavingIds(g, a, d));
    Attach(g, a, d, SortedIds(LeavingIds(g, a, d)))
  }

  lemma AdjacentConnects(g: Graph, a: Id, d: Direction, e: Id, b: Id)
    ensures Adjacent(e, b) in AdjacentEdges(g, a, d) <==> e in g.edges && Connects(g.edges[e], d, a, b)
  {
    var ids := SortedIds(LeavingIds(g, a, d));
    var all := AdjacentEdges(g, a, d);
    SortedHolds(LeavingIds(g, a, d));
    if Adjacent(e, b) in all {
      var i :| 0 <= i < |all| && all[i] == Adjacent(e, b);
      assert ids[i] in ids;
    }
    if e in g.edges && Connects(g.edges[e], d, a, b) {
      assert e in LeavingIds(g, a, d);
      assert e in ids;
      var i :| 0 <= i < |ids| && ids[i] == e;
      assert all[i] == Adjacent(e, b);
    }
  }

  lemma AdjacentOnce(g: Graph, a: Id, d: Direction, i: nat, j: nat)
    requires i < j < |AdjacentEdges(g, a, d)|
    ensures AdjacentEdges(g, a, d)[i].edge != AdjacentEdges(g, a, d)[j].edge
  {
    SortedHolds(LeavingIds(g, a, d));
    IncreasingNoDup(SortedIds(LeavingIds(g, a, d)));
  }
}
