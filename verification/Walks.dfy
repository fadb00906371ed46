/** Walks from a start node over admitted edges, their lengths, and the trails
    among them (a trail uses no relationship twice). */
module Walks {
  import opened Base
  import opened Sorted
  import opened MatchGraph

  datatype Path = Path(nodes: seq<Id>, edges: seq<Id>)

  /** One shortest-path search: its graph, and the tests fixed by the outer row. */
  datatype Search = Search(graph: Graph, start: Id, direction: Direction, edgeOk: Id -> bool, targetOk: Id -> bool)

  predicate Hop(q: Search, a: Id, e: Id, b: Id) {
    e in q.graph.edges && q.edgeOk(e) && b in q.graph.nodes && Connects(q.graph.edges[e], q.direction, a, b)
  }

  predicate Shaped(p: Path) {
    |p.nodes| == |p.edges| + 1
  }

  function End(p: Path): Id
    requires Shaped(p)
  {
    p.nodes[|p.edges|]
  }

  ghost predicate IsWalk(q: Search, p: Path) {
    && Shaped(p) && p.nodes[0] == q.start
    && forall i | 0 <= i < |p.edges| :: Hop(q, p.nodes[i], p.edges[i], p.nodes[i + 1])
  }

  ghost predicate IsTrail(q: Search, p: Path) {
    IsWalk(q, p) && NoDup(p.edges)
  }

  ghost predicate WalkOf(q: Search, p: Path, n: Id, d: nat) {
    IsWalk(q, p) && |p.edges| == d && End(p) == n
  }

  ghost predicate Near(q: Search, n: Id, d: nat) {
    exists p :: WalkOf(q, p, n, d)
  }

  /** The shortest walk to n has d edges. */
  ghost predicate AtLevel(q: Search, n: Id, d: nat) {
    Near(q, n, d) && forall k: nat | k < d :: !Near(q, n, k)
  }

  function Extend(p: Path, e: Id, n: Id): Path {
    Path(p.nodes + [n], p.edges + [e])
  }

  function Prefix(p: Path, i: nat): Path
    requires Shaped(p) && i <= |p.edges|
  {
    Path(p.nodes[..i + 1], p.edges[..i])
  }

  lemma PrefixIsWalk(q: Search, p: Path, i: nat)
    requires IsWalk(q, p) && i <= |p.edges|
    ensures WalkOf(q, Prefix(p, i), p.nodes[i], i)
  {
  }

  lemma ExtendIsWalk(q: Search, p: Path, e: Id, n: Id)
    requires IsWalk(q, p) && Hop(q, End(p), e, n)
    ensures WalkOf(q, Extend(p, e, n), n, |p.edges| + 1)
  {
    var r := Extend(p, e, n);
    forall i | 0 <= i < |r.edges| ensures Hop(q, r.nodes[i], r.edges[i], r.nodes[i + 1]) {
      if i < |p.edges| { assert Hop(q, p.nodes[i], p.edges[i], p.nodes[i + 1]); }
    }
  }

  lemma {:induction false} HasLevel(q: Search, n: Id, d: nat) returns (k: nat)
    requires Near(q, n, d)
    ensures k <= d && AtLevel(q, n, k)
  {
    if m: nat :| m < d && Near(q, n, m) {
      k := HasLevel(q, n, m);
    } else {
      k := d;
    }
  }

  lemma LevelIsUnique(q: Search, n: Id, a: nat, b: nat)
    requires AtLevel(q, n, a) && AtLevel(q, n, b)
    ensures a == b
  {
  }

  lemma StartAtLevelZero(q: Search)
    ensures AtLevel(q, q.start, 0)
  {
    assert WalkOf(q, Path([q.start], []), q.start, 0);
  }

  lemma OnlyStartAtZero(q: Search, n: Id)
    requires Near(q, n, 0)
    ensures n == q.start
  {
    var p :| WalkOf(q, p, n, 0);
  }

  /** A hop leads at most one level further. */
  lemma HopLevel(q: Search, a: Id, e: Id, b: Id, d: nat)
    requires AtLevel(q, a, d) && Hop(q, a, e, b)
    ensures Near(q, b, d + 1)
  {
    var p :| WalkOf(q, p, a, d);
    ExtendIsWalk(q, p, e, b);
  }

  /** The last hop of a shortest walk starts one level below. */
  lemma LevelBelow(q: Search, p: Path, n: Id, d: nat)
    requires AtLevel(q, n, d + 1) && WalkOf(q, p, n, d + 1)
    ensures AtLevel(q, p.nodes[d], d) && Hop(q, p.nodes[d], p.edges[d], n)
  {
    var m := p.nodes[d];
    assert Hop(q, p.nodes[d], p.edges[d], p.nodes[d + 1]);
    PrefixIsWalk(q, p, d);
    var k := HasLevel(q, m, d);
    if k < d {
      HopLevel(q, m, p.edges[d], n, k);
    }
  }

  /** A shortest walk visits one node of each level. */
  lemma {:induction false} ShortestClimbs(q: Search, p: Path, n: Id, d: nat, i: nat)
    requires AtLevel(q, n, d) && WalkOf(q, p, n, d) && i <= d
    ensures AtLevel(q, p.nodes[i], i)
    decreases d - i
  {
    if i < d {
      ShortestClimbs(q, p, n, d, i + 1);
      PrefixIsWalk(q, p, i + 1);
      LevelBelow(q, Prefix(p, i + 1), p.nodes[i + 1], i);
    }
  }

  lemma SameEdgeSameEnds(q: Search, a: Id, b: Id, c: Id, d: Id, e: Id)
    requires Hop(q, a, e, b) && Hop(q, c, e, d)
    ensures (a == c && b == d) || (a == d && b == c)
  {
  }

  /** A shortest walk uses no edge twice. */
  lemma ShortestIsTrail(q: Search, p: Path, n: Id, d: nat)
    requires AtLevel(q, n, d) && WalkOf(q, p, n, d)
    ensures IsTrail(q, p)
  {
    forall i, j | 0 <= i < j < |p.edges| ensures p.edges[i] != p.edges[j] {
      ShortestClimbs(q, p, n, d, i);
      ShortestClimbs(q, p, n, d, i + 1);
      ShortestClimbs(q, p, n, d, j);
      ShortestClimbs(q, p, n, d, j + 1);
      if p.edges[i] == p.edges[j] {
        SameEdgeSameEnds(q, p.nodes[i], p.nodes[i + 1], p.nodes[j], p.nodes[j + 1], p.edges[i]);
        LevelIsUnique(q, p.nodes[i], i, if p.nodes[i] == p.nodes[j] then j else j + 1);
      }
    }
  }
}
