/** The in-memory graph of the engine: nodes and edges with label, property and
    adjacency indexes that its operations keep up to date. */
module MemoryGraph {
  import opened Base
  import opened Text
  import opened Sorted
  import opened MatchGraph
  import T = Trails
  import M = Matching

  /** A property value: null, the kinds whose equality is identity, and others. */
  datatype PropValue = Nil | Bool(b: bool) | Str(s: string) | Other(code: int)

  predicate Exact(v: PropValue) {
    v.Bool? || v.Str?
  }

  datatype Node = Node(validFrom: int, labels: seq<string>, body: string, properties: map<string, PropValue>)
  datatype Edge = Edge(validFrom: int, from: Id, to: Id, kind: string, position: Option<int>, properties: map<string, PropValue>)

  /** Equality of values, their index keys, and the kinds the index is not used for. */
  datatype Values = Values(equal: (PropValue, PropValue) -> bool, key: PropValue -> string, skipped: PropValue -> bool)

  /** Strings and booleans equal only themselves and share their key with no other. */
  ghost predicate SoundValues(o: Values) {
    && (forall a, v | Exact(v) :: (o.equal(a, v) <==> a == v) && (o.equal(v, a) <==> a == v))
    && (forall a, v | Exact(v) && o.key(a) == o.key(v) :: a == v)
  }

  /** property(node, key). */
  function PropertyOf(n: Node, k: string): PropValue {
    if k == "body" then Str(n.body) else if k in n.properties then n.properties[k] else Nil
  }

  predicate HasLabels(n: Node, labels: seq<string>) {
    forall l | l in labels :: l in n.labels
  }

  /** nodeMatchesExpected. */
  predicate Matches(o: Values, n: Node, labels: seq<string>, expected: map<string, PropValue>) {
    HasLabels(n, labels)
    && forall k | k in expected :: PropertyOf(n, k) != Nil && expected[k] != Nil && o.equal(PropertyOf(n, k), expected[k])
  }

  /** What a pattern asks of a node: all its labels, and under each key of its map a value
      equal to the one there, neither being null; "body" is the body. */
  predicate AsksFor(o: Values, n: Node, labels: seq<string>, expected: map<string, PropValue>) {
    && (forall l | l in labels :: l in n.labels)
    && forall k | k in expected :: !expected[k].Nil? &&
         if k == "body" then o.equal(Str(n.body), expected[k])
         else k in n.properties && !n.properties[k].Nil? && o.equal(n.properties[k], expected[k])
  }

  lemma MatchesMeans(o: Values, n: Node, labels: seq<string>, expected: map<string, PropValue>)
    ensures Matches(o, n, labels, expected) <==> AsksFor(o, n, labels, expected)
  {
  }

  // ---- indexes as values ----

  type Index = map<string, set<Id>>

  function Get(index: Index, k: string): set<Id> {
    if k in index then index[k] else {}
  }

  function Put(index: Index, k: string, id: Id): Index {
    index[k := Get(index, k) + {id}]
  }

  /** Removing an ID leaves an entry that may be empty. */
  function Drop(index: Index, k: string, id: Id): Index {
    if k in index then index[k := index[k] - {id}] else index
  }

  function Lookup(properties: map<string, Index>, k: string, e: string): set<Id> {
    if k in properties then Get(properties[k], e) else {}
  }

  /** The property entries of a node: its properties and its body. */
  function Entries(o: Values, n: Node): set<(string, string)> {
    (set k | k in n.properties && n.properties[k] != Nil :: (k, o.key(n.properties[k]))) + {("body", o.key(Str(n.body)))}
  }

  /** The node has this value under this key; both apply to "body". */
  predicate Holds(n: Node, k: string, v: PropValue) {
    (k in n.properties && n.properties[k] == v) || (k == "body" && v == Str(n.body))
  }

  lemma EntriesAreHeld(o: Values, n: Node, k: string, v: PropValue)
    requires SoundValues(o) && Exact(v)
    ensures (k, o.key(v)) in Entries(o, n) <==> Holds(n, k, v)
  {
  }

  ghost predicate LabelsAgree(nodes: map<Id, Node>, labels: Index) {
    forall l, id :: id in Get(labels, l) <==> id in nodes && l in nodes[id].labels
  }

  ghost predicate PropertiesAgree(o: Values, nodes: map<Id, Node>, properties: map<string, Index>) {
    forall k, v, id | Exact(v) :: id in Lookup(properties, k, o.key(v)) <==> id in nodes && Holds(nodes[id], k, v)
  }

  /** The property index has every entry of every node, and no other. */
  ghost predicate IsFull(o: Values, nodes: map<Id, Node>, properties: map<string, Index>) {
    forall k, e, id :: id in Lookup(properties, k, e) <==> id in nodes && InEntries(Entries(o, nodes[id]), k, e)
  }

  function OutIds(edges: map<Id, Edge>, n: Id): set<Id> {
    set e | e in edges && edges[e].from == n
  }

  function InIds(edges: map<Id, Edge>, n: Id): set<Id> {
    set e | e in edges && edges[e].to == n
  }

  function List(lists: map<Id, seq<Id>>, n: Id): seq<Id> {
    if n in lists then lists[n] else []
  }

  ghost predicate AdjacencyAgrees(edges: map<Id, Edge>, outgoing: map<Id, seq<Id>>, incoming: map<Id, seq<Id>>) {
    && (forall n :: List(outgoing, n) == SortedIds(OutIds(edges, n)))
    && (forall n :: List(incoming, n) == SortedIds(InIds(edges, n)))
  }

  // ---- loops over one node's entries ----

  method IndexLabels(labels: Index, id: Id, names: seq<string>) returns (index: Index)
    ensures forall l :: Get(index, l) == Get(labels, l) + (if l in names then {id} else {})
  {
    index := labels;
    for i := 0 to |names|
      invariant forall l :: Get(index, l) == Get(labels, l) + (if l in names[..i] then {id} else {})
    {
      index := Put(index, names[i], id);
    }
  }

  method UnindexLabels(labels: Index, id: Id, names: seq<string>) returns (index: Index)
    ensures forall l :: Get(index, l) == Get(labels, l) - (if l in names then {id} else {})
  {
    index := labels;
    for i := 0 to |names|
      invariant forall l :: Get(index, l) == Get(labels, l) - (if l in names[..i] then {id} else {})
    {
      index := Drop(index, names[i], id);
    }
  }

  function IndexProperty(o: Values, properties: map<string, Index>, id: Id, k: string, v: PropValue): map<string, Index> {
    if v == Nil then properties
    else properties[k := Put(if k in properties then properties[k] else map[], o.key(v), id)]
  }

  function UnindexProperty(o: Values, properties: map<string, Index>, id: Id, k: string, v: PropValue): map<string,
          Index> {
    if k !in properties || v == Nil then properties else properties[k := Drop(properties[k], o.key(v), id)]
  }

  lemma IndexPropertyAdds(o: Values, properties: map<string, Index>, id: Id, k: string, v: PropValue)
    ensures forall x, e :: Lookup(IndexProperty(o, properties, id, k, v), x, e)
                           == Lookup(properties, x, e) + (if v != Nil && x == k && e == o.key(v) then {id} else {})
  {
  }

  lemma UnindexPropertyDrops(o: Values, properties: map<string, Index>, id: Id, k: string, v: PropValue)
    ensures forall x, e :: Lookup(UnindexProperty(o, properties, id, k, v), x, e)
                           == Lookup(properties, x, e) - (if v != Nil && x == k && e == o.key(v) then {id} else {})
  {
  }

  predicate InEntries(done: set<(string, string)>, k: string, e: string) {
    (k, e) in done
  }

  method IndexProperties(o: Values, properties: map<string, Index>, id: Id, n: Node) returns (index: map<string, Index>)
    ensures forall k, e :: Lookup(index, k, e) == Lookup(properties, k, e) + (if InEntries(Entries(o, n), k, e) then {id} else {})
  {
    hide Lookup, IndexProperty, UnindexProperty;
    index := properties;
    var todo := n.properties.Keys;
    ghost var done: set<(string, string)> := {};
    while todo != {}
      invariant todo <= n.properties.Keys
      invariant done == set k | k in n.properties && k !in todo && n.properties[k] != Nil :: (k, o.key(n.properties[k]))
      invariant forall k, e :: Lookup(index, k, e) == Lookup(properties, k, e) + (if InEntries(done, k, e) then {id} else {})
    {
      var key :| key in todo;
      IndexPropertyAdds(o, index, id, key, n.properties[key]);
      index := IndexProperty(o, index, id, key, n.properties[key]);
      todo := todo - {key};
      if n.properties[key] != Nil { done := done + {(key, o.key(n.properties[key]))}; }
    }
    IndexPropertyAdds(o, index, id, "body", Str(n.body));
    index := IndexProperty(o, index, id, "body", Str(n.body));
    assert Entries(o, n) == done + {("body", o.key(Str(n.body)))};
  }

  method UnindexProperties(o: Values, properties: map<string, Index>, id: Id, n: Node) returns (index: map<string, Index>)
    ensures forall k, e :: Lookup(index, k, e) == Lookup(properties, k, e) - (if InEntries(Entries(o, n), k, e) then {id} else {})
  {
    hide Lookup, IndexProperty, UnindexProperty;
    index := properties;
    var todo := n.properties.Keys;
    ghost var done: set<(string, string)> := {};
    while todo != {}
      invariant todo <= n.properties.Keys
      invariant done == set k | k in n.properties && k !in todo && n.properties[k] != Nil :: (k, o.key(n.properties[k]))
      invariant forall k, e :: Lookup(index, k, e) == Lookup(properties, k, e) - (if InEntries(done, k, e) then {id} else {})
    {
      var key :| key in todo;
      UnindexPropertyDrops(o, index, id, key, n.properties[key]);
      index := UnindexProperty(o, index, id, key, n.properties[key]);
      todo := todo - {key};
      if n.properties[key] != Nil { done := done + {(key, o.key(n.properties[key]))}; }
    }
    UnindexPropertyDrops(o, index, id, "body", Str(n.body));
    index := UnindexProperty(o, index, id, "body", Str(n.body));
    assert Entries(o, n) == done + {("body", o.key(Str(n.body)))};
  }

  /** withoutEdge. */
  method WithoutEdge(list: seq<Id>, id: Id) returns (rest: seq<Id>)
    requires Increasing(list)
    ensures Increasing(rest) && forall x :: x in rest <==> x in list && x != id
  {
    IncreasingNoDup(list);
    for i := 0 to |list|
      invariant id !in list[..i]
    {
      if list[i] == id {
        rest := list[..i] + list[i + 1..];
        assert list == list[..i] + [id] + list[i + 1..];
        assert forall j | 0 <= j < |rest| :: rest[j] == list[if j < i then j else j + 1];
        return;
      }
    }
    rest := list;
  }

  // ---- adjacency lists ----

  function Elements(list: seq<Id>): set<Id> {
    set x | x in list
  }

  /** sort.Slice of a list without repeats. */
  method SortLists(lists: map<Id, seq<Id>>) returns (sorted: map<Id, seq<Id>>)
    requires forall n | n in lists :: NoDup(lists[n])
    ensures forall n :: List(sorted, n) == SortedIds(Elements(List(lists, n)))
  {
    sorted := lists;
    var todo := lists.Keys;
    while todo != {}
      invariant todo <= lists.Keys == sorted.Keys
      invariant forall n | n in lists :: sorted[n] == if n in todo then lists[n] else SortedIds(Elements(lists[n]))
    {
      var n :| n in todo;
      sorted := sorted[n := SortedIds(Elements(lists[n]))];
      todo := todo - {n};
    }
  }

  function Append(lists: map<Id, seq<Id>>, n: Id, e: Id): map<Id, seq<Id>> {
    lists[n := List(lists, n) + [e]]
  }

  lemma SortedList(s: set<Id>, list: seq<Id>)
    requires list == SortedIds(s)
    ensures NoDup(list) && Elements(list) == s && Increasing(list)
  {
    SortedHolds(s);
    IncreasingNoDup(list);
  }

  lemma AppendOne(list: seq<Id>, e: Id)
    requires NoDup(list) && e !in list
    ensures NoDup(list + [e]) && Elements(list + [e]) == Elements(list) + {e}
  {
    AppendNoDup(list, [e]);
  }

  ghost predicate HoldEdges(edges: map<Id, Edge>, outgoing: map<Id, seq<Id>>, incoming: map<Id, seq<Id>>) {
    && (forall n :: NoDup(List(outgoing, n)) && Elements(List(outgoing, n)) == OutIds(edges, n))
    && (forall n :: NoDup(List(incoming, n)) && Elements(List(incoming, n)) == InIds(edges, n))
  }

  lemma AdjacencyHolds(edges: map<Id, Edge>, outgoing: map<Id, seq<Id>>, incoming: map<Id, seq<Id>>)
    requires AdjacencyAgrees(edges, outgoing, incoming)
    ensures HoldEdges(edges, outgoing, incoming)
  {
    forall n ensures NoDup(List(outgoing, n)) && Elements(List(outgoing, n)) == OutIds(edges, n) {
      SortedList(OutIds(edges, n), List(outgoing, n));
    }
    forall n ensures NoDup(List(incoming, n)) && Elements(List(incoming, n)) == InIds(edges, n) {
      SortedList(InIds(edges, n), List(incoming, n));
    }
  }

  lemma AppendHolds(edges: map<Id, Edge>, outgoing: map<Id, seq<Id>>, incoming: map<Id, seq<Id>>, id: Id, e: Edge)
    requires HoldEdges(edges, outgoing, incoming) && id !in edges
    ensures HoldEdges(edges[id := e], Append(outgoing, e.from, id), Append(incoming, e.to, id))
  {
    var after := edges[id := e];
    forall n ensures NoDup(List(Append(outgoing, e.from, id), n)) && Elements(List(Append(outgoing, e.from, id), n)) == OutIds(after, n) {
      assert OutIds(after, n) == OutIds(edges, n) + (if n == e.from then {id} else {});
      if n == e.from { assert id !in Elements(List(outgoing, n)); AppendOne(List(outgoing, n), id); }
    }
    forall n ensures NoDup(List(Append(incoming, e.to, id), n)) && Elements(List(Append(incoming, e.to, id), n)) == InIds(after, n) {
      assert InIds(after, n) == InIds(edges, n) + (if n == e.to then {id} else {});
      if n == e.to { assert id !in Elements(List(incoming, n)); AppendOne(List(incoming, n), id); }
    }
  }

  /** sortAdjacency. */
  method SortAdjacency(ghost edges: map<Id, Edge>, outgoing: map<Id, seq<Id>>, incoming: map<Id, seq<Id>>)
    returns (out: map<Id, seq<Id>>, into: map<Id, seq<Id>>)
    requires HoldEdges(edges, outgoing, incoming)
    ensures AdjacencyAgrees(edges, out, into)
  {
    forall n | n in outgoing ensures NoDup(outgoing[n]) { assert NoDup(List(outgoing, n)); }
    forall n | n in incoming ensures NoDup(incoming[n]) { assert NoDup(List(incoming, n)); }
    out := SortLists(outgoing);
    into := SortLists(incoming);
    forall n ensures List(out, n) == SortedIds(OutIds(edges, n)) && List(into, n) == SortedIds(InIds(edges, n)) {
      assert Elements(List(outgoing, n)) == OutIds(edges, n) && Elements(List(incoming, n)) == InIds(edges, n);
    }
  }

  /** removeAdjacency. */
  method RemoveAdjacency(ghost edges: map<Id, Edge>, outgoing: map<Id, seq<Id>>, incoming: map<Id, seq<Id>>, id: Id,
          e: Edge)
    returns (out: map<Id, seq<Id>>, into: map<Id, seq<Id>>)
    requires AdjacencyAgrees(edges, outgoing, incoming) && id in edges && edges[id] == e
    ensures AdjacencyAgrees(edges - {id}, out, into)
  {
    hide SortedIds, Increasing, OutIds, InIds;
    SortedList(OutIds(edges, e.from), List(outgoing, e.from));
    SortedList(InIds(edges, e.to), List(incoming, e.to));
    var from := WithoutEdge(List(outgoing, e.from), id);
    var to := WithoutEdge(List(incoming, e.to), id);
    out, into := outgoing[e.from := from], incoming[e.to := to];
    forall n ensures List(out, n) == SortedIds(OutIds(edges - {id}, n)) { OutWithout(edges, outgoing, id, from, n); }
    forall n ensures List(into, n) == SortedIds(InIds(edges - {id}, n)) { InWithout(edges, incoming, id, to, n); }
  }

  lemma OutWithout(edges: map<Id, Edge>, outgoing: map<Id, seq<Id>>, id: Id, rest: seq<Id>, n: Id)
    requires id in edges && List(outgoing, n) == SortedIds(OutIds(edges, n)) && Increasing(rest)
    requires forall x :: x in rest <==> x in List(outgoing, edges[id].from) && x != id
    ensures List(outgoing[edges[id].from := rest], n) == SortedIds(OutIds(edges - {id}, n))
  {
    hide Increasing;
    if n == edges[id].from {
      assert OutIds(edges - {id}, n) == OutIds(edges, n) - {id};
      SortedList(OutIds(edges, n), List(outgoing, n));
      RestIsSorted(OutIds(edges, n), List(outgoing, n), id, rest);
    } else {
      assert OutIds(edges - {id}, n) == OutIds(edges, n);
    }
  }

  lemma InWithout(edges: map<Id, Edge>, incoming: map<Id, seq<Id>>, id: Id, rest: seq<Id>, n: Id)
    requires id in edges && List(incoming, n) == SortedIds(InIds(edges, n)) && Increasing(rest)
    requires forall x :: x in rest <==> x in List(incoming, edges[id].to) && x != id
    ensures List(incoming[edges[id].to := rest], n) == SortedIds(InIds(edges - {id}, n))
  {
    hide Increasing;
    if n == edges[id].to {
      assert InIds(edges - {id}, n) == InIds(edges, n) - {id};
      SortedList(InIds(edges, n), List(incoming, n));
      RestIsSorted(InIds(edges, n), List(incoming, n), id, rest);
    } else {
      assert InIds(edges - {id}, n) == InIds(edges, n);
    }
  }

  lemma RestIsSorted(s: set<Id>, list: seq<Id>, id: Id, rest: seq<Id>)
    requires Elements(list) == s && Increasing(rest) && forall x :: x in rest <==> x in list && x != id
    ensures rest == SortedIds(s - {id})
  {
    forall x ensures x in rest <==> x in s - {id} { assert x in list <==> x in Elements(list); }
    IncreasingIsSorted(rest, s - {id});
  }

  // ---- the index invariants under a change of one node ----

  lemma LabelsAfter(nodes: map<Id, Node>, was: Index, now: Index, id: Id, n: Node)
    requires LabelsAgree(nodes, was) && id !in nodes
    requires forall l :: Get(now, l) == Get(was, l) + (if l in n.labels then {id} else {})
    ensures LabelsAgree(nodes[id := n], now)
  {
  }

  lemma LabelsWithout(nodes: map<Id, Node>, was: Index, now: Index, id: Id)
    requires LabelsAgree(nodes, was) && id in nodes
    requires forall l :: Get(now, l) == Get(was, l) - (if l in nodes[id].labels then {id} else {})
    ensures LabelsAgree(nodes - {id}, now)
  {
  }

  lemma PropertiesAfter(o: Values, nodes: map<Id, Node>, was: map<string, Index>, now: map<string, Index>, id: Id,
          n: Node)
    requires SoundValues(o) && PropertiesAgree(o, nodes, was) && id !in nodes
    requires forall k, e :: Lookup(now, k, e) == Lookup(was, k, e) + (if InEntries(Entries(o, n), k, e) then {id} else {})
    ensures PropertiesAgree(o, nodes[id := n], now)
  {
    forall k, v, x | Exact(v) ensures x in Lookup(now, k, o.key(v)) <==> x in nodes[id := n] && Holds(nodes[id := n][x], k, v) {
      EntriesAreHeld(o, n, k, v);
      assert InEntries(Entries(o, n), k, o.key(v)) <==> Holds(n, k, v);
    }
  }

  lemma PropertiesWithout(o: Values, nodes: map<Id, Node>, was: map<string, Index>, now: map<string, Index>, id: Id)
    requires SoundValues(o) && PropertiesAgree(o, nodes, was) && id in nodes
    requires forall k, e :: Lookup(now, k, e) == Lookup(was, k, e) - (if InEntries(Entries(o, nodes[id]), k, e) then {id} else {})
    ensures PropertiesAgree(o, nodes - {id}, now)
  {
    forall k, v, x | Exact(v) ensures x in Lookup(now, k, o.key(v)) <==> x in nodes - {id} && Holds((nodes - {id})[x], k, v) {
      EntriesAreHeld(o, nodes[id], k, v);
      assert InEntries(Entries(o, nodes[id]), k, o.key(v)) <==> Holds(nodes[id], k, v);
    }
  }

  lemma FullAfter(o: Values, nodes: map<Id, Node>, was: map<string, Index>, now: map<string, Index>, id: Id, n: Node)
    requires id !in nodes
    requires forall k, e :: Lookup(now, k, e) == Lookup(was, k, e) + (if InEntries(Entries(o, n), k, e) then {id} else {})
    ensures IsFull(o, nodes, was) ==> IsFull(o, nodes[id := n], now)
  {
    hide Entries, Lookup;
  }

  lemma FullWithout(o: Values, nodes: map<Id, Node>, was: map<string, Index>, now: map<string, Index>, id: Id)
    requires id in nodes
    requires forall k, e :: Lookup(now, k, e) == Lookup(was, k, e) - (if InEntries(Entries(o, nodes[id]), k, e) then {id} else {})
    ensures IsFull(o, nodes, was) ==> IsFull(o, nodes - {id}, now)
  {
    hide Entries, Lookup;
  }

  /** An index that is not rebuilt for a node stays full exactly if the entries of the
      node are the same. */
  lemma FullKeptIff(o: Values, nodes: map<Id, Node>, properties: map<string, Index>, id: Id, n: Node)
    requires IsFull(o, nodes, properties) && id in nodes
    ensures IsFull(o, nodes[id := n], properties) <==> Entries(o, n) == Entries(o, nodes[id])
  {
    hide Entries, Lookup;
    var after := nodes[id := n];
    if IsFull(o, after, properties) {
      forall k, e ensures InEntries(Entries(o, n), k, e) <==> InEntries(Entries(o, nodes[id]), k, e) {
        assert id in Lookup(properties, k, e) <==> id in after && InEntries(Entries(o, after[id]), k, e);
      }
      SameEntries(Entries(o, n), Entries(o, nodes[id]));
    }
  }

  lemma SameEntries(a: set<(string, string)>, b: set<(string, string)>)
    requires forall k, e :: InEntries(a, k, e) <==> InEntries(b, k, e)
    ensures a == b
  {
    forall x ensures x in a <==> x in b { assert InEntries(a, x.0, x.1) <==> InEntries(b, x.0, x.1); }
  }

  predicate MapsEqual(o: Values, p: map<string, PropValue>, q: map<string, PropValue>) {
    p.Keys == q.Keys && forall k | k in p :: o.equal(p[k], q[k])
  }

  /** An update that equality does not see leaves the entries of exact values. */
  lemma EqualUpdateKeeps(o: Values, nodes: map<Id, Node>, labels: Index, properties: map<string, Index>, id: Id, n: Node)
    requires SoundValues(o) && LabelsAgree(nodes, labels) && PropertiesAgree(o, nodes, properties) && id in nodes
    requires n.labels == nodes[id].labels && n.body == nodes[id].body && MapsEqual(o, nodes[id].properties, n.properties)
    ensures LabelsAgree(nodes[id := n], labels) && PropertiesAgree(o, nodes[id := n], properties)
  {
    forall k, v | Exact(v) ensures Holds(n, k, v) <==> Holds(nodes[id], k, v) {
      assert k in n.properties <==> k in nodes[id].properties;
      if k in n.properties { assert o.equal(nodes[id].properties[k], n.properties[k]); }
    }
  }

  function Restrict<T>(all: map<Id, T>, ids: seq<Id>): map<Id, T> {
    map x | x in all && x in ids :: all[x]
  }

  lemma RestrictMore<T>(all: map<Id, T>, ids: seq<Id>, i: nat)
    requires NoDup(ids) && i < |ids| && Elements(ids) == all.Keys
    ensures ids[i] in all && ids[i] !in Restrict(all, ids[..i])
    ensures Restrict(all, ids[..i + 1]) == Restrict(all, ids[..i])[ids[i] := all[ids[i]]]
  {
    assert ids[i] in Elements(ids);
    assert ids[..i + 1] == ids[..i] + [ids[i]];
  }

  lemma RestrictAll<T>(all: map<Id, T>, ids: seq<Id>)
    requires Elements(ids) == all.Keys
    ensures Restrict(all, ids[..|ids|]) == all
  {
    assert ids[..|ids|] == ids;
    forall x | x in all ensures x in ids { assert x in Elements(ids); }
  }

  lemma NoEdges()
    ensures HoldEdges(map[], map[], map[])
  {
  }

  /** Nothing an update reports as a change. */
  predicate SameEdge(o: Values, a: Edge, b: Edge) {
    a.validFrom == b.validFrom && a.from == b.from && a.to == b.to && a.kind == b.kind && a.position == b.position
    && MapsEqual(o, a.properties, b.properties)
  }

  // ---- the graph ----

  class MemoryGraph {
    const o: Values
    var nodes: map<Id, Node>
    var edges: map<Id, Edge>
    var outgoing: map<Id, seq<Id>>
    var incoming: map<Id, seq<Id>>
    var labels: Index
    var properties: map<string, Index>

    ghost predicate Valid()
      reads this
    {
      SoundValues(o) && LabelsAgree(nodes, labels) && PropertiesAgree(o, nodes, properties) && AdjacencyAgrees(edges, outgoing, incoming)
    }

    /** The property index is exact for values of every kind. */
    ghost predicate Full()
      reads this
    {
      IsFull(o, nodes, properties)
    }

    /** The graph as the matcher sees it. */
    function Plain(): Graph
      reads this
    {
      Graph(nodes.Keys, map e | e in edges :: Ends(edges[e].from, edges[e].to))
    }

    /** newMemoryGraph. */
    constructor (o: Values, nodeIds: seq<Id>, nodes: map<Id, Node>, edgeIds: seq<Id>, edges: map<Id, Edge>)
      requires SoundValues(o) && NoDup(nodeIds) && NoDup(edgeIds)
      requires Elements(nodeIds) == nodes.Keys && Elements(edgeIds) == edges.Keys
      ensures Valid() && Full() && this.o == o && this.nodes == nodes && this.edges == edges
    {
      this.o := o;
      this.nodes, this.edges, outgoing, incoming, labels, properties := map[], map[], map[], map[], map[], map[];
      new;
      LoadNodes(nodeIds, nodes);
      LoadEdges(edgeIds, edges);
    }

    method LoadNodes(ids: seq<Id>, all: map<Id, Node>)
      requires SoundValues(o) && NoDup(ids) && Elements(ids) == all.Keys
      requires nodes == map[] && labels == map[] && properties == map[]
      modifies this`nodes, this`labels, this`properties
      ensures Indexed() && Full() && nodes == all
    {
      assert Indexed() && Full();
      hide LabelsAgree, PropertiesAgree, SoundValues, IsFull;
      for i := 0 to |ids|
        invariant Indexed() && Full()
        invariant nodes == Restrict(all, ids[..i])
      {
        RestrictMore(all, ids, i);
        IndexNode(ids[i], all[ids[i]]);
      }
      RestrictAll(all, ids);
    }

    method LoadEdges(ids: seq<Id>, all: map<Id, Edge>)
      requires Indexed() && NoDup(ids) && Elements(ids) == all.Keys
      requires edges == map[] && outgoing == map[] && incoming == map[]
      modifies this`edges, this`outgoing, this`incoming
      ensures Valid() && edges == all
    {
      NoEdges();
      hide LabelsAgree, PropertiesAgree, SoundValues, HoldEdges, AdjacencyAgrees, IsFull;
      for i := 0 to |ids|
        invariant HoldEdges(edges, outgoing, incoming)
        invariant edges == Restrict(all, ids[..i])
      {
        var id := ids[i];
        RestrictMore(all, ids, i);
        AppendHolds(edges, outgoing, incoming, id, all[id]);
        outgoing, incoming := Append(outgoing, all[id].from, id), Append(incoming, all[id].to, id);
        edges := edges[id := all[id]];
      }
      RestrictAll(all, ids);
      outgoing, incoming := SortAdjacency(edges, outgoing, incoming);
    }

    ghost predicate Indexed()
      reads this
    {
      SoundValues(o) && LabelsAgree(nodes, labels) && PropertiesAgree(o, nodes, properties)
    }

    /** Adding a node and its index entries. */
    method IndexNode(id: Id, n: Node)
      requires Indexed() && id !in nodes
      modifies this`nodes, this`labels, this`properties
      ensures Indexed() && nodes == old(nodes)[id := n]
      ensures old(Full()) ==> Full()
    {
      hide LabelsAgree, PropertiesAgree, SoundValues, IsFull;
      ghost var was, wasLabels, wasProperties := nodes, labels, properties;
      labels := IndexLabels(labels, id, n.labels);
      properties := IndexProperties(o, properties, id, n);
      nodes := nodes[id := n];
      LabelsAfter(was, wasLabels, labels, id, n);
      PropertiesAfter(o, was, wasProperties, properties, id, n);
      FullAfter(o, was, wasProperties, properties, id, n);
    }

    /** Removing a node and its index entries. */
    method UnindexNode(id: Id)
      requires Indexed() && id in nodes
      modifies this`nodes, this`labels, this`properties
      ensures Indexed() && nodes == old(nodes) - {id}
      ensures old(Full()) ==> Full()
    {
      hide LabelsAgree, PropertiesAgree, SoundValues, IsFull;
      ghost var was, wasLabels, wasProperties := nodes, labels, properties;
      labels := UnindexLabels(labels, id, nodes[id].labels);
      properties := UnindexProperties(o, properties, id, nodes[id]);
      nodes := nodes - {id};
      LabelsWithout(was, wasLabels, labels, id);
      PropertiesWithout(o, was, wasProperties, properties, id);
      FullWithout(o, was, wasProperties, properties, id);
    }

    /** n is what the write transaction returned. */
    method CreateNode(id: Id, n: Node)
      requires Valid() && id !in nodes
      modifies this
      ensures Valid() && nodes == old(nodes)[id := n] && edges == old(edges)
      ensures old(Full()) ==> Full()
    {
      hide LabelsAgree, PropertiesAgree, SoundValues, AdjacencyAgrees, IsFull;
      IndexNode(id, n);
    }

    /** The indexes are rebuilt only for a change that equality sees. */
    method UpdateNode(id: Id, n: Node) returns (r: Result<bool>)
      requires Valid()
      modifies this
      ensures Valid() && edges == old(edges)
      ensures r.Err? <==> id !in old(nodes)
      ensures nodes == if r.Ok? then old(nodes)[id := n] else old(nodes)
      ensures r.Ok? && !r.value ==> var b := old(nodes)[id];
              n.validFrom == b.validFrom && n.body == b.body && n.labels == b.labels && MapsEqual(o, b.properties, n.properties)
      ensures old(Full()) && (r.Err? || r.value) ==> Full()
      ensures old(Full()) && r.Ok? && !r.value ==> (Full() <==> Entries(o, n) == Entries(o, old(nodes)[id]))
    {
      hide LabelsAgree, PropertiesAgree, SoundValues, AdjacencyAgrees, IsFull, Entries;
      if id !in nodes { return Err(NotFound); }
      var before := nodes[id];
      var changed := before.validFrom != n.validFrom || before.body != n.body || before.labels != n.labels
                     || !MapsEqual(o, before.properties, n.properties);
      if changed {
        UnindexNode(id);
        IndexNode(id, n);
        assert nodes == old(nodes)[id := n];
      } else {
        EqualUpdateKeeps(o, nodes, labels, properties, id, n);
        if Full() { FullKeptIff(o, nodes, properties, id, n); }
        nodes := nodes[id := n];
      }
      return Ok(changed);
    }

    /** Deleting a node removes its edges first met in the outgoing, then in the
        incoming list, each once. */
    method DeleteNode(id: Id) returns (r: Result<seq<Id>>)
      requires Valid()
      modifies this
      ensures Valid()
      ensures r.Err? <==> id !in old(nodes)
      ensures r.Err? ==> nodes == old(nodes) && edges == old(edges)
      ensures r.Ok? ==> nodes == old(nodes) - {id} && edges == old(edges) - Elements(r.value)
      ensures r.Ok? ==> NoDup(r.value) && Elements(r.value) == OutIds(old(edges), id) + InIds(old(edges), id)
      ensures old(Full()) ==> Full()
    {
      if id !in nodes { return Err(NotFound); }
      hide LabelsAgree, PropertiesAgree, SoundValues, AdjacencyAgrees, IsFull;
      var incident := Incident(id);
      UnindexNode(id);
      RemoveEdges(incident);
      return Ok(incident);
    }

    method RemoveEdges(ids: seq<Id>)
      requires Valid()
      modifies this`edges, this`outgoing, this`incoming
      ensures Valid() && edges == old(edges) - Elements(ids)
    {
      hide LabelsAgree, PropertiesAgree, SoundValues, AdjacencyAgrees;
      for i := 0 to |ids|
        invariant Valid() && edges == old(edges) - Elements(ids[..i])
      {
        RemoveEdge(ids[i]);
        assert Elements(ids[..i + 1]) == Elements(ids[..i]) + {ids[i]};
      }
      assert ids[..|ids|] == ids;
    }

    method Incident(id: Id) returns (incident: seq<Id>)
      requires Valid()
      ensures NoDup(incident) && Elements(incident) == OutIds(edges, id) + InIds(edges, id)
    {
      hide LabelsAgree, PropertiesAgree, SoundValues, AdjacencyAgrees;
      var all := List(outgoing, id) + List(incoming, id);
      incident := [];
      for i := 0 to |all|
        invariant NoDup(incident) && Elements(incident) == Elements(all[..i])
      {
        assert Elements(all[..i + 1]) == Elements(all[..i]) + {all[i]};
        if all[i] !in Elements(incident) {
          AppendOne(incident, all[i]);
          incident := incident + [all[i]];
        }
      }
      assert all[..|all|] == all;
      AdjacencyHolds(edges, outgoing, incoming);
      assert Elements(all) == Elements(List(outgoing, id)) + Elements(List(incoming, id));
    }

    method RemoveEdge(id: Id)
      requires Valid()
      modifies this`edges, this`outgoing, this`incoming
      ensures Valid() && edges == old(edges) - {id}
    {
      hide LabelsAgree, PropertiesAgree, SoundValues, AdjacencyAgrees;
      if id !in edges {
        assert edges == edges - {id};
        return;
      }
      outgoing, incoming := RemoveAdjacency(edges, outgoing, incoming, id, edges[id]);
      edges := edges - {id};
    }

    method CreateEdge(id: Id, e: Edge)
      requires Valid() && id !in edges
      modifies this
      ensures Valid() && edges == old(edges)[id := e] && nodes == old(nodes)
    {
      hide LabelsAgree, PropertiesAgree, SoundValues, AdjacencyAgrees, HoldEdges;
      AddEdge(id, e);
    }

    method AddEdge(id: Id, e: Edge)
      requires Valid() && id !in edges
      modifies this`edges, this`outgoing, this`incoming
      ensures Valid() && edges == old(edges)[id := e]
    {
      hide LabelsAgree, PropertiesAgree, SoundValues, AdjacencyAgrees, HoldEdges;
      AdjacencyHolds(edges, outgoing, incoming);
      AppendHolds(edges, outgoing, incoming, id, e);
      edges, outgoing, incoming := edges[id := e], Append(outgoing, e.from, id), Append(incoming, e.to, id);
      outgoing, incoming := SortAdjacency(edges, outgoing, incoming);
    }

    /** The adjacency lists change only when an end moves. */
    method UpdateEdge(id: Id, e: Edge) returns (r: Result<bool>)
      requires Valid()
      modifies this
      ensures Valid() && nodes == old(nodes)
      ensures r.Err? <==> id !in old(edges)
      ensures edges == if r.Ok? then old(edges)[id := e] else old(edges)
      ensures r.Ok? ==> (r.value <==> !SameEdge(o, old(edges)[id], e))
    {
      hide LabelsAgree, PropertiesAgree, SoundValues, AdjacencyAgrees, HoldEdges;
      if id !in edges { return Err(NotFound); }
      var before := edges[id];
      var changed := !SameEdge(o, before, e);
      if changed && (before.from != e.from || before.to != e.to) {
        RemoveEdge(id);
        AddEdge(id, e);
        assert edges == old(edges)[id := e];
      } else {
        SameEndsAgree(edges, outgoing, incoming, id, e);
        edges := edges[id := e];
      }
      return Ok(changed);
    }

    method DeleteEdge(id: Id) returns (r: Result<()>)
      requires Valid()
      modifies this
      ensures Valid() && nodes == old(nodes)
      ensures r.Err? <==> id !in old(edges)
      ensures edges == old(edges) - {id}
    {
      hide LabelsAgree, PropertiesAgree, SoundValues, AdjacencyAgrees;
      if id !in edges {
        assert edges == edges - {id};
        return Err(NotFound);
      }
      RemoveEdge(id);
      return Ok(());
    }
  }

  lemma SameEndsAgree(edges: map<Id, Edge>, outgoing: map<Id, seq<Id>>, incoming: map<Id, seq<Id>>, id: Id, e: Edge)
    requires AdjacencyAgrees(edges, outgoing, incoming) && id in edges && edges[id].from == e.from && edges[id].to == e.to
    ensures AdjacencyAgrees(edges[id := e], outgoing, incoming)
  {
    forall n ensures OutIds(edges[id := e], n) == OutIds(edges, n) && InIds(edges[id := e], n) == InIds(edges, n) { }
  }
}
