/** candidateNodes and adjacentEdges over the indexed graph: choosing the smallest
    index and merging two adjacency lists give what a scan of the graph gives. */
module IndexedMatching {
  import opened Base
  import opened Text
  import opened Sorted
  import opened MatchGraph
  import opened MemoryGraph
  import T = Trails
  import M = Matching

  // ---- candidates ----

  /** The node pattern with these labels and expected properties. */
  function PatternFor(o: Values, nodes: map<Id, Node>, variable: string, labels: seq<string>,
          expected: T.Row -> map<string, PropValue>): T.NodePattern {
    T.NodePattern(variable, (row, n) => n in nodes && Matches(o, nodes[n], labels, expected(row)))
  }

  /** Every expected value is null, exact, or of a kind not looked up. */
  predicate Lookable(o: Values, expected: map<string, PropValue>) {
    forall k | k in expected :: expected[k] == Nil || Exact(expected[k]) || o.skipped(expected[k])
  }

  function MatchingIds(o: Values, nodes: map<Id, Node>, labels: seq<string>, expected: map<string, PropValue>): set<Id> {
    set n | n in nodes && Matches(o, nodes[n], labels, expected)
  }

  function Smaller(indexed: Option<set<Id>>, candidates: set<Id>): Option<set<Id>> {
    if indexed.None? || |candidates| < |indexed.value| then Some(candidates) else indexed
  }

  /** Among the index entries met, the first smallest one is kept. */
  ghost predicate IsSmallest(indexed: Option<set<Id>>, entries: set<set<Id>>) {
    if indexed.None? then entries == {} else indexed.value in entries && forall b | b in entries :: |indexed.value| <= |b|
  }

  /** A constraint that is looked up, and has an index entry. */
  predicate HasEntry(graph: MemoryGraph, k: string, v: PropValue)
    reads graph
  {
    v != Nil && !graph.o.skipped(v) && k in graph.properties && graph.o.key(v) in graph.properties[k]
  }

  function EntryOf(graph: MemoryGraph, k: string, v: PropValue): set<Id>
    requires HasEntry(graph, k, v)
    reads graph
  {
    graph.properties[k][graph.o.key(v)]
  }

  function LabelEntries(graph: MemoryGraph, labels: seq<string>): set<set<Id>>
    reads graph
  {
    set l | l in labels && l in graph.labels :: graph.labels[l]
  }

  function PropertyEntries(graph: MemoryGraph, expected: map<string, PropValue>, keys: set<string>): set<set<Id>>
    reads graph
  {
    set k | k in keys && k in expected && HasEntry(graph, k, expected[k]) :: EntryOf(graph, k, expected[k])
  }

  /** The entries a pattern can be looked up in. */
  function AllEntries(graph: MemoryGraph, labels: seq<string>, expected: map<string, PropValue>): set<set<Id>>
    reads graph
  {
    LabelEntries(graph, labels) + PropertyEntries(graph, expected, expected.Keys)
  }

  function Inside(found: set<Id>, indexed: Option<set<Id>>): set<Id> {
    if indexed.None? then found else found * indexed.value
  }

  /** The index is exact for all values of the graph, or for those expected. */
  ghost predicate Usable(graph: MemoryGraph, expected: map<string, PropValue>)
    reads graph
  {
    graph.Valid() && (graph.Full() || Lookable(graph.o, expected))
  }

  /** Without a value for the variable, the nodes that match and are in the entry chosen;
      for exact values these are all that match. */
  method CandidateNodes(graph: MemoryGraph, row: T.Row, variable: string, labels: seq<string>,
          expectedOf: T.Row -> map<string, PropValue>)
    returns (ids: seq<Id>, ghost indexed: Option<set<Id>>)
    requires Usable(graph, expectedOf(row))
    ensures var pattern := PatternFor(graph.o, graph.nodes, variable, labels, expectedOf);
            var all := M.Candidates(graph.Plain(), row, pattern);
            if variable != "" && variable in row then ids == all
            else ids == SortedIds(Inside(MatchingIds(graph.o, graph.nodes, labels, expectedOf(row)), indexed))
                 && all == SortedIds(MatchingIds(graph.o, graph.nodes, labels, expectedOf(row)))
                 && (Lookable(graph.o, expectedOf(row)) ==> ids == all)
    ensures Nil in expectedOf(row).Values || IsSmallest(indexed, AllEntries(graph, labels, expectedOf(row))) || (variable != "" && variable in row)
  {
    hide LabelsAgree, PropertiesAgree, SoundValues, AdjacencyAgrees, IsFull, Matches, Lookable, Inside, IsSmallest, AllEntries, Usable;
    var expected := expectedOf(row);
    indexed := None;
    if variable != "" && variable in row {
      if !row[variable].NodeRef? { return [], None; }
      var n := row[variable].node;
      if n !in graph.nodes || !Matches(graph.o, graph.nodes[n], labels, expected) { return [], None; }
      return [n], None;
    }
    ids, indexed := Unbound(graph, labels, expected);
    var pattern := PatternFor(graph.o, graph.nodes, variable, labels, expectedOf);
    assert (set n | n in graph.Plain().nodes && pattern.test(row, n)) == MatchingIds(graph.o, graph.nodes, labels, expected);
  }

  /** The candidates are the nodes that the pattern asks for, in ID order; a variable with
      a value leaves at most its node. */
  lemma CandidatesMean(o: Values, nodes: map<Id, Node>, g: Graph, row: T.Row, variable: string, labels: seq<string>,
          expectedOf: T.Row -> map<string, PropValue>)
    requires g.nodes == nodes.Keys
    ensures var all := M.Candidates(g, row, PatternFor(o, nodes, variable, labels, expectedOf));
            && Increasing(all)
            && forall n :: n in all <==>
                 && n in nodes && AsksFor(o, nodes[n], labels, expectedOf(row))
                 && (variable == "" || variable !in row || row[variable] == T.NodeRef(n))
  {
    var pattern := PatternFor(o, nodes, variable, labels, expectedOf);
    forall n | n in nodes ensures pattern.test(row, n) <==> AsksFor(o, nodes[n], labels, expectedOf(row)) {
      MatchesMeans(o, nodes[n], labels, expectedOf(row));
    }
    hide Matches, AsksFor;
    SortedHolds(set n | n in g.nodes && pattern.test(row, n));
  }

  method Unbound(graph: MemoryGraph, labels: seq<string>, expected: map<string, PropValue>)
    returns (ids: seq<Id>, ghost indexed: Option<set<Id>>)
    requires Usable(graph, expected)
    ensures ids == SortedIds(Inside(MatchingIds(graph.o, graph.nodes, labels, expected), indexed))
    ensures Lookable(graph.o, expected) ==> ids == SortedIds(MatchingIds(graph.o, graph.nodes, labels, expected))
    ensures Nil in expected.Values || IsSmallest(indexed, AllEntries(graph, labels, expected))
  {
    hide *;
    var chosen: Option<set<Id>> := None;
    NoEntries(graph, labels, expected);
    for i := 0 to |labels|
      invariant IsSmallest(chosen, LabelEntries(graph, labels[..i]))
    {
      NextLabel(graph, labels, i, chosen);
      if labels[i] in graph.labels { chosen := Smaller(chosen, graph.labels[labels[i]]); }
    }
    assert labels[..|labels|] == labels;
    var todo := expected.Keys;
    while todo != {}
      invariant todo <= expected.Keys
      invariant IsSmallest(chosen, LabelEntries(graph, labels) + PropertyEntries(graph, expected, expected.Keys - todo))
    {
      var k :| k in todo;
      var v := expected[k];
      if v == Nil {
        NilMatchesNothing(graph, labels, expected, k);
        return [], Some({});
      }
      NextKey(graph, labels, expected, expected.Keys - todo, k, chosen);
      assert expected.Keys - todo + {k} == expected.Keys - (todo - {k});
      todo := todo - {k};
      if HasEntry(graph, k, v) { chosen := Smaller(chosen, EntryOf(graph, k, v)); }
    }
    assert expected.Keys - {} == expected.Keys;
    AllEntriesIs(graph, labels, expected);
    ChosenAreNodes(graph, labels, expected, chosen);
    var candidates := if chosen.Some? then chosen.value else graph.nodes.Keys;
    ids := FilterSorted(graph, candidates, labels, expected);
    indexed := chosen;
    InsideIs(MatchingIds(graph.o, graph.nodes, labels, expected), chosen);
    UsableIsValid(graph, expected);
    if Lookable(graph.o, expected) { NothingOutside(graph, labels, expected, chosen); }
  }

  lemma InsideIs(found: set<Id>, indexed: Option<set<Id>>)
    ensures Inside(found, indexed) == if indexed.None? then found else found * indexed.value
  {
  }

  lemma UsableIsValid(graph: MemoryGraph, expected: map<string, PropValue>)
    requires Usable(graph, expected)
    ensures graph.Valid()
  {
  }

  lemma NoEntries(graph: MemoryGraph, labels: seq<string>, expected: map<string, PropValue>)
    ensures IsSmallest(None, LabelEntries(graph, labels[..0]))
    ensures LabelEntries(graph, labels) + PropertyEntries(graph, expected, expected.Keys - expected.Keys) == LabelEntries(graph, labels)
  {
    hide HasEntry, EntryOf;
  }

  lemma NextLabel(graph: MemoryGraph, labels: seq<string>, i: nat, chosen: Option<set<Id>>)
    requires i < |labels| && IsSmallest(chosen, LabelEntries(graph, labels[..i]))
    ensures IsSmallest(if labels[i] in graph.labels then Smaller(chosen, graph.labels[labels[i]]) else chosen, LabelEntries(graph, labels[..i + 1]))
  {
    assert labels[..i + 1] == labels[..i] + [labels[i]];
    assert LabelEntries(graph, labels[..i + 1])
        == LabelEntries(graph, labels[..i]) + (if labels[i] in graph.labels then {graph.labels[labels[i]]} else {});
  }

  lemma NextKey(graph: MemoryGraph, labels: seq<string>, expected: map<string, PropValue>, done: set<string>, k: string,
          chosen: Option<set<Id>>)
    requires k in expected && IsSmallest(chosen, LabelEntries(graph, labels) + PropertyEntries(graph, expected, done))
    ensures IsSmallest(if HasEntry(graph, k, expected[k]) then Smaller(chosen, EntryOf(graph, k, expected[k])) else chosen,
                    LabelEntries(graph, labels) + PropertyEntries(graph, expected, done + {k}))
  {
    hide LabelEntries, HasEntry, EntryOf;
    assert PropertyEntries(graph, expected, done + {k})
        == PropertyEntries(graph, expected, done) + (if HasEntry(graph, k, expected[k]) then {EntryOf(graph, k, expected[k])} else {});
  }

  lemma AllEntriesIs(graph: MemoryGraph, labels: seq<string>, expected: map<string, PropValue>)
    ensures AllEntries(graph, labels, expected) == LabelEntries(graph, labels) + PropertyEntries(graph, expected, expected.Keys)
  {
  }

  /** No entry holds anything but nodes of the graph. */
  lemma ChosenAreNodes(graph: MemoryGraph, labels: seq<string>, expected: map<string, PropValue>, chosen: Option<set<Id>>)
    requires Usable(graph, expected) && IsSmallest(chosen, AllEntries(graph, labels, expected))
    ensures chosen.Some? ==> chosen.value <= graph.nodes.Keys
  {
    hide IsFull, LabelsAgree, PropertiesAgree, SoundValues, AdjacencyAgrees, HasEntry, EntryOf, Lookable, Exact;
    if chosen.Some? {
      var b := chosen.value;
      if l :| l in labels && l in graph.labels && graph.labels[l] == b {
        LabelIndexHolds(graph, labels, expected, l);
      } else {
        var k :| k in expected && HasEntry(graph, k, expected[k]) && EntryOf(graph, k, expected[k]) == b;
        EntryAreNodes(graph, expected, k);
      }
    }
  }

  lemma EntryAreNodes(graph: MemoryGraph, expected: map<string, PropValue>, k: string)
    requires Usable(graph, expected) && k in expected && HasEntry(graph, k, expected[k])
    ensures EntryOf(graph, k, expected[k]) <= graph.nodes.Keys
  {
    hide LabelsAgree, SoundValues, AdjacencyAgrees, Entries, Holds;
    var v := expected[k];
    assert EntryOf(graph, k, v) == Lookup(graph.properties, k, graph.o.key(v));
    assert graph.Full() || Exact(v);
  }

  /** Exact values lose nothing to an entry. */
  lemma NothingOutside(graph: MemoryGraph, labels: seq<string>, expected: map<string, PropValue>, chosen: Option<set<Id>>)
    requires graph.Valid() && Lookable(graph.o, expected) && IsSmallest(chosen, AllEntries(graph, labels, expected))
    ensures Inside(MatchingIds(graph.o, graph.nodes, labels, expected), chosen) == MatchingIds(graph.o, graph.nodes, labels, expected)
  {
    hide LabelsAgree, PropertiesAgree, SoundValues, AdjacencyAgrees, Lookable, MatchingIds;
    if chosen.Some? {
      var b := chosen.value;
      if l :| l in labels && l in graph.labels && graph.labels[l] == b {
        LabelIndexHolds(graph, labels, expected, l);
      } else {
        var k :| k in expected && HasEntry(graph, k, expected[k]) && EntryOf(graph, k, expected[k]) == b;
        PropertyIndexHolds(graph, labels, expected, k);
      }
    }
  }

  /** The residual filter over the sorted candidates. */
  method FilterSorted(graph: MemoryGraph, candidates: set<Id>, labels: seq<string>, expected: map<string,
          PropValue>) returns (ids: seq<Id>)
    requires candidates <= graph.nodes.Keys
    ensures ids == SortedIds(MatchingIds(graph.o, graph.nodes, labels, expected) * candidates)
    ensures candidates == graph.nodes.Keys ==>
              MatchingIds(graph.o, graph.nodes, labels, expected) * candidates == MatchingIds(graph.o, graph.nodes, labels, expected)
  {
    ghost var found := MatchingIds(graph.o, graph.nodes, labels, expected) * candidates;
    var sorted := SortedIds(candidates);
    SortedHolds(candidates);
    hide Matches;
    ids := [];
    for i := 0 to |sorted|
      invariant Increasing(ids) && forall x :: x in ids <==> x in sorted[..i] && x in found
    {
      assert sorted[i] in sorted;
      assert sorted[..i + 1] == sorted[..i] + [sorted[i]];
      if Matches(graph.o, graph.nodes[sorted[i]], labels, expected) {
        AppendIncreasing(sorted, i, ids);
        ids := ids + [sorted[i]];
      }
    }
    assert sorted[..|sorted|] == sorted;
    IncreasingIsSorted(ids, found);
  }

  lemma AppendIncreasing(sorted: seq<Id>, i: nat, ids: seq<Id>)
    requires Increasing(sorted) && i < |sorted| && Increasing(ids) && forall x | x in ids :: x in sorted[..i]
    ensures Increasing(ids + [sorted[i]])
  {
    forall j | 0 <= j < |ids| ensures Less(ids[j], sorted[i]) {
      assert ids[j] in sorted[..i];
    }
  }

  lemma LabelIndexHolds(graph: MemoryGraph, labels: seq<string>, expected: map<string, PropValue>, l: string)
    requires graph.Valid() && l in labels && l in graph.labels
    ensures MatchingIds(graph.o, graph.nodes, labels, expected) <= graph.labels[l] <= graph.nodes.Keys
  {
    assert graph.labels[l] == Get(graph.labels, l);
  }

  lemma PropertyIndexHolds(graph: MemoryGraph, labels: seq<string>, expected: map<string, PropValue>, k: string)
    requires graph.Valid() && Lookable(graph.o, expected)
    requires k in expected && expected[k] != Nil && !graph.o.skipped(expected[k])
    requires k in graph.properties && graph.o.key(expected[k]) in graph.properties[k]
    ensures MatchingIds(graph.o, graph.nodes, labels, expected) <= graph.properties[k][graph.o.key(expected[k])] <= graph.nodes.Keys
  {
    var v := expected[k];
    assert Exact(v);
    var index := Lookup(graph.properties, k, graph.o.key(v));
    forall n | n in MatchingIds(graph.o, graph.nodes, labels, expected) ensures n in index {
      assert graph.o.equal(PropertyOf(graph.nodes[n], k), v);
      assert Holds(graph.nodes[n], k, v);
    }
    forall n | n in index ensures n in graph.nodes { }
  }

  lemma NilMatchesNothing(graph: MemoryGraph, labels: seq<string>, expected: map<string, PropValue>, k: string)
    requires k in expected && expected[k] == Nil
    ensures MatchingIds(graph.o, graph.nodes, labels, expected) == {} && SortedIds({}) == [] && Nil in expected.Values
    ensures Inside(MatchingIds(graph.o, graph.nodes, labels, expected), Some({})) == {}
  {
    assert MatchingIds(graph.o, graph.nodes, labels, expected) == {};
  }

  /** Through a single entry, nothing is lost exactly if every match has the key. */
  lemma SingleLookupIff(graph: MemoryGraph, k: string, v: PropValue, indexed: Option<set<Id>>)
    requires graph.Valid() && graph.Full() && v != Nil && !graph.o.skipped(v)
    requires IsSmallest(indexed, AllEntries(graph, [], map[k := v]))
    ensures var found := MatchingIds(graph.o, graph.nodes, [], map[k := v]);
            SortedIds(Inside(found, indexed)) == SortedIds(found)
            <==> !HasEntry(graph, k, v) || forall n | n in found :: (k, graph.o.key(v)) in Entries(graph.o, graph.nodes[n])
  {
    hide LabelsAgree, PropertiesAgree, SoundValues, AdjacencyAgrees, Entries, SortedIds, Matches;
    var expected := map[k := v];
    var found := MatchingIds(graph.o, graph.nodes, [], expected);
    assert LabelEntries(graph, []) == {};
    if HasEntry(graph, k, v) {
      assert k in expected.Keys && expected[k] == v;
      assert PropertyEntries(graph, expected, expected.Keys) == {EntryOf(graph, k, v)};
      assert indexed == Some(EntryOf(graph, k, v));
      forall n | n in found ensures n in indexed.value <==> (k, graph.o.key(v)) in Entries(graph.o, graph.nodes[n]) {
        assert n in Lookup(graph.properties, k, graph.o.key(v)) <==> InEntries(Entries(graph.o, graph.nodes[n]), k, graph.o.key(v));
      }
      SameSorted(Inside(found, indexed), found);
    } else {
      assert AllEntries(graph, [], expected) == {};
    }
  }

  lemma SameSorted(a: set<Id>, b: set<Id>)
    ensures SortedIds(a) == SortedIds(b) <==> a == b
  {
    SortedHolds(a);
    SortedHolds(b);
    hide SortedIds;
    if SortedIds(a) == SortedIds(b) {
      forall x ensures x in a <==> x in b { assert x in SortedIds(a) <==> x in SortedIds(b); }
    }
  }

  // ---- adjacency ----

  predicate PairLess(a: Adjacent, b: Adjacent) {
    if a.edge == b.edge then Less(a.next, b.next) else Less(a.edge, b.edge)
  }

  function InsertPair(s: seq<Adjacent>, x: Adjacent): seq<Adjacent> {
    if s == [] || PairLess(x, s[0]) then [x] + s else [s[0]] + InsertPair(s[1..], x)
  }

  /** sort.SliceStable by edge, then by the node it leads to. */
  function SortPairs(s: seq<Adjacent>): seq<Adjacent> {
    if s == [] then [] else InsertPair(SortPairs(s[..|s| - 1]), s[|s| - 1])
  }

  ghost predicate PairsSorted(s: seq<Adjacent>) {
    forall i, j | 0 <= i < j < |s| :: !PairLess(s[j], s[i])
  }

  lemma PairOrder(a: Adjacent, b: Adjacent, c: Adjacent)
    ensures PairLess(a, b) ==> !PairLess(b, a)
    ensures !PairLess(b, a) && !PairLess(c, b) ==> !PairLess(c, a)
  {
    CompareFlips(a.edge, b.edge); CompareFlips(b.edge, c.edge); CompareFlips(a.edge, c.edge);
    CompareFlips(a.next, b.next); CompareFlips(b.next, c.next); CompareFlips(a.next, c.next);
    CompareEqual(a.edge, b.edge); CompareEqual(b.edge, c.edge); CompareEqual(a.edge, c.edge);
    if Compare(a.edge, b.edge) <= 0 && Compare(b.edge, c.edge) <= 0 { CompareTransitive(a.edge, b.edge, c.edge); }
    if Compare(a.next, b.next) <= 0 && Compare(b.next, c.next) <= 0 { CompareTransitive(a.next, b.next, c.next); }
  }

  lemma {:induction false} InsertPairHolds(s: seq<Adjacent>, x: Adjacent)
    requires PairsSorted(s)
    ensures PairsSorted(InsertPair(s, x))
    ensures forall y :: y in InsertPair(s, x) <==> y in s || y == x
  {
    hide PairLess;
    if s != [] {
      PairOrder(x, s[0], x);
      if PairLess(x, s[0]) {
        var all := [x] + s;
        forall i, j | 0 <= i < j < |all| ensures !PairLess(all[j], all[i]) {
          if i > 0 { assert !PairLess(s[j - 1], s[i - 1]); } else if j > 1 { assert !PairLess(s[j - 1], s[0]); PairOrder(x, s[0], s[j - 1]); }
        }
      } else {
        InsertPairHolds(s[1..], x);
        var rest := InsertPair(s[1..], x);
        forall j | 0 <= j < |rest| ensures !PairLess(rest[j], s[0]) {
          assert rest[j] in rest;
          if rest[j] != x {
            var k :| 0 <= k < |s[1..]| && s[1..][k] == rest[j];
            assert !PairLess(s[k + 1], s[0]);
          }
        }
        SortedCons(s[0], rest);
      }
    }
  }

  lemma SortedCons(x: Adjacent, rest: seq<Adjacent>)
    requires PairsSorted(rest) && forall j | 0 <= j < |rest| :: !PairLess(rest[j], x)
    ensures PairsSorted([x] + rest)
  {
    var all := [x] + rest;
    forall i, j | 0 <= i < j < |all| ensures !PairLess(all[j], all[i]) {
      if i > 0 { assert !PairLess(rest[j - 1], rest[i - 1]); } else { assert all[j] == rest[j - 1]; }
    }
  }

  lemma {:induction false} SortPairsHolds(s: seq<Adjacent>)
    ensures PairsSorted(SortPairs(s))
    ensures forall y :: y in SortPairs(s) <==> y in s
  {
    if s != [] {
      SortPairsHolds(s[..|s| - 1]);
      InsertPairHolds(SortPairs(s[..|s| - 1]), s[|s| - 1]);
      assert s == s[..|s| - 1] + [s[|s| - 1]];
    }
  }

  function Edges(s: seq<Adjacent>): (ids: seq<Id>)
    ensures |ids| == |s| && forall i | 0 <= i < |s| :: ids[i] == s[i].edge
  {
    if s == [] then [] else [s[0].edge] + Edges(s[1..])
  }

  /** The pair of an edge at a node is determined by the edge. */
  ghost predicate PairsOf(g: Graph, a: Id, d: Direction, s: seq<Adjacent>) {
    forall x | x in s :: PairOf(g, a, d, x)
  }

  predicate PairOf(g: Graph, a: Id, d: Direction, x: Adjacent) {
    x.edge in g.edges && Leaves(g.edges[x.edge], d, a) && x.next == Next(g.edges[x.edge], d, a)
  }

  /** Dropping a pair equal to its predecessor. */
  method Unique(ghost g: Graph, a: Id, d: Direction, s: seq<Adjacent>) returns (unique: seq<Adjacent>)
    requires PairsSorted(s) && PairsOf(g, a, d, s)
    ensures forall x :: x in unique <==> x in s
    ensures Increasing(Edges(unique))
  {
    hide PairLess, PairOf;
    unique := [];
    for i := 0 to |s|
      invariant forall x :: x in unique <==> x in s[..i]
      invariant Increasing(Edges(unique))
      invariant i == 0 ==> unique == []
      invariant i > 0 ==> unique != [] && unique[|unique| - 1] == s[i - 1]
    {
      assert s[..i + 1] == s[..i] + [s[i]];
      assert s[i] in s;
      if |unique| > 0 && unique[|unique| - 1] == s[i] { continue; }
      if i > 0 { LaterEdge(g, a, d, s, i); }
      IncreasingAppend(Edges(unique), s[i].edge);
      EdgesAppend(unique, s[i]);
      unique := unique + [s[i]];
    }
    assert s[..|s|] == s;
  }

  lemma LaterEdge(g: Graph, a: Id, d: Direction, s: seq<Adjacent>, i: nat)
    requires PairsSorted(s) && PairsOf(g, a, d, s) && 0 < i < |s| && s[i - 1] != s[i]
    ensures Less(s[i - 1].edge, s[i].edge)
  {
    assert s[i - 1] in s && s[i] in s;
    assert PairOf(g, a, d, s[i - 1]) && PairOf(g, a, d, s[i]);
    assert !PairLess(s[i], s[i - 1]);
    CompareFlips(s[i - 1].edge, s[i].edge);
    CompareEqual(s[i - 1].edge, s[i].edge);
  }

  lemma IncreasingAppend(ids: seq<Id>, x: Id)
    requires Increasing(ids) && (ids != [] ==> Less(ids[|ids| - 1], x))
    ensures Increasing(ids + [x])
  {
    hide Less;
    forall i | 0 <= i < |ids| ensures Less(ids[i], x) {
      if i < |ids| - 1 { LessTransitive(ids[i], ids[|ids| - 1], x); }
    }
  }

  lemma LessTransitive(a: Id, b: Id, c: Id)
    requires Less(a, b) && Less(b, c)
    ensures Less(a, c)
  {
    CompareTransitive(a, b, c);
  }

  method AdjacentPairs(graph: MemoryGraph, a: Id, d: Direction) returns (pairs: seq<Adjacent>)
    requires graph.Valid()
    ensures pairs == AdjacentEdges(graph.Plain(), a, d)
  {
    var out := OutgoingPairs(graph, a, d);
    var into := IncomingPairs(graph, a, d);
    hide LabelsAgree, PropertiesAgree, SoundValues, AdjacencyAgrees;
    SortPairsHolds(out + into);
    pairs := Unique(graph.Plain(), a, d, SortPairs(out + into));
    forall e ensures e in Edges(out + into) <==> e in LeavingIds(graph.Plain(), a, d) {
      EdgesHold(out + into, e);
      EdgesHold(out, e);
      EdgesHold(into, e);
    }
    SamePairs(graph.Plain(), a, d, out + into, pairs);
  }

  method OutgoingPairs(graph: MemoryGraph, a: Id, d: Direction) returns (all: seq<Adjacent>)
    requires graph.Valid()
    ensures PairsOf(graph.Plain(), a, d, all)
    ensures forall e :: e in Edges(all) <==> d.Forward() && e in graph.edges && graph.edges[e].from == a
  {
    hide LabelsAgree, PropertiesAgree, SoundValues, AdjacencyAgrees;
    AdjacencyHolds(graph.edges, graph.outgoing, graph.incoming);
    all := [];
    if d.Forward() {
      var list := List(graph.outgoing, a);
      assert Elements(list) == OutIds(graph.edges, a);
      for i := 0 to |list|
        invariant PairsOf(graph.Plain(), a, d, all) && forall e :: e in Edges(all) <==> e in list[..i]
      {
        assert list[i] in Elements(list);
        EdgesAppend(all, Adjacent(list[i], graph.edges[list[i]].to));
        all := all + [Adjacent(list[i], graph.edges[list[i]].to)];
      }
      assert list[..|list|] == list;
      forall e ensures e in list <==> e in OutIds(graph.edges, a) { assert e in list <==> e in Elements(list); }
    }
  }

  method IncomingPairs(graph: MemoryGraph, a: Id, d: Direction) returns (all: seq<Adjacent>)
    requires graph.Valid()
    ensures PairsOf(graph.Plain(), a, d, all)
    ensures forall e :: e in Edges(all) <==> d.Backward() && e in graph.edges && graph.edges[e].to == a
  {
    hide LabelsAgree, PropertiesAgree, SoundValues, AdjacencyAgrees;
    AdjacencyHolds(graph.edges, graph.outgoing, graph.incoming);
    all := [];
    if d.Backward() {
      var list := List(graph.incoming, a);
      assert Elements(list) == InIds(graph.edges, a);
      for i := 0 to |list|
        invariant PairsOf(graph.Plain(), a, d, all) && forall e :: e in Edges(all) <==> e in list[..i]
      {
        assert list[i] in Elements(list);
        EdgesAppend(all, Adjacent(list[i], graph.edges[list[i]].from));
        all := all + [Adjacent(list[i], graph.edges[list[i]].from)];
      }
      assert list[..|list|] == list;
      forall e ensures e in list <==> e in InIds(graph.edges, a) { assert e in list <==> e in Elements(list); }
    }
  }

  lemma EdgesAppend(s: seq<Adjacent>, x: Adjacent)
    ensures Edges(s + [x]) == Edges(s) + [x.edge]
  {
  }

  lemma EdgesHold(s: seq<Adjacent>, e: Id)
    ensures e in Edges(s) <==> exists x :: x in s && x.edge == e
  {
    if e in Edges(s) {
      var i :| 0 <= i < |s| && Edges(s)[i] == e;
      assert s[i] in s;
    }
    if x :| x in s && x.edge == e {
      var i :| 0 <= i < |s| && s[i] == x;
      assert Edges(s)[i] == e;
    }
  }

  lemma SamePairs(g: Graph, a: Id, d: Direction, all: seq<Adjacent>, pairs: seq<Adjacent>)
    requires PairsOf(g, a, d, all) && (forall x :: x in pairs <==> x in all) && Increasing(Edges(pairs))
    requires forall e :: e in Edges(all) <==> e in LeavingIds(g, a, d)
    ensures pairs == AdjacentEdges(g, a, d)
  {
    var ids := Edges(pairs);
    forall e ensures e in ids <==> e in LeavingIds(g, a, d) {
      EdgesHold(pairs, e);
      EdgesHold(all, e);
    }
    IncreasingIsSorted(ids, LeavingIds(g, a, d));
    var spec := AdjacentEdges(g, a, d);
    assert |spec| == |pairs|;
    forall i | 0 <= i < |pairs| ensures pairs[i] == spec[i] {
      assert pairs[i] in pairs && PairOf(g, a, d, pairs[i]);
    }
  }
}
