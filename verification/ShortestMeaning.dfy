/** What shortestPath and allShortestPaths give, read off the matches of the pattern. */
module ShortestMeaning {
  import opened Base
  import opened Text
  import opened Sorted
  import opened MatchGraph
  import opened Walks
  import opened ShortestAgreement
  import opened ShortestPattern
  import T = Trails
  import M = Matching
  import Mean = MatchMeaning

  /** No path stands before one with a smaller key. */
  predicate InKeyOrder(paths: seq<Path>) {
    forall i, j | 0 <= i < j < |paths| :: !Less(Key(paths[j].edges), Key(paths[i].edges))
  }

  lemma LessIsOrder(a: string, b: string, c: string)
    ensures Less(a, b) ==> !Less(b, a)
    ensures !Less(b, a) && !Less(c, b) ==> !Less(c, a)
    ensures Less(a, b) && !Less(c, b) ==> !Less(c, a)
  {
    CompareFlips(a, b);
    CompareFlips(b, c);
    CompareFlips(a, c);
    if Compare(a, b) <= 0 && Compare(b, c) <= 0 { CompareTransitive(a, b, c); }
    hide Compare;
  }

  lemma {:induction false} InsertInOrder(sorted: seq<Path>, p: Path)
    requires InKeyOrder(sorted)
    ensures InKeyOrder(Insert(sorted, p)) && forall x :: x in Insert(sorted, p) <==> x in sorted || x == p
  {
    hide Less, Key;
    if sorted != [] {
      if Less(Key(p.edges), Key(sorted[0].edges)) {
        forall j | 0 <= j < |sorted| ensures !Less(Key(sorted[j].edges), Key(p.edges)) {
          LessIsOrder(Key(p.edges), Key(sorted[0].edges), Key(sorted[j].edges));
        }
        KeyCons(p, sorted);
      } else {
        InsertInOrder(sorted[1..], p);
        var rest := Insert(sorted[1..], p);
        forall j | 0 <= j < |rest| ensures !Less(Key(rest[j].edges), Key(sorted[0].edges)) {
          assert rest[j] in rest;
          if rest[j] != p { var i :| 0 <= i < |sorted[1..]| && sorted[1..][i] == rest[j]; assert sorted[i + 1] == rest[j]; }
        }
        KeyCons(sorted[0], rest);
        assert sorted == [sorted[0]] + sorted[1..];
      }
    }
  }

  lemma KeyCons(x: Path, rest: seq<Path>)
    requires InKeyOrder(rest) && forall j | 0 <= j < |rest| :: !Less(Key(rest[j].edges), Key(x.edges))
    ensures InKeyOrder([x] + rest)
  {
    hide Less, Key;
    var all := [x] + rest;
    forall i, j | 0 <= i < j < |all| ensures !Less(Key(all[j].edges), Key(all[i].edges)) {
      assert all[j] == rest[j - 1];
      if i > 0 { assert all[i] == rest[i - 1]; }
    }
  }

  lemma {:induction false} SortedInOrder(paths: seq<Path>)
    ensures InKeyOrder(StableSort(paths)) && forall x :: x in StableSort(paths) <==> x in paths
  {
    if paths != [] {
      var (rest, last) := (paths[..|paths| - 1], paths[|paths| - 1]);
      assert paths == rest + [last];
      SortedInOrder(rest);
      InsertInOrder(StableSort(rest), last);
      hide InKeyOrder;
    }
  }

  /** The shortest of the paths, all of them, in the order of their keys. */
  lemma SelectMeans(paths: seq<Path>)
    ensures InKeyOrder(Select(paths)) && forall p :: p in Select(paths) <==> IsShortestOf(paths, p)
  {
    if paths != [] {
      var n := MinLength(paths);
      MinLengthHolds(paths);
      OfLengthHolds([], paths, n);
      SortedInOrder(OfLength(paths, n));
      hide InKeyOrder, StableSort, OfLength, MinLength;
      var least :| least in paths && |least.edges| == n;
      forall p ensures p in Select(paths) <==> IsShortestOf(paths, p) { }
    }
  }

  /** All of them, or one with the least key; nothing if there is no path. */
  lemma ChosenMeans(paths: seq<Path>, all: bool)
    ensures var chosen := Chosen(paths, all);
            && InKeyOrder(chosen)
            && (forall p | p in chosen :: IsShortestOf(paths, p))
            && (all ==> forall p | IsShortestOf(paths, p) :: p in chosen)
            && (!all ==> |chosen| <= 1 && (chosen == [] <==> paths == []))
            && (!all && chosen != [] ==> forall p | IsShortestOf(paths, p) :: !Less(Key(p.edges), Key(chosen[0].edges)))
  {
    hide Select, Key, Less, IsShortestOf;
    SelectMeans(paths);
    var selected := Select(paths);
    if !all && selected != [] {
      assert selected[0] in selected;
      forall p | IsShortestOf(paths, p) ensures !Less(Key(p.edges), Key(selected[0].edges)) {
        var j :| 0 <= j < |selected| && selected[j] == p;
        LessIsOrder(Key(p.edges), Key(p.edges), Key(p.edges));
      }
    }
    SomeShortest(paths);
  }

  lemma SomeShortest(paths: seq<Path>)
    ensures paths != [] <==> exists p :: IsShortestOf(paths, p)
  {
    if paths != [] {
      MinLengthHolds(paths);
      hide MinLength;
      var least :| least in paths && |least.edges| == MinLength(paths);
      assert IsShortestOf(paths, least);
    }
  }

  /** p is the path of a match of the pattern. */
  ghost predicate IsMatchPath(g: Graph, el: T.Element, outer: T.Row, p: Path)
    requires T.WellFormed(el)
  {
    exists n, m :: IsMatchFrom(g, el, outer, n, m) && m.path == p
  }

  ghost predicate IsMatchFrom(g: Graph, el: T.Element, outer: T.Row, n: Id, m: T.Match)
    requires T.WellFormed(el)
  {
    && Mean.StartMeans(g, outer, el.nodes[0], n)
    && exists first :: Mean.Gains(outer, first, el.nodes[0].variable, T.NodeRef(n)) && Mean.MatchMeans(g, el, first, n, m)
  }

  lemma TrailsMean(g: Graph, el: T.Element, outer: T.Row, n: Id, p: Path)
    requires T.WellFormed(el) && |el.rels| == 1 && Mean.StartMeans(g, outer, el.nodes[0], n)
    ensures p in TrailsFrom(g, el, outer, n) <==> exists m :: IsMatchFrom(g, el, outer, n, m) && m.path == p
  {
    var row := StartRow(el, outer, n);
    forall first ensures first == row <==> Mean.Gains(outer, first, el.nodes[0].variable, T.NodeRef(n)) {
      Mean.BindIs(outer, first, el.nodes[0].variable, T.NodeRef(n));
    }
    Mean.EnumeratesMeaning(g, el, row, n);
    PathsOfHolds(GenericFrom(g, el, row, n), p);
    hide Mean.MatchMeans, T.Continue, Mean.Gains, Mean.StartMeans, PathsOf;
  }

  /** The trails that are selected from are the paths of all matches. */
  lemma AllTrailsMean(g: Graph, el: T.Element, outer: T.Row, p: Path)
    requires T.WellFormed(el) && |el.rels| == 1
    ensures p in AllTrails(g, el, outer) <==> IsMatchPath(g, el, outer, p)
  {
    hide M.Candidates, TrailsFrom, IsMatchFrom;
    var starts := M.Candidates(g, outer, el.nodes[0]);
    Mean.CandidatesMean(g, outer, el.nodes[0]);
    var lists := EachStart(g, el, outer, starts);
    ConcatHolds(lists, p);
    forall n | n in starts ensures p in TrailsFrom(g, el, outer, n) <==> exists m :: IsMatchFrom(g, el, outer, n, m) && m.path == p {
      TrailsMean(g, el, outer, n, p);
    }
    if n, m :| IsMatchFrom(g, el, outer, n, m) && m.path == p {
      StartsInside(g, el, outer, n, m);
      var i :| 0 <= i < |starts| && starts[i] == n;
      assert p in lists[i];
    }
    if p in Concat(lists) {
      var i :| 0 <= i < |lists| && p in lists[i];
      assert starts[i] in starts;
    }
  }

  lemma StartsInside(g: Graph, el: T.Element, outer: T.Row, n: Id, m: T.Match)
    requires T.WellFormed(el) && IsMatchFrom(g, el, outer, n, m)
    ensures Mean.StartMeans(g, outer, el.nodes[0], n)
  {
  }
}
