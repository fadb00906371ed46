/** shortestPathsFrom: breadth-first search by levels with all predecessors,
    and the reconstruction of paths from them. */
module ShortestPath {
  import opened Base
  import opened Sorted
  import opened MatchGraph
  import opened Walks

  datatype Pred = Pred(from: Id, edge: Id)

  type Levels = map<Id, nat>
  type Preds = map<Id, seq<Pred>>

  // ---- what the levels and predecessors say after d levels ----

  ghost predicate LevelsExact(q: Search, d: nat, levels: Levels) {
    forall n, k: nat :: (n in levels && levels[n] == k) <==> (k <= d && AtLevel(q, n, k))
  }

  ghost predicate IsPred(q: Search, levels: Levels, p: Pred, n: Id) {
    p.from in levels && n in levels && levels[p.from] + 1 == levels[n] && Hop(q, p.from, p.edge, n)
  }

  ghost predicate PredsExact(q: Search, levels: Levels, preds: Preds) {
    && (forall n | n in preds :: n in levels && levels[n] >= 1)
    && (forall n | n in levels && levels[n] >= 1 :: n in preds && NoDup(preds[n]))
    && (forall n, p | n in preds :: p in preds[n] <==> IsPred(q, levels, p, n))
  }

  ghost predicate Explored(q: Search, d: nat, levels: Levels, preds: Preds) {
    q.start in q.graph.nodes && LevelsExact(q, d, levels) && PredsExact(q, levels, preds)
  }

  // ---- reconstruction ----

  /** Predecessors lie strictly below, so following them ends. */
  ghost predicate Descending(levels: Levels, preds: Preds) {
    forall n, p | n in preds && p in preds[n] :: IsBelow(levels, p, n)
  }

  ghost predicate IsBelow(levels: Levels, p: Pred, n: Id) {
    p.from in levels && n in levels && levels[p.from] < levels[n]
  }

  lemma ExploredDescends(q: Search, d: nat, levels: Levels, preds: Preds)
    requires Explored(q, d, levels, preds)
    ensures Descending(levels, preds)
  {
    forall n, p | n in preds && p in preds[n] ensures IsBelow(levels, p, n) {
      assert IsPred(q, levels, p, n);
    }
  }

  function ExtendAll(paths: seq<Path>, e: Id, n: Id): seq<Path> {
    if paths == [] then [] else [Extend(paths[0], e, n)] + ExtendAll(paths[1..], e, n)
  }

  ghost function Height(levels: Levels, n: Id): nat {
    if n in levels then levels[n] else 0
  }

  /** The paths recorded for n: through each predecessor in turn. */
  ghost function PathsTo(start: Id, levels: Levels, preds: Preds, n: Id): seq<Path>
    requires Descending(levels, preds)
    decreases Height(levels, n), 1, 0
  {
    if n == start then [Path([start], [])]
    else if n in preds then PathsThrough(start, levels, preds, n, preds[n])
    else []
  }

  ghost function PathsThrough(start: Id, levels: Levels, preds: Preds, n: Id, ps: seq<Pred>): seq<Path>
    requires Descending(levels, preds) && n in preds && forall p | p in ps :: p in preds[n]
    decreases Height(levels, n), 0, |ps|
  {
    if ps == [] then []
    else
      assert IsBelow(levels, ps[0], n);
      ExtendAll(PathsTo(start, levels, preds, ps[0].from), ps[0].edge, n) + PathsThrough(start, levels, preds, n, ps[1..])
  }

  lemma {:induction false} ExtendAllHolds(paths: seq<Path>, e: Id, n: Id, r: Path)
    ensures r in ExtendAll(paths, e, n) <==> exists p :: p in paths && r == Extend(p, e, n)
  {
    if paths != [] { ExtendAllHolds(paths[1..], e, n, r); }
  }

  lemma {:induction false} ExtendAllOnce(paths: seq<Path>, e: Id, n: Id)
    requires NoDup(paths)
    ensures NoDup(ExtendAll(paths, e, n))
  {
    if paths != [] {
      ExtendAllOnce(paths[1..], e, n);
      var first := Extend(paths[0], e, n);
      ExtendAllHolds(paths[1..], e, n, first);
      forall p | p in paths[1..] ensures first != Extend(p, e, n) {
        assert Extend(p, e, n).nodes[..|p.nodes|] == p.nodes && Extend(p, e, n).edges[..|p.edges|] == p.edges;
        assert first.nodes[..|paths[0].nodes|] == paths[0].nodes && first.edges[..|paths[0].edges|] == paths[0].edges;
      }
      ConsNoDup(first, ExtendAll(paths[1..], e, n));
    }
  }

  lemma ConsNoDup<T>(x: T, s: seq<T>)
    requires NoDup(s) && x !in s
    ensures NoDup([x] + s)
  {
  }

  /** Extending the shortest walks to a predecessor gives the walks through it. */
  lemma ThroughOne(q: Search, k: nat, paths: seq<Path>, n: Id, p: Pred, r: Path)
    requires Hop(q, p.from, p.edge, n)
    requires forall x :: x in paths <==> WalkOf(q, x, p.from, k)
    ensures r in ExtendAll(paths, p.edge, n) <==> WalkOf(q, r, n, k + 1) && Pred(r.nodes[k], r.edges[k]) == p
  {
    ExtendAllHolds(paths, p.edge, n, r);
    if x :| x in paths && r == Extend(x, p.edge, n) {
      ExtendIsWalk(q, x, p.edge, n);
    }
    if WalkOf(q, r, n, k + 1) && Pred(r.nodes[k], r.edges[k]) == p {
      PrefixIsWalk(q, r, k);
      assert Prefix(r, k) in paths;
      assert r == Extend(Prefix(r, k), p.edge, n);
    }
  }

  /** r is a shortest walk to n whose last hop comes from one of the predecessors. */
  ghost predicate Through(q: Search, levels: Levels, ps: seq<Pred>, n: Id, r: Path)
    requires n in levels
  {
    WalkOf(q, r, n, levels[n]) && levels[n] >= 1
    && Pred(r.nodes[levels[n] - 1], r.edges[levels[n] - 1]) in ps
  }

  /** The recorded paths are the shortest walks, each once. */
  lemma {:induction false} PathsToExact(q: Search, d: nat, levels: Levels, preds: Preds, n: Id)
    requires Explored(q, d, levels, preds) && Descending(levels, preds) && n in levels
    ensures forall r :: r in PathsTo(q.start, levels, preds, n) <==> WalkOf(q, r, n, levels[n])
    ensures NoDup(PathsTo(q.start, levels, preds, n))
    decreases levels[n], 1, 0
  {
    StartAtLevelZero(q);
    assert q.start in levels && levels[q.start] == 0;
    assert AtLevel(q, n, levels[n]);
    if n == q.start {
      forall r ensures WalkOf(q, r, n, 0) <==> r == Path([q.start], []) {
        if WalkOf(q, r, n, 0) { assert r.nodes == [q.start] && r.edges == []; }
      }
    } else {
      if levels[n] == 0 { OnlyStartAtZero(q, n); }
      PathsThroughExact(q, d, levels, preds, n, preds[n]);
      forall r | WalkOf(q, r, n, levels[n]) ensures Through(q, levels, preds[n], n, r) {
        LevelBelow(q, r, n, levels[n] - 1);
        assert IsPred(q, levels, Pred(r.nodes[levels[n] - 1], r.edges[levels[n] - 1]), n);
      }
    }
  }

  lemma {:induction false} PathsThroughExact(q: Search, d: nat, levels: Levels, preds: Preds, n: Id, ps: seq<Pred>)
    requires Explored(q, d, levels, preds) && Descending(levels, preds) && n in levels && n in preds && levels[n] >= 1
    requires NoDup(ps) && forall p | p in ps :: p in preds[n]
    ensures forall r :: r in PathsThrough(q.start, levels, preds, n, ps) <==> Through(q, levels, ps, n, r)
    ensures NoDup(PathsThrough(q.start, levels, preds, n, ps))
    decreases levels[n], 0, |ps|
  {
    if ps != [] {
      var p := ps[0];
      assert IsPred(q, levels, p, n);
      PathsThroughExact(q, d, levels, preds, n, ps[1..]);
      var before := PathsTo(q.start, levels, preds, p.from);
      PathsToExact(q, d, levels, preds, p.from);
      hide PathsTo, Explored, IsPred, WalkOf, Hop, ExtendAll;
      forall r ensures r in ExtendAll(before, p.edge, n) <==> Through(q, levels, [p], n, r) {
        ThroughOne(q, levels[p.from], before, n, p, r);
      }
      ExtendAllOnce(before, p.edge, n);
      AppendNoDup(ExtendAll(before, p.edge, n), PathsThrough(q.start, levels, preds, n, ps[1..]));
    }
  }

  // ---- one level ----

  datatype Step = Step(from: Id, edge: Id, next: Id)

  /** The variables of one round of the search. */
  datatype Round = Round(levels: Levels, preds: Preds, next: set<Id>, targets: seq<Id>, completed: seq<Path>)

  predicate IsHop(q: Search, s: Step) {
    Hop(q, s.from, s.edge, s.next)
  }

  ghost predicate Found(q: Search, done: seq<Step>, n: Id) {
    exists s :: s in done && IsHop(q, s) && s.next == n
  }

  /** n is first reached in this round. */
  ghost predicate New(q: Search, levels0: Levels, done: seq<Step>, n: Id) {
    n !in levels0 && Found(q, done, n)
  }

  ghost predicate MidLevels(q: Search, levels0: Levels, depth: nat, done: seq<Step>, r: Round) {
    && (forall n | n in levels0 :: n in r.levels && r.levels[n] == levels0[n])
    && (forall n | n !in levels0 :: n in r.levels <==> Found(q, done, n))
    && (forall n | n in r.levels && n !in levels0 :: r.levels[n] == depth)
    && (forall n :: n in r.next <==> New(q, levels0, done, n))
    && (forall n :: n in r.targets <==> New(q, levels0, done, n) && q.targetOk(n))
  }

  ghost predicate MidPreds(q: Search, levels0: Levels, preds0: Preds, done: seq<Step>, r: Round) {
    && (forall n | n in preds0 :: n in r.preds && r.preds[n] == preds0[n])
    && (forall n | n !in preds0 :: n in r.preds <==> New(q, levels0, done, n))
    && (forall n, p | n in r.preds && n !in preds0 ::
          p in r.preds[n] <==> Step(p.from, p.edge, n) in done && IsHop(q, Step(p.from, p.edge, n)))
    && (forall n | n in r.preds && n !in preds0 :: NoDup(r.preds[n]))
  }

  /** What closing a trail at the start through s yields. */
  function Closing(q: Search, prefixes: seq<Path>, e: Id): seq<Path> {
    if prefixes == [] then []
    else (if e in prefixes[0].edges then [] else [Extend(prefixes[0], e, q.start)]) + Closing(q, prefixes[1..], e)
  }

  lemma ExtendInjective(p: Path, r: Path, e: Id, f: Id, n: Id)
    requires Extend(p, e, n) == Extend(r, f, n)
    ensures p == r && e == f
  {
    var x := Extend(p, e, n);
    assert x.nodes[..|x.nodes| - 1] == p.nodes && x.nodes[..|x.nodes| - 1] == r.nodes;
    assert x.edges[..|x.edges| - 1] == p.edges && x.edges[..|x.edges| - 1] == r.edges;
    assert x.edges[|x.edges| - 1] == e && x.edges[|x.edges| - 1] == f;
  }

  lemma {:induction false} ClosingHolds(q: Search, prefixes: seq<Path>, e: Id)
    ensures forall r :: r in Closing(q, prefixes, e) <==> exists p :: p in prefixes && e !in p.edges && r == Extend(p, e, q.start)
    ensures NoDup(prefixes) ==> NoDup(Closing(q, prefixes, e))
  {
    if prefixes != [] {
      ClosingHolds(q, prefixes[1..], e);
      if NoDup(prefixes) && e !in prefixes[0].edges {
        var first := Extend(prefixes[0], e, q.start);
        forall p | p in prefixes[1..] ensures first != Extend(p, e, q.start) {
          if first == Extend(p, e, q.start) { ExtendInjective(prefixes[0], p, e, e, q.start); }
        }
        ConsNoDup(first, Closing(q, prefixes[1..], e));
      }
    }
  }

  ghost predicate ClosesBy(q: Search, levels0: Levels, preds0: Preds, s: Step, p: Path, r: Path)
    requires Descending(levels0, preds0)
  {
    && IsHop(q, s) && s.next == q.start
    && p in PathsTo(q.start, levels0, preds0, s.from)
    && s.edge !in p.edges && r == Extend(p, s.edge, q.start)
  }

  ghost predicate MidCompleted(q: Search, levels0: Levels, preds0: Preds, done: seq<Step>, r: Round)
    requires Descending(levels0, preds0)
  {
    && NoDup(r.completed)
    && (forall x | x in r.completed :: q.targetOk(q.start) && exists s, p :: s in done && ClosesBy(q, levels0, preds0, s, p, x))
    && (q.targetOk(q.start) ==>
          forall s, p, x | s in done && ClosesBy(q, levels0, preds0, s, p, x) :: x in r.completed)
  }

  ghost predicate Mid(q: Search, levels0: Levels, preds0: Preds, depth: nat, done: seq<Step>, r: Round) {
    && depth >= 1 && Explored(q, depth - 1, levels0, preds0) && Descending(levels0, preds0)
    && NoDup(done) && (forall s | s in done :: FromFrontier(levels0, depth, s))
    && MidLevels(q, levels0, depth, done, r) && MidPreds(q, levels0, preds0, done, r)
    && MidCompleted(q, levels0, preds0, done, r)
  }

  lemma MidIs(q: Search, levels0: Levels, preds0: Preds, depth: nat, done: seq<Step>, r: Round)
    ensures Mid(q, levels0, preds0, depth, done, r) <==>
            && depth >= 1 && Explored(q, depth - 1, levels0, preds0) && Descending(levels0, preds0)
            && NoDup(done) && (forall s | s in done :: FromFrontier(levels0, depth, s))
            && MidLevels(q, levels0, depth, done, r) && MidPreds(q, levels0, preds0, done, r)
            && MidCompleted(q, levels0, preds0, done, r)
  {
    hide Explored, Descending, NoDup, FromFrontier, MidLevels, MidPreds, MidCompleted;
  }

  /** Completing trails touches neither levels nor predecessors. */
  lemma OnlyCompleted(q: Search, levels0: Levels, preds0: Preds, depth: nat, done: seq<Step>, r: Round,
          completed: seq<Path>)
    requires MidLevels(q, levels0, depth, done, r) && MidPreds(q, levels0, preds0, done, r)
    ensures MidLevels(q, levels0, depth, done, r.(completed := completed)) && MidPreds(q, levels0, preds0, done, r.(completed := completed))
  {
    hide Found, New, IsHop, NoDup;
  }

  predicate FromFrontier(levels0: Levels, depth: nat, s: Step) {
    s.from in levels0 && levels0[s.from] + 1 == depth
  }

  lemma MidDescends(q: Search, levels0: Levels, preds0: Preds, depth: nat, done: seq<Step>, r: Round)
    requires Mid(q, levels0, preds0, depth, done, r)
    ensures Descending(r.levels, r.preds)
  {
    forall n, p | n in r.preds && p in r.preds[n] ensures IsBelow(r.levels, p, n) {
      if n in preds0 {
        assert IsBelow(levels0, p, n);
      } else {
        assert FromFrontier(levels0, depth, Step(p.from, p.edge, n));
      }
    }
  }

  /** Recorded paths below the new level do not change during a round. */
  lemma {:induction false} PathsStay(start: Id, levels0: Levels, preds0: Preds, levels: Levels, preds: Preds, n: Id)
    requires Descending(levels0, preds0) && Descending(levels, preds) && n in levels0
    requires forall m | m in preds0 :: m in preds && preds[m] == preds0[m]
    requires forall m | m in levels0 :: m in preds ==> m in preds0
    ensures PathsTo(start, levels, preds, n) == PathsTo(start, levels0, preds0, n)
    decreases levels0[n], 1, 0
  {
    if n != start && n in preds0 { PathsThroughStay(start, levels0, preds0, levels, preds, n, preds0[n]); }
  }

  lemma {:induction false} PathsThroughStay(start: Id, levels0: Levels, preds0: Preds, levels: Levels, preds: Preds,
          n: Id, ps: seq<Pred>)
    requires Descending(levels0, preds0) && Descending(levels, preds) && n in levels0 && n in preds0
    requires forall m | m in preds0 :: m in preds && preds[m] == preds0[m]
    requires forall m | m in levels0 :: m in preds ==> m in preds0
    requires forall p | p in ps :: p in preds0[n]
    ensures PathsThrough(start, levels, preds, n, ps) == PathsThrough(start, levels0, preds0, n, ps)
    decreases levels0[n], 0, |ps|
  {
    if ps != [] {
      assert IsBelow(levels0, ps[0], n);
      PathsStay(start, levels0, preds0, levels, preds, ps[0].from);
      PathsThroughStay(start, levels0, preds0, levels, preds, n, ps[1..]);
    }
  }

  // ---- the branches of the inner loop ----

  lemma FoundMore(q: Search, done: seq<Step>, s: Step, n: Id)
    ensures Found(q, done + [s], n) <==> Found(q, done, n) || (IsHop(q, s) && s.next == n)
  {
    if Found(q, done, n) {
      var x :| x in done && IsHop(q, x) && x.next == n;
      assert x in done + [s];
    }
    if IsHop(q, s) && s.next == n { assert s in done + [s]; }
  }

  lemma NewMore(q: Search, levels0: Levels, done: seq<Step>, s: Step, n: Id)
    ensures New(q, levels0, done + [s], n) <==> New(q, levels0, done, n) || (IsHop(q, s) && s.next == n && n !in levels0)
  {
    FoundMore(q, done, s, n);
  }

  /** A step that is no hop, or leads to a level already known, finds nothing new. */
  lemma SkipLevels(q: Search, levels0: Levels, depth: nat, done: seq<Step>, r: Round, s: Step)
    requires MidLevels(q, levels0, depth, done, r) && (!IsHop(q, s) || s.next in levels0)
    ensures MidLevels(q, levels0, depth, done + [s], r)
  {
    hide IsHop, Found;
    forall n ensures New(q, levels0, done + [s], n) <==> New(q, levels0, done, n) { NewMore(q, levels0, done, s, n); }
    forall n | n !in levels0 ensures Found(q, done + [s], n) <==> Found(q, done, n) { FoundMore(q, done, s, n); }
  }

  lemma SkipPreds(q: Search, levels0: Levels, preds0: Preds, done: seq<Step>, r: Round, s: Step)
    requires MidPreds(q, levels0, preds0, done, r) && (!IsHop(q, s) || s.next in levels0)
    ensures MidPreds(q, levels0, preds0, done + [s], r)
  {
    hide IsHop, Found;
    forall n ensures New(q, levels0, done + [s], n) <==> New(q, levels0, done, n) { NewMore(q, levels0, done, s, n); }
    forall n, p: Pred | n in r.preds && n !in preds0
      ensures (Step(p.from, p.edge, n) in done + [s] && IsHop(q, Step(p.from, p.edge, n))) <==>
              (Step(p.from, p.edge, n) in done && IsHop(q, Step(p.from, p.edge, n)))
    {
      assert New(q, levels0, done, n);
    }
  }

  lemma SkipCompleted(q: Search, levels0: Levels, preds0: Preds, done: seq<Step>, r: Round, s: Step, r': Round)
    requires Descending(levels0, preds0) && MidCompleted(q, levels0, preds0, done, r) && r'.completed == r.completed
    requires !IsHop(q, s) || s.next != q.start || !q.targetOk(q.start)
    ensures MidCompleted(q, levels0, preds0, done + [s], r')
  {
    hide Hop, PathsTo, NoDup;
    forall x | x in r'.completed ensures exists t, p :: t in done + [s] && ClosesBy(q, levels0, preds0, t, p, x) {
      var t, p :| t in done && ClosesBy(q, levels0, preds0, t, p, x);
      assert t in done + [s];
    }
  }

  /** The closing branch: every prefix that does not use the edge yet. */
  lemma CloseCompleted(q: Search, levels0: Levels, preds0: Preds, done: seq<Step>, r: Round, s: Step, r': Round)
    requires Descending(levels0, preds0) && MidCompleted(q, levels0, preds0, done, r) && s !in done
    requires IsHop(q, s) && s.next == q.start && q.targetOk(q.start)
    requires NoDup(PathsTo(q.start, levels0, preds0, s.from))
    requires forall p | p in PathsTo(q.start, levels0, preds0, s.from) :: Shaped(p) && End(p) == s.from
    requires forall t, p | t in done && p in PathsTo(q.start, levels0, preds0, t.from) :: Shaped(p) && End(p) == t.from
    requires r'.completed == r.completed + Closing(q, PathsTo(q.start, levels0, preds0, s.from), s.edge)
    ensures MidCompleted(q, levels0, preds0, done + [s], r')
  {
    hide Hop, PathsTo;
    var prefixes := PathsTo(q.start, levels0, preds0, s.from);
    var added := Closing(q, prefixes, s.edge);
    ClosingHolds(q, prefixes, s.edge);
    forall x | x in r.completed ensures x !in added {
      var t, p :| t in done && ClosesBy(q, levels0, preds0, t, p, x);
      forall y | y in prefixes ensures x != Extend(y, s.edge, q.start) {
        if x == Extend(y, s.edge, q.start) {
          ExtendInjective(p, y, t.edge, s.edge, q.start);
        }
      }
    }
    AppendNoDup(r.completed, added);
    forall x | x in r'.completed ensures exists t, p :: t in done + [s] && ClosesBy(q, levels0, preds0, t, p, x) {
      if x in r.completed {
        var t, p :| t in done && ClosesBy(q, levels0, preds0, t, p, x);
        assert t in done + [s];
      } else {
        var p :| p in prefixes && s.edge !in p.edges && x == Extend(p, s.edge, q.start);
        assert s in done + [s] && ClosesBy(q, levels0, preds0, s, p, x);
      }
    }
  }

  /** The branch that reaches a node of the new level, first or again. */
  lemma AddLevels(q: Search, levels0: Levels, depth: nat, done: seq<Step>, r: Round, s: Step, r': Round)
    requires MidLevels(q, levels0, depth, done, r) && IsHop(q, s) && s.next !in levels0
    requires r'.levels == r.levels[s.next := depth] && r'.next == r.next + {s.next}
    requires r'.targets == if q.targetOk(s.next) then r.targets + [s.next] else r.targets
    ensures MidLevels(q, levels0, depth, done + [s], r')
  {
    hide IsHop, Found;
    forall n ensures New(q, levels0, done + [s], n) <==> New(q, levels0, done, n) || n == s.next { NewMore(q, levels0, done, s, n); }
    forall n | n !in levels0 ensures Found(q, done + [s], n) <==> Found(q, done, n) || n == s.next { FoundMore(q, done, s, n); }
  }

  lemma AddPreds(q: Search, levels0: Levels, preds0: Preds, done: seq<Step>, r: Round, s: Step, r': Round)
    requires MidPreds(q, levels0, preds0, done, r) && s !in done && IsHop(q, s) && s.next !in levels0 && s.next !in preds0
    requires r'.preds == r.preds[s.next := (if s.next in r.preds then r.preds[s.next] else []) + [Pred(s.from, s.edge)]]
    ensures MidPreds(q, levels0, preds0, done + [s], r')
  {
    hide Hop, Found;
    forall n ensures New(q, levels0, done + [s], n) <==> New(q, levels0, done, n) || n == s.next { NewMore(q, levels0, done, s, n); }
    forall n, p: Pred | n in r'.preds && n !in preds0
      ensures p in r'.preds[n] <==> Step(p.from, p.edge, n) in done + [s] && IsHop(q, Step(p.from, p.edge, n))
    {
      assert Step(p.from, p.edge, n) in done + [s] <==> Step(p.from, p.edge, n) in done || Step(p.from, p.edge, n) == s;
      if n == s.next && n !in r.preds {
        assert !New(q, levels0, done, n);
        NotFoundYet(q, done, Step(p.from, p.edge, n));
      }
    }
    forall n | n in r'.preds && n !in preds0 ensures NoDup(r'.preds[n]) {
      if n == s.next && n in r.preds { AppendNoDup(r.preds[n], [Pred(s.from, s.edge)]); }
    }
  }

  lemma NotFoundYet(q: Search, done: seq<Step>, s: Step)
    ensures s in done && IsHop(q, s) ==> Found(q, done, s.next)
  {
  }

  // ---- a finished round ----

  ghost predicate AllSteps(q: Search, levels0: Levels, depth: nat, done: seq<Step>) {
    forall s :: s in done <==>
      FromFrontier(levels0, depth, s) && Adjacent(s.edge, s.next) in AdjacentEdges(q.graph, s.from, q.direction)
  }

  lemma HopIsDone(q: Search, levels0: Levels, depth: nat, done: seq<Step>, s: Step)
    requires AllSteps(q, levels0, depth, done) && IsHop(q, s) && FromFrontier(levels0, depth, s)
    ensures s in done
  {
    AdjacentConnects(q.graph, s.from, q.direction, s.edge, s.next);
  }

  lemma KnownBelow(q: Search, levels0: Levels, preds0: Preds, depth: nat, n: Id)
    requires depth >= 1 && Explored(q, depth - 1, levels0, preds0)
    ensures n in levels0 ==> AtLevel(q, n, levels0[n]) && levels0[n] < depth
    ensures forall k: nat :: k < depth && AtLevel(q, n, k) ==> n in levels0 && levels0[n] == k
  {
    if n in levels0 { assert AtLevel(q, n, levels0[n]); }
  }

  lemma FoundIsNextLevel(q: Search, levels0: Levels, preds0: Preds, depth: nat, s: Step)
    requires depth >= 1 && Explored(q, depth - 1, levels0, preds0) && FromFrontier(levels0, depth, s)
    requires IsHop(q, s) && s.next !in levels0
    ensures AtLevel(q, s.next, depth)
  {
    KnownBelow(q, levels0, preds0, depth, s.next);
    KnownBelow(q, levels0, preds0, depth, s.from);
    hide Explored, AtLevel;
    HopLevel(q, s.from, s.edge, s.next, depth - 1);
    var k := HasLevel(q, s.next, depth);
  }

  lemma NextLevelIsFound(q: Search, levels0: Levels, preds0: Preds, depth: nat, done: seq<Step>, n: Id)
    requires depth >= 1 && Explored(q, depth - 1, levels0, preds0) && AllSteps(q, levels0, depth, done)
    requires AtLevel(q, n, depth)
    ensures New(q, levels0, done, n)
  {
    var p :| WalkOf(q, p, n, depth);
    var m := p.nodes[depth - 1];
    LevelBelow(q, p, n, depth - 1);
    KnownBelow(q, levels0, preds0, depth, m);
    KnownBelow(q, levels0, preds0, depth, n);
    hide Explored, WalkOf;
    var s := Step(m, p.edges[depth - 1], n);
    HopIsDone(q, levels0, depth, done, s);
    assert Found(q, done, n);
    if n in levels0 { LevelIsUnique(q, n, depth, levels0[n]); }
  }

  lemma NewIsNextLevel(q: Search, levels0: Levels, preds0: Preds, depth: nat, done: seq<Step>, n: Id)
    requires depth >= 1 && Explored(q, depth - 1, levels0, preds0) && AllSteps(q, levels0, depth, done)
    ensures New(q, levels0, done, n) <==> AtLevel(q, n, depth)
  {
    hide Explored, AtLevel, IsHop;
    if New(q, levels0, done, n) {
      var s :| s in done && IsHop(q, s) && s.next == n;
      FoundIsNextLevel(q, levels0, preds0, depth, s);
    }
    if AtLevel(q, n, depth) { NextLevelIsFound(q, levels0, preds0, depth, done, n); }
  }

  lemma RoundLevels(q: Search, levels0: Levels, preds0: Preds, depth: nat, done: seq<Step>, r: Round)
    requires Mid(q, levels0, preds0, depth, done, r) && AllSteps(q, levels0, depth, done)
    ensures LevelsExact(q, depth, r.levels)
  {
    hide MidPreds, MidCompleted, PredsExact, Descending, AllSteps, Found;
    forall n, k: nat ensures (n in r.levels && r.levels[n] == k) <==> (k <= depth && AtLevel(q, n, k)) {
      NewIsNextLevel(q, levels0, preds0, depth, done, n);
      if n in levels0 && AtLevel(q, n, k) { LevelIsUnique(q, n, k, levels0[n]); }
      if n !in levels0 && AtLevel(q, n, depth) && AtLevel(q, n, k) { LevelIsUnique(q, n, k, depth); }
    }
  }

  lemma LevelsBounded(q: Search, d: nat, levels: Levels)
    requires LevelsExact(q, d, levels)
    ensures forall n | n in levels :: levels[n] <= d
  {
    forall n | n in levels ensures levels[n] <= d {
      assert AtLevel(q, n, levels[n]);
    }
  }

  lemma RoundPreds(q: Search, levels0: Levels, preds0: Preds, depth: nat, done: seq<Step>, r: Round)
    requires Mid(q, levels0, preds0, depth, done, r) && AllSteps(q, levels0, depth, done)
    ensures PredsExact(q, r.levels, r.preds)
  {
    hide MidCompleted, Descending, AtLevel, Found, Hop;
    LevelsBounded(q, depth - 1, levels0);
    forall n, p: Pred | n in r.preds ensures p in r.preds[n] <==> IsPred(q, r.levels, p, n) {
      if n in preds0 {
        assert p in preds0[n] <==> IsPred(q, levels0, p, n);
      } else {
        var s := Step(p.from, p.edge, n);
        assert New(q, levels0, done, n);
        if IsPred(q, r.levels, p, n) { HopIsDone(q, levels0, depth, done, s); }
      }
    }
  }

  /** After a whole round the search has explored one level more. */
  lemma RoundDone(q: Search, levels0: Levels, preds0: Preds, depth: nat, done: seq<Step>, r: Round)
    requires Mid(q, levels0, preds0, depth, done, r) && AllSteps(q, levels0, depth, done)
    ensures Explored(q, depth, r.levels, r.preds)
    ensures forall n :: n in r.next <==> AtLevel(q, n, depth)
    ensures forall n :: n in r.targets <==> AtLevel(q, n, depth) && q.targetOk(n)
  {
    RoundLevels(q, levels0, preds0, depth, done, r);
    RoundPreds(q, levels0, preds0, depth, done, r);
    hide MidPreds, MidCompleted, PredsExact, LevelsExact, Found, AllSteps, AtLevel;
    forall n ensures New(q, levels0, done, n) <==> AtLevel(q, n, depth) {
      NewIsNextLevel(q, levels0, preds0, depth, done, n);
    }
  }

  // ---- the answers ----

  /** The trails the search is about.  In an undirected pattern it never returns
      to its start over three or more relationships. */
  ghost predicate Allowed(q: Search, minimum: nat, maximum: int, p: Path) {
    && IsTrail(q, p) && q.targetOk(End(p))
    && minimum <= |p.edges| <= maximum
    && (q.direction.Directed() || |p.edges| <= 2 || End(p) != q.start)
  }

  ghost predicate IsAnswer(q: Search, minimum: nat, maximum: int, p: Path) {
    Allowed(q, minimum, maximum, p) && forall r | Allowed(q, minimum, maximum, r) :: |p.edges| <= |r.edges|
  }

  /** The search runs its rounds only when the start is no answer by itself. */
  ghost predicate Runs(q: Search, minimum: nat) {
    minimum <= 1 && (minimum == 0 ==> !q.targetOk(q.start)) && q.start in q.graph.nodes
  }

  ghost predicate Tight(q: Search, p: Path) {
    && IsWalk(q, p) && |p.edges| >= 1
    && if End(p) == q.start then AtLevel(q, p.nodes[|p.edges| - 1], |p.edges| - 1)
       else AtLevel(q, End(p), |p.edges|)
  }

  ghost predicate Shorter(q: Search, minimum: nat, maximum: int, r: Path, p: Path) {
    Allowed(q, minimum, maximum, r) && |r.edges| < |p.edges|
  }

  lemma OpenTrailIsTightOrNot(q: Search, minimum: nat, maximum: int, p: Path)
    requires Runs(q, minimum) && Allowed(q, minimum, maximum, p) && End(p) != q.start
    ensures Tight(q, p) || exists r :: Shorter(q, minimum, maximum, r, p)
  {
    var n, L := End(p), |p.edges|;
    assert WalkOf(q, p, n, L);
    var k := HasLevel(q, n, L);
    if k == 0 { OnlyStartAtZero(q, n); }
    if k < L {
      var w :| WalkOf(q, w, n, k);
      ShortestIsTrail(q, w, n, k);
      assert Shorter(q, minimum, maximum, w, p);
    }
  }

  lemma DirectedClosing(q: Search, w: Path, m: Id, k: nat, e: Id)
    requires q.direction.Directed() && AtLevel(q, m, k) && WalkOf(q, w, m, k) && Hop(q, m, e, q.start)
    ensures IsTrail(q, Extend(w, e, q.start))
  {
    ExtendIsWalk(q, w, e, q.start);
    ShortestIsTrail(q, w, m, k);
    forall i | 0 <= i < |w.edges| ensures w.edges[i] != e {
      ShortestClimbs(q, w, m, k, i + 1);
      StartAtLevelZero(q);
      assert Hop(q, w.nodes[i], w.edges[i], w.nodes[i + 1]);
      if w.edges[i] == e {
        SameEdgeSameEnds(q, w.nodes[i], w.nodes[i + 1], m, q.start, e);
        LevelIsUnique(q, q.start, 0, i + 1);
      }
    }
    AppendNoDup(w.edges, [e]);
  }

  lemma ClosedTrailIsTightOrNot(q: Search, minimum: nat, maximum: int, p: Path)
    requires Runs(q, minimum) && Allowed(q, minimum, maximum, p) && End(p) == q.start
    ensures Tight(q, p) || exists r :: Shorter(q, minimum, maximum, r, p)
  {
    var L := |p.edges|;
    var m, e := p.nodes[L - 1], p.edges[L - 1];
    assert Hop(q, p.nodes[L - 1], e, p.nodes[L]);
    PrefixIsWalk(q, p, L - 1);
    var k := HasLevel(q, m, L - 1);
    if k < L - 1 {
      var w :| WalkOf(q, w, m, k);
      var r := Extend(w, e, q.start);
      ExtendIsWalk(q, w, e, q.start);
      if q.direction.Directed() {
        DirectedClosing(q, w, m, k, e);
      } else {
        assert k == 0;
        OnlyStartAtZero(q, m);
      }
      assert Shorter(q, minimum, maximum, r, p);
    }
  }

  /** Below every allowed trail there is one the levels speak about directly. */
  lemma {:induction false} TightBelow(q: Search, minimum: nat, maximum: int, p: Path) returns (r: Path)
    requires Runs(q, minimum) && Allowed(q, minimum, maximum, p)
    ensures Allowed(q, minimum, maximum, r) && |r.edges| <= |p.edges| && Tight(q, r)
    decreases |p.edges|
  {
    if End(p) == q.start { ClosedTrailIsTightOrNot(q, minimum, maximum, p); } else { OpenTrailIsTightOrNot(q, minimum, maximum, p); }
    if Tight(q, p) {
      r := p;
    } else {
      var s :| Shorter(q, minimum, maximum, s, p);
      r := TightBelow(q, minimum, maximum, s);
    }
  }

  ghost predicate NoneUpTo(q: Search, minimum: nat, maximum: int, d: int) {
    forall p | Allowed(q, minimum, maximum, p) :: |p.edges| > d
  }

  /** With no shorter answer, an allowed trail of length d is tight. */
  lemma FirstIsTight(q: Search, minimum: nat, maximum: int, d: nat, p: Path)
    requires Runs(q, minimum) && d >= 1 && NoneUpTo(q, minimum, maximum, d - 1)
    requires Allowed(q, minimum, maximum, p) && |p.edges| == d
    ensures Tight(q, p)
  {
    if End(p) == q.start { ClosedTrailIsTightOrNot(q, minimum, maximum, p); } else { OpenTrailIsTightOrNot(q, minimum, maximum, p); }
  }

  /** With nothing left on the frontier there is no answer at all. */
  lemma EmptyFrontier(q: Search, minimum: nat, maximum: int, last: nat)
    requires Runs(q, minimum) && NoneUpTo(q, minimum, maximum, last)
    requires forall n :: !AtLevel(q, n, last)
    ensures forall p :: !Allowed(q, minimum, maximum, p)
  {
    forall p | Allowed(q, minimum, maximum, p) ensures false {
      var r := TightBelow(q, minimum, maximum, p);
      var L := |r.edges|;
      var n, k := if End(r) == q.start then r.nodes[L - 1] else End(r), if End(r) == q.start then L - 1 else L;
      var w :| WalkOf(q, w, n, k);
      ShortestClimbs(q, w, n, k, last);
    }
  }

  // ---- the answers of the round that stops the search ----

  /** completed, and then the recorded paths of the targets in ID order. */
  ghost function Collected(q: Search, r: Round, targets: seq<Id>): seq<Path>
    requires Descending(r.levels, r.preds)
  {
    if targets == [] then r.completed
    else Collected(q, r, targets[..|targets| - 1]) + PathsTo(q.start, r.levels, r.preds, targets[|targets| - 1])
  }

  ghost predicate ToTarget(q: Search, r: Round, depth: nat, targets: seq<Id>, p: Path) {
    Shaped(p) && End(p) in targets && WalkOf(q, p, End(p), depth)
  }

  lemma {:induction false} CollectedHolds(q: Search, depth: nat, r: Round, targets: seq<Id>)
    requires Explored(q, depth, r.levels, r.preds) && Descending(r.levels, r.preds)
    requires NoDup(targets) && NoDup(r.completed)
    requires forall n | n in targets :: n in r.levels && r.levels[n] == depth
    requires forall p | p in r.completed :: Shaped(p) && End(p) !in targets
    ensures forall p :: p in Collected(q, r, targets) <==> p in r.completed || ToTarget(q, r, depth, targets, p)
    ensures NoDup(Collected(q, r, targets))
  {
    if targets != [] {
      var rest, last := targets[..|targets| - 1], targets[|targets| - 1];
      CollectedHolds(q, depth, r, rest);
      PathsToExact(q, depth, r.levels, r.preds, last);
      hide Explored, Descending, PathsTo, IsWalk;
      assert targets == rest + [last];
      assert last !in rest;
      AppendNoDup(Collected(q, r, rest), PathsTo(q.start, r.levels, r.preds, last));
    }
  }

  lemma ClosedIsAllowed(q: Search, minimum: nat, maximum: int, levels0: Levels, preds0: Preds, depth: nat, s: Step,
          p: Path, x: Path)
    requires Runs(q, minimum) && 1 <= depth <= maximum && q.targetOk(q.start)
    requires Explored(q, depth - 1, levels0, preds0) && Descending(levels0, preds0) && FromFrontier(levels0, depth, s)
    requires ClosesBy(q, levels0, preds0, s, p, x)
    ensures Allowed(q, minimum, maximum, x) && |x.edges| == depth && End(x) == q.start
  {
    PathsToExact(q, depth - 1, levels0, preds0, s.from);
    assert WalkOf(q, p, s.from, depth - 1);
    assert AtLevel(q, s.from, depth - 1);
    ShortestIsTrail(q, p, s.from, depth - 1);
    ExtendIsWalk(q, p, s.edge, q.start);
    AppendNoDup(p.edges, [s.edge]);
    if !q.direction.Directed() {
      StartAtLevelZero(q);
      assert Hop(q, q.start, s.edge, s.from) by { LevelIsInGraph(q, s.from, depth - 1); }
      HopLevel(q, q.start, s.edge, s.from, 0);
    }
  }

  lemma LevelIsInGraph(q: Search, n: Id, d: nat)
    requires AtLevel(q, n, d) && q.start in q.graph.nodes
    ensures n in q.graph.nodes
  {
    var p :| WalkOf(q, p, n, d);
    if d > 0 { assert Hop(q, p.nodes[d - 1], p.edges[d - 1], p.nodes[d]); }
  }

  lemma TargetIsAllowed(q: Search, minimum: nat, maximum: int, depth: nat, n: Id, p: Path)
    requires Runs(q, minimum) && 1 <= depth <= maximum && AtLevel(q, n, depth) && q.targetOk(n) && WalkOf(q, p, n, depth)
    ensures Allowed(q, minimum, maximum, p) && n != q.start
  {
    ShortestIsTrail(q, p, n, depth);
    StartAtLevelZero(q);
  }

  lemma AllowedIsCollected(q: Search, minimum: nat, maximum: int, levels0: Levels, preds0: Preds, depth: nat,
          done: seq<Step>,
                           r: Round, p: Path)
    requires Runs(q, minimum) && Mid(q, levels0, preds0, depth, done, r) && AllSteps(q, levels0, depth, done)
    requires NoneUpTo(q, minimum, maximum, depth - 1) && Allowed(q, minimum, maximum, p) && |p.edges| == depth
    ensures p in r.completed || (AtLevel(q, End(p), depth) && q.targetOk(End(p)))
  {
    FirstIsTight(q, minimum, maximum, depth, p);
    if End(p) == q.start {
      ClosedStep(q, minimum, maximum, levels0, preds0, depth, done, p);
      hide *;
      MidIs(q, levels0, preds0, depth, done, r);
      CompletedHolds(q, minimum, maximum, levels0, preds0, done, r, Step(p.nodes[depth - 1], p.edges[depth - 1], q.start), Prefix(p, depth - 1), p);
    }
  }

  lemma ClosedStep(q: Search, minimum: nat, maximum: int, levels0: Levels, preds0: Preds, depth: nat,
          done: seq<Step>, p: Path)
    requires depth >= 1 && Explored(q, depth - 1, levels0, preds0) && Descending(levels0, preds0) && AllSteps(q, levels0, depth, done)
    requires Allowed(q, minimum, maximum, p) && |p.edges| == depth && End(p) == q.start && Tight(q, p)
    ensures var s := Step(p.nodes[depth - 1], p.edges[depth - 1], q.start);
            s in done && ClosesBy(q, levels0, preds0, s, Prefix(p, depth - 1), p)
  {
    hide AllSteps;
    var m, e := p.nodes[depth - 1], p.edges[depth - 1];
    var s, prefix := Step(m, e, q.start), Prefix(p, depth - 1);
    assert Hop(q, p.nodes[depth - 1], e, p.nodes[depth]);
    PrefixIsWalk(q, p, depth - 1);
    assert m in levels0 && levels0[m] == depth - 1;
    HopIsDone(q, levels0, depth, done, s);
    PathsToExact(q, depth - 1, levels0, preds0, m);
    assert p == Extend(prefix, e, q.start);
  }

  lemma CompletedHolds(q: Search, minimum: nat, maximum: int, levels0: Levels, preds0: Preds, done: seq<Step>,
          r: Round, s: Step, prefix: Path, p: Path)
    requires Descending(levels0, preds0) && MidCompleted(q, levels0, preds0, done, r)
    requires s in done && ClosesBy(q, levels0, preds0, s, prefix, p) && Allowed(q, minimum, maximum, p) && End(p) == q.start
    ensures p in r.completed
  {
    hide ClosesBy, IsTrail;
  }

  /** The round that finds something has found exactly the answers. */
  lemma RoundAnswers(q: Search, minimum: nat, maximum: int, levels0: Levels, preds0: Preds, depth: nat, done: seq<Step>,
                     r: Round, targets: seq<Id>)
    requires Runs(q, minimum) && depth <= maximum
    requires Mid(q, levels0, preds0, depth, done, r) && AllSteps(q, levels0, depth, done)
    requires NoneUpTo(q, minimum, maximum, depth - 1)
    requires Descending(r.levels, r.preds)
    requires NoDup(targets) && forall n :: n in targets <==> n in r.targets
    ensures NoDup(Collected(q, r, targets))
    ensures Collected(q, r, targets) != [] ==>
              forall p :: p in Collected(q, r, targets) <==> IsAnswer(q, minimum, maximum, p)
    ensures Collected(q, r, targets) == [] ==> NoneUpTo(q, minimum, maximum, depth)
  {
    RoundDone(q, levels0, preds0, depth, done, r);
    forall x | x in r.completed ensures Allowed(q, minimum, maximum, x) && |x.edges| == depth && End(x) == q.start {
      var s, p :| s in done && ClosesBy(q, levels0, preds0, s, p, x);
      ClosedIsAllowed(q, minimum, maximum, levels0, preds0, depth, s, p, x);
    }
    forall n, p | n in targets && WalkOf(q, p, n, depth) ensures Allowed(q, minimum, maximum, p) && n != q.start {
      TargetIsAllowed(q, minimum, maximum, depth, n, p);
    }
    forall n | n in targets ensures n in r.levels && r.levels[n] == depth && n != q.start {
      assert AtLevel(q, n, depth);
      var p :| WalkOf(q, p, n, depth);
    }
    CollectedHolds(q, depth, r, targets);
    var all := Collected(q, r, targets);
    forall p ensures p in all <==> Allowed(q, minimum, maximum, p) && |p.edges| == depth {
      if Allowed(q, minimum, maximum, p) && |p.edges| == depth {
        AllowedIsCollected(q, minimum, maximum, levels0, preds0, depth, done, r, p);
        assert WalkOf(q, p, End(p), depth);
      }
    }
    hide Mid, AllSteps, Explored, Allowed, Collected, Runs, ToTarget, Descending;
    OfOneLength(q, minimum, maximum, depth, all);
  }

  lemma OfOneLength(q: Search, minimum: nat, maximum: int, depth: nat, all: seq<Path>)
    requires NoneUpTo(q, minimum, maximum, depth - 1)
    requires forall p :: p in all <==> Allowed(q, minimum, maximum, p) && |p.edges| == depth
    ensures all != [] ==> forall p :: p in all <==> IsAnswer(q, minimum, maximum, p)
    ensures all == [] ==> NoneUpTo(q, minimum, maximum, depth)
  {
    if all != [] { assert all[0] in all; }
  }

  // ---- the program ----

  /** The walk of reconstructShortestPaths from `current` back to the start; the
      reversed nodes and edges are those already passed. */
  method WalkBack(start: Id, ghost levels: Levels, preds: Preds, current: Id, reverseNodes: seq<Id>,
          reverseEdges: seq<Id>)
      returns (paths: seq<Path>)
    requires Descending(levels, preds)
    requires reverseNodes != [] && reverseNodes[|reverseNodes| - 1] == current
    ensures paths == Onward(PathsTo(start, levels, preds, current), reverseNodes, reverseEdges)
    decreases Height(levels, current)
  {
    if current == start {
      paths := [Path(Reverse(reverseNodes), Reverse(reverseEdges))];
      ReverseLast(reverseNodes);
      ghost var here := Path([start], []);
      assert here.edges + Reverse(reverseEdges) == Reverse(reverseEdges);
      assert Onward([here], reverseNodes, reverseEdges) == [Path(here.nodes + Reverse(reverseNodes[..|reverseNodes| - 1]), Reverse(reverseEdges))];
      return;
    }
    paths := [];
    if current !in preds { return; }
    for i := 0 to |preds[current]|
      invariant paths == Onward(PathsThrough(start, levels, preds, current, preds[current][..i]), reverseNodes, reverseEdges)
    {
      var p := preds[current][i];
      assert IsBelow(levels, p, current);
      var more := WalkBack(start, levels, preds, p.from, reverseNodes + [p.from], reverseEdges + [p.edge]);
      ThroughOneMore(start, levels, preds, current, preds[current][..i], p);
      assert preds[current][..i + 1] == preds[current][..i] + [p];
      OnwardStep(PathsTo(start, levels, preds, p.from), p.edge, current, reverseNodes, reverseEdges);
      OnwardAppend(PathsThrough(start, levels, preds, current, preds[current][..i]),
                   ExtendAll(PathsTo(start, levels, preds, p.from), p.edge, current), reverseNodes, reverseEdges);
      paths := paths + more;
    }
    assert preds[current][..|preds[current]|] == preds[current];
  }

  function Reverse<T>(s: seq<T>): seq<T> {
    if s == [] then [] else Reverse(s[1..]) + [s[0]]
  }

  lemma {:induction false} ReverseAppend<T>(s: seq<T>, x: T)
    ensures Reverse(s + [x]) == [x] + Reverse(s)
  {
    if s == [] {
      assert s + [x] == [x];
    } else {
      ReverseAppend(s[1..], x);
      assert (s + [x])[1..] == s[1..] + [x];
    }
  }

  lemma ReverseLast<T>(s: seq<T>)
    requires s != []
    ensures Reverse(s) == [s[|s| - 1]] + Reverse(s[..|s| - 1])
  {
    hide *;
    ReverseAppend(s[..|s| - 1], s[|s| - 1]);
    assert s == s[..|s| - 1] + [s[|s| - 1]];
  }

  /** Paths to the current node, continued by the nodes and edges passed before. */
  ghost function Onward(paths: seq<Path>, reverseNodes: seq<Id>, reverseEdges: seq<Id>): seq<Path>
    requires reverseNodes != []
  {
    if paths == [] then []
    else [Path(paths[0].nodes + Reverse(reverseNodes[..|reverseNodes| - 1]), paths[0].edges + Reverse(reverseEdges))]
         + Onward(paths[1..], reverseNodes, reverseEdges)
  }

  lemma {:induction false} OnwardAppend(a: seq<Path>, b: seq<Path>, reverseNodes: seq<Id>, reverseEdges: seq<Id>)
    requires reverseNodes != []
    ensures Onward(a + b, reverseNodes, reverseEdges) == Onward(a, reverseNodes, reverseEdges) + Onward(b, reverseNodes, reverseEdges)
  {
    if a == [] {
      assert a + b == b;
    } else {
      assert (a + b)[1..] == a[1..] + b;
      OnwardAppend(a[1..], b, reverseNodes, reverseEdges);
    }
  }

  lemma {:induction false} OnwardStep(paths: seq<Path>, e: Id, n: Id, reverseNodes: seq<Id>, reverseEdges: seq<Id>)
    requires reverseNodes != [] && reverseNodes[|reverseNodes| - 1] == n
    ensures forall from: Id :: Onward(paths, reverseNodes + [from], reverseEdges + [e]) ==
                               Onward(ExtendAll(paths, e, n), reverseNodes, reverseEdges)
  {
    if paths != [] {
      OnwardStep(paths[1..], e, n, reverseNodes, reverseEdges);
      ReverseLast(reverseNodes);
      ReverseAppend(reverseEdges, e);
      forall from: Id
        ensures Onward(paths, reverseNodes + [from], reverseEdges + [e]) == Onward(ExtendAll(paths, e, n), reverseNodes, reverseEdges)
      {
        var longer := reverseNodes + [from];
        assert longer[..|longer| - 1] == reverseNodes;
        assert paths[0].nodes + Reverse(reverseNodes) == Extend(paths[0], e, n).nodes + Reverse(reverseNodes[..|reverseNodes| - 1]);
        assert paths[0].edges + ([e] + Reverse(reverseEdges)) == Extend(paths[0], e, n).edges + Reverse(reverseEdges);
      }
    }
  }

  lemma {:induction false} ThroughOneMore(start: Id, levels: Levels, preds: Preds, n: Id, ps: seq<Pred>, p: Pred)
    requires Descending(levels, preds) && n in preds && p in preds[n] && forall x | x in ps :: x in preds[n]
    ensures forall x | x in ps + [p] :: x in preds[n]
    ensures PathsThrough(start, levels, preds, n, ps + [p]) ==
            PathsThrough(start, levels, preds, n, ps) + ExtendAll(PathsTo(start, levels, preds, p.from), p.edge, n)
  {
    if ps == [] {
      assert ps + [p] == [p];
    } else {
      assert (ps + [p])[1..] == ps[1..] + [p];
      ThroughOneMore(start, levels, preds, n, ps[1..], p);
    }
  }

  lemma {:induction false} OnwardNothing(paths: seq<Path>, n: Id)
    ensures Onward(paths, [n], []) == paths
  {
    if paths != [] {
      OnwardNothing(paths[1..], n);
      assert paths[0].nodes + [] == paths[0].nodes && paths[0].edges + [] == paths[0].edges;
    }
  }

  /** The trails that close at the start over this edge. */
  method CloseAt(q: Search, r: Round, current: Id, edge: Id) returns (closed: seq<Path>)
    requires Descending(r.levels, r.preds)
    ensures closed == Closing(q, PathsTo(q.start, r.levels, r.preds, current), edge)
  {
    hide Descending, PathsTo;
    var prefixes := Reconstruct(q.start, r.levels, r.preds, current);
    closed := [];
    for i := 0 to |prefixes|
      invariant closed == Closing(q, prefixes[..i], edge)
    {
      ClosingMore(q, prefixes[..i], prefixes[i], edge);
      assert prefixes[..i + 1] == prefixes[..i] + [prefixes[i]];
      if edge !in prefixes[i].edges {
        closed := closed + [Extend(prefixes[i], edge, q.start)];
      }
    }
    assert prefixes[..|prefixes|] == prefixes;
  }

  method Reconstruct(start: Id, ghost levels: Levels, preds: Preds, target: Id) returns (paths: seq<Path>)
    requires Descending(levels, preds)
    ensures paths == PathsTo(start, levels, preds, target)
  {
    if start == target { return [Path([start], [])]; }
    paths := WalkBack(start, levels, preds, target, [target], []);
    OnwardNothing(PathsTo(start, levels, preds, target), target);
  }

  /** The body of the inner loop, for one edge at a frontier node. */
  method Visit(q: Search, minimum: nat, ghost levels0: Levels, ghost preds0: Preds, depth: nat, ghost done: seq<Step>,
               r: Round, current: Id, adjacent: Adjacent) returns (r': Round)
    requires minimum <= 1 && Mid(q, levels0, preds0, depth, done, r)
    requires FromFrontier(levels0, depth, Step(current, adjacent.edge, adjacent.next))
    requires Step(current, adjacent.edge, adjacent.next) !in done
    requires adjacent in AdjacentEdges(q.graph, current, q.direction)
    ensures Mid(q, levels0, preds0, depth, done + [Step(current, adjacent.edge, adjacent.next)], r')
  {
    ghost var s := Step(current, adjacent.edge, adjacent.next);
    AdjacentConnects(q.graph, current, q.direction, adjacent.edge, adjacent.next);
    AppendNoDup(done, [s]);
    r' := r;
    if !q.edgeOk(adjacent.edge) || adjacent.next !in q.graph.nodes {
      Skip(q, levels0, preds0, depth, done, r, s);
      return;
    }
    var next := adjacent.next;
    var isTarget := q.targetOk(next);
    StartIsKnown(q, levels0, preds0, depth);
    if next == q.start && isTarget && depth >= minimum {
      MidDescends(q, levels0, preds0, depth, done, r);
      var closed := CloseAt(q, r, current, adjacent.edge);
      r' := r.(completed := r.completed + closed);
      Close(q, levels0, preds0, depth, done, r, s, r');
      return;
    }
    KnownLevels(q, levels0, preds0, depth, done, r, next);
    if next in r.levels && r.levels[next] < depth && (!isTarget || depth >= minimum) {
      Skip(q, levels0, preds0, depth, done, r, s);
      return;
    }
    if next !in r.levels || r.levels[next] == depth {
      r' := r'.(levels := r'.levels[next := depth],
                preds := r'.preds[next := (if next in r'.preds then r'.preds[next] else []) + [Pred(current, adjacent.edge)]],
                next := r'.next + {next});
    }
    if depth >= minimum && isTarget {
      r' := r'.(targets := r'.targets + [next]);
    }
    Add(q, levels0, preds0, depth, done, r, s, r');
  }

  lemma {:induction false} ClosingMore(q: Search, prefixes: seq<Path>, p: Path, e: Id)
    ensures Closing(q, prefixes + [p], e) == Closing(q, prefixes, e) + (if e in p.edges then [] else [Extend(p, e, q.start)])
  {
    if prefixes == [] {
      assert prefixes + [p] == [p];
    } else {
      assert (prefixes + [p])[1..] == prefixes[1..] + [p];
      ClosingMore(q, prefixes[1..], p, e);
    }
  }

  lemma StartIsKnown(q: Search, levels0: Levels, preds0: Preds, depth: nat)
    requires depth >= 1 && Explored(q, depth - 1, levels0, preds0)
    ensures q.start in levels0 && levels0[q.start] == 0
  {
    StartAtLevelZero(q);
  }

  lemma KnownLevels(q: Search, levels0: Levels, preds0: Preds, depth: nat, done: seq<Step>, r: Round, n: Id)
    requires Mid(q, levels0, preds0, depth, done, r)
    ensures n in levels0 <==> n in r.levels && r.levels[n] < depth
    ensures n in r.levels && n !in levels0 ==> r.levels[n] == depth
    ensures n in preds0 ==> n in levels0
  {
    LevelsBounded(q, depth - 1, levels0);
  }

  lemma Skip(q: Search, levels0: Levels, preds0: Preds, depth: nat, done: seq<Step>, r: Round, s: Step)
    requires Mid(q, levels0, preds0, depth, done, r) && NoDup(done + [s]) && FromFrontier(levels0, depth, s)
    requires !IsHop(q, s) || (s.next in levels0 && !(s.next == q.start && q.targetOk(q.start)))
    ensures Mid(q, levels0, preds0, depth, done + [s], r)
  {
    SkipLevels(q, levels0, depth, done, r, s);
    SkipPreds(q, levels0, preds0, done, r, s);
    SkipCompleted(q, levels0, preds0, done, r, s, r);
    hide Explored, Descending, MidLevels, MidPreds, MidCompleted;
  }

  lemma Add(q: Search, levels0: Levels, preds0: Preds, depth: nat, done: seq<Step>, r: Round, s: Step, r': Round)
    requires Mid(q, levels0, preds0, depth, done, r) && NoDup(done + [s]) && s !in done && FromFrontier(levels0, depth, s)
    requires IsHop(q, s) && s.next !in levels0 && s.next !in preds0 && s.next != q.start
    requires r'.levels == r.levels[s.next := depth] && r'.next == r.next + {s.next}
    requires r'.preds == r.preds[s.next := (if s.next in r.preds then r.preds[s.next] else []) + [Pred(s.from, s.edge)]]
    requires r'.targets == if q.targetOk(s.next) then r.targets + [s.next] else r.targets
    requires r'.completed == r.completed
    ensures Mid(q, levels0, preds0, depth, done + [s], r')
  {
    AddLevels(q, levels0, depth, done, r, s, r');
    AddPreds(q, levels0, preds0, done, r, s, r');
    SkipCompleted(q, levels0, preds0, done, r, s, r');
    hide Explored, Descending, MidLevels, MidPreds, MidCompleted;
  }

  lemma Close(q: Search, levels0: Levels, preds0: Preds, depth: nat, done: seq<Step>, r: Round, s: Step, r': Round)
    requires Mid(q, levels0, preds0, depth, done, r) && NoDup(done + [s]) && s !in done && FromFrontier(levels0, depth, s)
    requires IsHop(q, s) && s.next == q.start && q.targetOk(q.start) && q.start in levels0 && s.from in levels0
    requires Descending(r.levels, r.preds)
    requires r' == r.(completed := r.completed + Closing(q, PathsTo(q.start, r.levels, r.preds, s.from), s.edge))
    ensures Mid(q, levels0, preds0, depth, done + [s], r')
  {
    hide *;
    MidIs(q, levels0, preds0, depth, done, r);
    SkipLevels(q, levels0, depth, done, r, s);
    SkipPreds(q, levels0, preds0, done, r, s);
    OnlyCompleted(q, levels0, preds0, depth, done + [s], r, r'.completed);
    PrefixesStay(q, levels0, preds0, depth, done, r, s.from);
    RecordedEndsThere(q, levels0, preds0, depth, done, s);
    forall t, p | t in done && p in PathsTo(q.start, levels0, preds0, t.from) ensures Shaped(p) && End(p) == t.from {
      assert t in done + [s];
    }
    CloseCompleted(q, levels0, preds0, done, r, s, r');
    MidIs(q, levels0, preds0, depth, done + [s], r');
  }

  lemma PrefixesStay(q: Search, levels0: Levels, preds0: Preds, depth: nat, done: seq<Step>, r: Round, n: Id)
    requires Mid(q, levels0, preds0, depth, done, r) && Descending(r.levels, r.preds) && n in levels0
    ensures PathsTo(q.start, r.levels, r.preds, n) == PathsTo(q.start, levels0, preds0, n)
  {
    PathsStay(q.start, levels0, preds0, r.levels, r.preds, n);
  }

  lemma RecordedEndsThere(q: Search, levels0: Levels, preds0: Preds, depth: nat, done: seq<Step>, s: Step)
    requires depth >= 1 && Explored(q, depth - 1, levels0, preds0) && Descending(levels0, preds0)
    requires forall t | t in done + [s] :: FromFrontier(levels0, depth, t)
    ensures NoDup(PathsTo(q.start, levels0, preds0, s.from))
    ensures forall t, p | t in done + [s] && p in PathsTo(q.start, levels0, preds0, t.from) :: Shaped(p) && End(p) == t.from
    ensures forall p | p in PathsTo(q.start, levels0, preds0, s.from) :: Shaped(p) && End(p) == s.from
  {
    hide Explored, Descending, PathsTo;
    assert s in done + [s];
    PathsToExact(q, depth - 1, levels0, preds0, s.from);
    forall t, p | t in done + [s] && p in PathsTo(q.start, levels0, preds0, t.from) ensures Shaped(p) && End(p) == t.from {
      PathsToExact(q, depth - 1, levels0, preds0, t.from);
    }
  }

  lemma RoundStarts(q: Search, depth: nat, levels: Levels, preds: Preds)
    requires depth >= 1 && Explored(q, depth - 1, levels, preds)
    ensures Mid(q, levels, preds, depth, [], Round(levels, preds, {}, [], []))
  {
    ExploredDescends(q, depth - 1, levels, preds);
    hide Explored, LevelsExact, Descending;
  }

  /** The steps taken: all from the first nodes, some from the current one. */
  ghost predicate Taken(q: Search, nodes: seq<Id>, current: Id, adjacent: seq<Adjacent>, done: seq<Step>) {
    forall s :: s in done <==>
      (s.from in nodes && Adjacent(s.edge, s.next) in AdjacentEdges(q.graph, s.from, q.direction))
      || (s.from == current && Adjacent(s.edge, s.next) in adjacent)
  }

  /** All edges of the first nodes, and nothing else. */
  ghost predicate TakenAt(q: Search, nodes: seq<Id>, done: seq<Step>) {
    forall n: Id :: Taken(q, nodes, n, [], done)
  }

  lemma TakenFrom(q: Search, nodes: seq<Id>, n: Id, done: seq<Step>)
    requires TakenAt(q, nodes, done)
    ensures Taken(q, nodes, n, [], done)
  {
    hide Taken;
  }

  lemma TakenNode(q: Search, nodes: seq<Id>, current: Id, done: seq<Step>)
    requires Taken(q, nodes, current, AdjacentEdges(q.graph, current, q.direction), done)
    ensures TakenAt(q, nodes + [current], done)
  {
    hide AdjacentEdges;
  }

  lemma TakenEdge(q: Search, nodes: seq<Id>, current: Id, adjacent: seq<Adjacent>, done: seq<Step>, x: Adjacent)
    requires Taken(q, nodes, current, adjacent, done)
    ensures Taken(q, nodes, current, adjacent + [x], done + [Step(current, x.edge, x.next)])
    ensures current !in nodes && x !in adjacent ==> Step(current, x.edge, x.next) !in done
  {
    hide AdjacentEdges;
  }

  /** The inner loop: the edges at one frontier node. */
  method ExpandNode(q: Search, minimum: nat, ghost levels0: Levels, ghost preds0: Preds, depth: nat,
                    ghost nodes: seq<Id>, ghost done0: seq<Step>, r0: Round, current: Id)
      returns (r: Round, ghost done: seq<Step>)
    requires minimum <= 1 && Mid(q, levels0, preds0, depth, done0, r0)
    requires current !in nodes && current in levels0 && levels0[current] + 1 == depth
    requires Taken(q, nodes, current, [], done0)
    ensures Mid(q, levels0, preds0, depth, done, r)
    ensures Taken(q, nodes, current, AdjacentEdges(q.graph, current, q.direction), done)
  {
    hide Mid, AdjacentEdges, Taken;
    r, done := r0, done0;
    var adjacent := AdjacentEdges(q.graph, current, q.direction);
    for j := 0 to |adjacent|
      invariant Mid(q, levels0, preds0, depth, done, r)
      invariant Taken(q, nodes, current, adjacent[..j], done)
    {
      NotYet(q, current, j);
      TakenEdge(q, nodes, current, adjacent[..j], done, adjacent[j]);
      r := Visit(q, minimum, levels0, preds0, depth, done, r, current, adjacent[j]);
      done := done + [Step(current, adjacent[j].edge, adjacent[j].next)];
      assert adjacent[..j + 1] == adjacent[..j] + [adjacent[j]];
    }
    assert adjacent[..|adjacent|] == adjacent;
  }

  /** One round: every admitted edge at every frontier node. */
  method ExpandLevel(q: Search, minimum: nat, depth: nat, frontier: seq<Id>, levels: Levels, preds: Preds)
      returns (r: Round, ghost done: seq<Step>)
    requires minimum <= 1 && depth >= 1 && Explored(q, depth - 1, levels, preds) && NoDup(frontier)
    requires FrontierIs(frontier, levels, depth - 1)
    ensures Mid(q, levels, preds, depth, done, r) && AllSteps(q, levels, depth, done)
  {
    hide *;
    RoundStarts(q, depth, levels, preds);
    TakenNothing(q);
    r, done := Round(levels, preds, {}, [], []), [];
    for i := 0 to |frontier|
      invariant Mid(q, levels, preds, depth, done, r)
      invariant TakenAt(q, frontier[..i], done)
    {
      var current := frontier[i];
      NotBefore(frontier, i, levels, depth - 1);
      ghost var before := done;
      TakenFrom(q, frontier[..i], current, done);
      r, done := ExpandNode(q, minimum, levels, preds, depth, frontier[..i], before, r, current);
      TakenNode(q, frontier[..i], current, done);
      assert frontier[..i + 1] == frontier[..i] + [current];
    }
    assert frontier[..|frontier|] == frontier;
    TakenAll(q, levels, depth, frontier, done);
  }

  ghost predicate FrontierIs(frontier: seq<Id>, levels: Levels, d: nat) {
    forall n :: n in frontier <==> n in levels && levels[n] == d
  }

  lemma NotBefore(frontier: seq<Id>, i: nat, levels: Levels, d: nat)
    requires NoDup(frontier) && i < |frontier| && FrontierIs(frontier, levels, d)
    ensures frontier[i] !in frontier[..i] && frontier[i] in levels && levels[frontier[i]] == d
  {
    assert frontier[i] in frontier;
  }

  lemma TakenNothing(q: Search)
    ensures TakenAt(q, [], [])
  {
  }

  lemma TakenAll(q: Search, levels: Levels, depth: nat, frontier: seq<Id>, done: seq<Step>)
    requires depth >= 1 && FrontierIs(frontier, levels, depth - 1)
    requires TakenAt(q, frontier, done)
    ensures AllSteps(q, levels, depth, done)
  {
    hide AdjacentEdges;
    assert Taken(q, frontier, q.start, [], done);
  }

  lemma NotYet(q: Search, a: Id, j: nat)
    requires j < |AdjacentEdges(q.graph, a, q.direction)|
    ensures AdjacentEdges(q.graph, a, q.direction)[j] !in AdjacentEdges(q.graph, a, q.direction)[..j]
  {
    var all := AdjacentEdges(q.graph, a, q.direction);
    forall i | 0 <= i < j ensures all[i] != all[j] { AdjacentOnce(q.graph, a, q.direction, i, j); }
  }

  /** Every shortest answer from one start node, each once, and nothing else. */
  method ShortestPathsFrom(q: Search, minimum: nat, maximum: int) returns (paths: seq<Path>)
    requires minimum <= 1 && q.start in q.graph.nodes
    ensures NoDup(paths)
    ensures forall p :: p in paths <==> IsAnswer(q, minimum, maximum, p)
  {
    if maximum < 0 { return []; }
    if minimum == 0 && q.targetOk(q.start) {
      TrivialAnswer(q, maximum);
      return [Path([q.start], [])];
    }
    var frontier := [q.start];
    var levels: Levels := map[q.start := 0];
    var preds: Preds := map[];
    SearchStarts(q, minimum, maximum);
    hide *;
    var depth := 1;
    while depth <= maximum && |frontier| > 0
      invariant 1 <= depth <= maximum + 1
      invariant Searching(q, minimum, maximum, depth - 1, frontier, levels, preds)
    {
      var found;
      found, paths, frontier, levels, preds := OneRound(q, minimum, maximum, depth, frontier, levels, preds);
      if found { return; }
      depth := depth + 1;
    }
    NothingFound(q, minimum, maximum, depth - 1, frontier, levels, preds);
    return [];
  }

  /** Nothing up to depth d is an answer; all levels up to d are known, and the
      frontier is level d. */
  ghost predicate Searching(q: Search, minimum: nat, maximum: int, d: nat, frontier: seq<Id>, levels: Levels,
          preds: Preds) {
    && Runs(q, minimum) && Explored(q, d, levels, preds) && NoneUpTo(q, minimum, maximum, d)
    && NoDup(frontier) && forall n :: n in frontier <==> AtLevel(q, n, d)
  }

  lemma SearchingIs(q: Search, minimum: nat, maximum: int, d: nat, frontier: seq<Id>, levels: Levels, preds: Preds)
    ensures Searching(q, minimum, maximum, d, frontier, levels, preds) <==>
            && Runs(q, minimum) && Explored(q, d, levels, preds) && NoneUpTo(q, minimum, maximum, d)
            && NoDup(frontier) && forall n :: n in frontier <==> AtLevel(q, n, d)
  {
    hide Runs, Explored, NoneUpTo, NoDup, AtLevel;
  }

  method OneRound(q: Search, minimum: nat, maximum: int, depth: nat, frontier: seq<Id>, levels: Levels, preds: Preds)
      returns (found: bool, paths: seq<Path>, frontier': seq<Id>, levels': Levels, preds': Preds)
    requires minimum <= 1 && 1 <= depth <= maximum && Searching(q, minimum, maximum, depth - 1, frontier, levels, preds)
    ensures found ==> NoDup(paths) && forall p :: p in paths <==> IsAnswer(q, minimum, maximum, p)
    ensures !found ==> Searching(q, minimum, maximum, depth, frontier', levels', preds')
  {
    hide *;
    SearchingIs(q, minimum, maximum, depth - 1, frontier, levels, preds);
    FrontierLevels(q, depth - 1, levels, preds, frontier);
    var r, done := ExpandLevel(q, minimum, depth, frontier, levels, preds);
    levels', preds', frontier' := r.levels, r.preds, SortedIds(r.next);
    var targets := SortedIds(set n | n in r.targets);
    RoundOver(q, minimum, maximum, levels, preds, depth, done, r, targets, frontier');
    if |r.targets| > 0 || |r.completed| > 0 {
      paths := Collect(q, r, targets);
      return true, paths, frontier', levels', preds';
    }
    return false, [], frontier', levels', preds';
  }

  /** A round that collects something has exactly the answers; one that does not
      leaves the search one level further. */
  lemma RoundOver(q: Search, minimum: nat, maximum: int, levels: Levels, preds: Preds, depth: nat, done: seq<Step>,
          r: Round, targets: seq<Id>, frontier: seq<Id>)
    requires Runs(q, minimum) && 1 <= depth <= maximum && NoneUpTo(q, minimum, maximum, depth - 1)
    requires Mid(q, levels, preds, depth, done, r) && AllSteps(q, levels, depth, done)
    requires targets == SortedIds(set n | n in r.targets) && frontier == SortedIds(r.next)
    ensures Descending(r.levels, r.preds)
    ensures |r.targets| > 0 || |r.completed| > 0 ==>
              NoDup(Collected(q, r, targets)) && forall p :: p in Collected(q, r, targets) <==> IsAnswer(q, minimum, maximum, p)
    ensures r.targets == [] && r.completed == [] ==> Searching(q, minimum, maximum, depth, frontier, r.levels, r.preds)
  {
    hide *;
    RoundDone(q, levels, preds, depth, done, r);
    MidDescends(q, levels, preds, depth, done, r);
    SortedSetHolds(r.targets);
    RoundAnswers(q, minimum, maximum, levels, preds, depth, done, r, targets);
    SortedHolds(r.next);
    IncreasingNoDup(frontier);
    if |r.targets| > 0 || |r.completed| > 0 {
      FoundLevels(q, depth, r);
      SomethingCollected(q, depth, r, targets);
    } else {
      NothingCollected(q, r, targets);
      SearchingIs(q, minimum, maximum, depth, frontier, r.levels, r.preds);
    }
  }

  lemma FoundLevels(q: Search, depth: nat, r: Round)
    requires Explored(q, depth, r.levels, r.preds) && forall n :: n in r.targets <==> AtLevel(q, n, depth) && q.targetOk(n)
    ensures forall n | n in r.targets :: n in r.levels && r.levels[n] == depth
  {
    hide AtLevel;
  }

  /** completed plus the reconstructed paths of every target. */
  method Collect(q: Search, r: Round, targets: seq<Id>) returns (paths: seq<Path>)
    requires Descending(r.levels, r.preds)
    ensures paths == Collected(q, r, targets)
  {
    paths := r.completed;
    for i := 0 to |targets|
      invariant paths == Collected(q, r, targets[..i])
    {
      var reconstructed := Reconstruct(q.start, r.levels, r.preds, targets[i]);
      assert targets[..i + 1][..i] == targets[..i];
      paths := paths + reconstructed;
    }
    assert targets[..|targets|] == targets;
  }

  lemma TrivialAnswer(q: Search, maximum: int)
    requires q.start in q.graph.nodes && q.targetOk(q.start) && maximum >= 0
    ensures forall p :: p in [Path([q.start], [])] <==> IsAnswer(q, 0, maximum, p)
  {
    var trivial := Path([q.start], []);
    assert Allowed(q, 0, maximum, trivial);
    forall p | Allowed(q, 0, maximum, p) && |p.edges| == 0 ensures p == trivial {
      assert p.nodes == [q.start];
    }
  }

  lemma SearchStarts(q: Search, minimum: nat, maximum: int)
    requires Runs(q, minimum)
    ensures Searching(q, minimum, maximum, 0, [q.start], map[q.start := 0], map[])
  {
    StartAtLevelZero(q);
    forall n, k: nat ensures (n == q.start && 0 == k) <==> (k <= 0 && AtLevel(q, n, k)) {
      if AtLevel(q, n, 0) { OnlyStartAtZero(q, n); }
    }
    forall p | Allowed(q, minimum, maximum, p) ensures |p.edges| > 0 { }
  }

  lemma FrontierLevels(q: Search, d: nat, levels: Levels, preds: Preds, frontier: seq<Id>)
    requires Explored(q, d, levels, preds) && forall n :: n in frontier <==> AtLevel(q, n, d)
    ensures FrontierIs(frontier, levels, d)
  {
  }

  lemma SortedSetHolds(targets: seq<Id>)
    ensures NoDup(SortedIds(set n | n in targets))
    ensures forall n :: n in SortedIds(set n | n in targets) <==> n in targets
    ensures targets == [] <==> SortedIds(set n | n in targets) == []
  {
    assert targets == [] ==> (set n | n in targets) == {};
    if targets != [] { assert targets[0] in targets; }
    SortedHolds(set n | n in targets);
    IncreasingNoDup(SortedIds(set n | n in targets));
  }

  lemma {:induction false} SomethingCollected(q: Search, depth: nat, r: Round, targets: seq<Id>)
    requires Explored(q, depth, r.levels, r.preds) && Descending(r.levels, r.preds)
    requires forall n | n in targets :: n in r.levels && r.levels[n] == depth
    requires r.completed != [] || targets != []
    ensures Collected(q, r, targets) != []
  {
    if targets != [] {
      var last := targets[|targets| - 1];
      assert AtLevel(q, last, depth);
      var p :| WalkOf(q, p, last, depth);
      PathsToExact(q, depth, r.levels, r.preds, last);
    }
  }

  lemma NothingCollected(q: Search, r: Round, targets: seq<Id>)
    requires Descending(r.levels, r.preds) && r.completed == [] && targets == []
    ensures Collected(q, r, targets) == []
  {
  }

  lemma NothingFound(q: Search, minimum: nat, maximum: int, last: nat, frontier: seq<Id>, levels: Levels, preds: Preds)
    requires Searching(q, minimum, maximum, last, frontier, levels, preds)
    requires last >= maximum || frontier == []
    ensures forall p :: !IsAnswer(q, minimum, maximum, p)
  {
    if last < maximum {
      forall n ensures !AtLevel(q, n, last) { assert n !in frontier; }
      EmptyFrontier(q, minimum, maximum, last);
    }
  }
}
