/** Store.Write: one callback in one serialised transaction, and whole runs of
    such batches.  A callback is any sequence of mutations, which may ignore the
    errors it gets, followed by success or failure. */
module Store {
  import opened Base
  import opened GraphRules
  import opened Tables
  import opened WriteTx
  import V = Versions
  import M = MutationMeaning

  // ---- what a batch means, with no tables ----

  ghost function UsedNodes(past: seq<Graph>, now: Graph): set<Id> {
    (set r, id | 0 <= r < |past| && id in past[r].nodes :: id) + now.nodes.Keys
  }

  ghost function UsedEdges(past: seq<Graph>, now: Graph): set<Id> {
    (set r, id | 0 <= r < |past| && id in past[r].edges :: id) + now.edges.Keys
  }

  /** The working graph and the first error after a sequence of mutations. */
  datatype Played = Played(graph: Graph, failure: Option<Error>)

  ghost function Play(past: seq<Graph>, unavailable: Option<Error>, ops: seq<Op>): Played
    requires |past| > 0
  {
    if ops == [] then Played(past[|past| - 1], None)
    else
      var before := Play(past, unavailable, ops[..|ops| - 1]);
      var step := Meaning(before.graph, UsedNodes(past, before.graph), UsedEdges(past, before.graph),
                          unavailable, ops[|ops| - 1]);
      Played(step.graph, if before.failure.Some? then before.failure else step.error)
  }

  datatype Batch = Batch(meta: RevisionMeta, clock: int, ops: seq<Op>, callbackFails: bool)

  /** The error that makes a batch roll back. */
  ghost function BatchError(past: seq<Graph>, unavailable: Option<Error>, b: Batch): Option<Error>
    requires |past| > 0
  {
    if b.callbackFails then Some(CallbackFailed) else Play(past, unavailable, b.ops).failure
  }

  /** The states recorded after a batch: one more exactly when it succeeds and
      the graph it leads to differs from the one it began with. */
  ghost function After(past: seq<Graph>, unavailable: Option<Error>, b: Batch): seq<Graph>
    requires |past| > 0
  {
    var graph := Play(past, unavailable, b.ops).graph;
    if BatchError(past, unavailable, b).Some? || graph == past[|past| - 1] then past else past + [graph]
  }

  // ---- batches, mutation by mutation ----

  /** One graph after the other, each mutation legal and carried out. */
  ghost predicate PlaysThrough(past: seq<Graph>, unavailable: Option<Error>, ops: seq<Op>, graphs: seq<Graph>)
    requires |past| > 0
  {
    && |graphs| == |ops| + 1 && graphs[0] == past[|past| - 1]
    && forall i | 0 <= i < |ops| :: Carried(past, unavailable, ops[i], graphs[i], graphs[i + 1])
  }

  ghost predicate Carried(past: seq<Graph>, unavailable: Option<Error>, op: Op, before: Graph, after: Graph) {
    && M.Legal(before, UsedNodes(past, before), UsedEdges(past, before), op) && M.Done(before, op, after)
    && (M.Changes(before, op) ==> unavailable.None?)
  }

  lemma CarriedIff(past: seq<Graph>, unavailable: Option<Error>, op: Op, before: Graph, after: Graph)
    requires ValidGraph(before)
    ensures var step := Meaning(before, UsedNodes(past, before), UsedEdges(past, before), unavailable, op);
            Carried(past, unavailable, op, before, after) <==> step.error.None? && step.graph == after
    ensures ValidGraph(Meaning(before, UsedNodes(past, before), UsedEdges(past, before), unavailable, op).graph)
  {
    var (nodes, edges) := (UsedNodes(past, before), UsedEdges(past, before));
    assert before.nodes.Keys <= nodes && before.edges.Keys <= edges;
    hide ValidGraph, Meaning, UsedNodes, UsedEdges, M.Legal, M.Done, M.Changes;
    MeaningKeepsRules(before, nodes, edges, unavailable, op);
    M.AcceptedIff(before, nodes, edges, unavailable, op);
    M.DoneIs(before, nodes, edges, unavailable, op);
    var step := Meaning(before, nodes, edges, unavailable, op);
    if step.error.None? && M.Done(before, op, after) { M.DoneOnce(before, op, step.graph, after); }
  }

  /** A batch comes through exactly when its mutations can be carried out in turn. */
  lemma {:induction false} PlayMeans(past: seq<Graph>, unavailable: Option<Error>, ops: seq<Op>) returns (graphs: seq<Graph>)
    requires |past| > 0 && ValidGraph(past[|past| - 1])
    ensures ValidGraph(Play(past, unavailable, ops).graph)
    ensures Play(past, unavailable, ops).failure.None? ==> PlaysThrough(past, unavailable, ops, graphs) && graphs[|ops|] == Play(past, unavailable, ops).graph
    ensures forall other | PlaysThrough(past, unavailable, ops, other) :: Play(past, unavailable, ops) == Played(other[|ops|], None)
    decreases |ops|
  {
    hide ValidGraph, Meaning, UsedNodes, UsedEdges, Carried;
    if ops == [] { return [past[|past| - 1]]; }
    var (n, rest, op) := (|ops| - 1, ops[..|ops| - 1], ops[|ops| - 1]);
    var some := PlayMeans(past, unavailable, rest);
    var before := Play(past, unavailable, rest);
    var step := Meaning(before.graph, UsedNodes(past, before.graph), UsedEdges(past, before.graph), unavailable, op);
    CarriedIff(past, unavailable, op, before.graph, step.graph);
    graphs := some + [step.graph];
    forall other | PlaysThrough(past, unavailable, ops, other) ensures Play(past, unavailable, ops) == Played(other[|ops|], None) {
      assert PlaysThrough(past, unavailable, rest, other[..|ops|]);
      CarriedIff(past, unavailable, op, before.graph, other[|ops|]);
      assert Carried(past, unavailable, ops[n], other[n], other[n + 1]);
    }
  }

  /** Write returns without an error exactly when the callback does not fail and all its
      mutations can be carried out in turn; then the last graph is the new state, if it
      differs from the first. */
  lemma BatchMeans(before: Tables, after: Tables, unavailable: Option<Error>, b: Batch, result: Result<WriteResult>)
    requires ValidStore(before) && Written(before, after, unavailable, b, result)
    ensures result.Ok? <==> !b.callbackFails && exists graphs :: PlaysThrough(States(before), unavailable, b.ops, graphs)
    ensures forall graphs | PlaysThrough(States(before), unavailable, b.ops, graphs) && !b.callbackFails ::
              States(after) == if graphs[|b.ops|] == graphs[0] then States(before) else States(before) + [graphs[|b.ops|]]
    ensures result.Err? ==> after == before
  {
    var past := States(before);
    assert ValidGraph(past[|past| - 1]);
    hide ValidStore, ValidGraph, PlaysThrough, Play;
    var graphs := PlayMeans(past, unavailable, b.ops);
    forall other | PlaysThrough(past, unavailable, b.ops, other) ensures other[0] == past[|past| - 1] { StartsAtLast(past, unavailable, b.ops, other); }
  }

  lemma StartsAtLast(past: seq<Graph>, unavailable: Option<Error>, ops: seq<Op>, graphs: seq<Graph>)
    requires |past| > 0 && PlaysThrough(past, unavailable, ops, graphs)
    ensures graphs[0] == past[|past| - 1] && |graphs| == |ops| + 1
  {
  }

  /** A batch of one mutation appends the graph in which it is done. */
  lemma OneMutation(before: Tables, after: Tables, unavailable: Option<Error>, b: Batch, result: Result<WriteResult>, op: Op)
    requires ValidStore(before) && Written(before, after, unavailable, b, result) && b.ops == [op] && result.Ok?
    ensures var (past, now) := (States(before), States(after));
            && M.Done(past[|past| - 1], op, now[|now| - 1])
            && (M.Changes(past[|past| - 1], op) ==> now == past + [now[|now| - 1]])
  {
    var past := States(before);
    assert |past| > 0;
    hide *;
    var graphs := BatchGraphs(before, after, unavailable, b, result);
    OnlyStep(past, unavailable, op, graphs);
    ChangedApart(graphs[0], op, graphs[1]);
  }

  lemma BatchGraphs(before: Tables, after: Tables, unavailable: Option<Error>, b: Batch, result: Result<WriteResult>) returns (graphs: seq<Graph>)
    requires ValidStore(before) && Written(before, after, unavailable, b, result) && result.Ok?
    ensures PlaysThrough(States(before), unavailable, b.ops, graphs) && |graphs| == |b.ops| + 1
    ensures States(after) == if graphs[|b.ops|] == graphs[0] then States(before) else States(before) + [graphs[|b.ops|]]
  {
    BatchMeans(before, after, unavailable, b, result);
    hide *;
    graphs :| PlaysThrough(States(before), unavailable, b.ops, graphs);
    StartsAtLast(States(before), unavailable, b.ops, graphs);
  }

  lemma OnlyStep(past: seq<Graph>, unavailable: Option<Error>, op: Op, graphs: seq<Graph>)
    requires |past| > 0 && PlaysThrough(past, unavailable, [op], graphs)
    ensures |graphs| == 2 && graphs[0] == past[|past| - 1] && M.Done(graphs[0], op, graphs[1])
  {
    assert Carried(past, unavailable, [op][0], graphs[0], graphs[1]);
    hide M.Done, M.Legal, M.Changes, UsedNodes, UsedEdges;
  }

  lemma ChangedApart(before: Graph, op: Op, after: Graph)
    requires M.Done(before, op, after)
    ensures M.Changes(before, op) ==> before != after
  {
    hide M.Done;
  }

  // ---- the tables know which identities were ever used ----

  lemma CreatedNodesAreUsed(t: Tables, base: nat)
    requires V.Valid(t.nodes, base + 1)
    ensures t.nodes.created.Keys == UsedNodes(seq(base + 1, r requires r >= 0 => GraphAt(t, r)), GraphAt(t, base + 1))
  {
    var past := seq(base + 1, r requires r >= 0 => GraphAt(t, r));
    forall id | id in t.nodes.created ensures id in UsedNodes(past, GraphAt(t, base + 1)) {
      V.CreatedWasVisible(t.nodes, base + 1, id);
      var r: nat :| r <= base + 1 && V.Lookup(t.nodes, id, r).Some?;
      if r <= base { assert id in past[r].nodes; }
    }
  }

  lemma CreatedEdgesAreUsed(t: Tables, base: nat)
    requires V.Valid(t.edges, base + 1)
    ensures t.edges.created.Keys == UsedEdges(seq(base + 1, r requires r >= 0 => GraphAt(t, r)), GraphAt(t, base + 1))
  {
    var past := seq(base + 1, r requires r >= 0 => GraphAt(t, r));
    forall id | id in t.edges.created ensures id in UsedEdges(past, GraphAt(t, base + 1)) {
      V.CreatedWasVisible(t.edges, base + 1, id);
      var r: nat :| r <= base + 1 && V.Lookup(t.edges, id, r).Some?;
      if r <= base { assert id in past[r].edges; }
    }
  }

  ghost function StatesUpTo(t: Tables, base: nat): seq<Graph> {
    seq(base + 1, r requires r >= 0 => GraphAt(t, r))
  }

  /** In a transaction, a mutation means what it means given the committed states. */
  lemma MeantByHistory(t: Tables, start: Tables, base: nat, unavailable: Option<Error>, op: Op)
    requires base == |start.revisions| && V.Valid(t.nodes, base + 1) && V.Valid(t.edges, base + 1)
    requires forall r: nat | r <= base :: GraphAt(t, r) == GraphAt(start, r)
    ensures var now := GraphAt(t, base + 1);
            Meaning(now, t.nodes.created.Keys, t.edges.created.Keys, unavailable, op) ==
            Meaning(now, UsedNodes(States(start), now), UsedEdges(States(start), now), unavailable, op)
  {
    hide V.Valid, V.At, Meaning, UsedNodes, UsedEdges;
    assert StatesUpTo(t, base) == States(start);
    CreatedNodesAreUsed(t, base);
    CreatedEdgesAreUsed(t, base);
  }

  /** UPDATE revisions SET sealed = 1 WHERE revision = ? AND sealed = 0. */
  function Seal(log: seq<RevisionRow>, revision: nat): seq<RevisionRow> {
    seq(|log|, i requires 0 <= i < |log| => if log[i].revision == revision then log[i].(sealed := true) else log[i])
  }

  /** Sealing the new row of a transaction makes its working graph the next state. */
  lemma SealedBatch(start: Tables, t: Tables, row: RevisionRow, base: nat)
    requires ValidStore(start) && base == |start.revisions|
    requires ValidLog(start.revisions + [row.(sealed := true)]) && row.revision == base + 1
    requires t.revisions == start.revisions + [row]
    requires V.Valid(t.nodes, base + 1) && V.Valid(t.edges, base + 1)
    requires forall r: nat | r <= base :: GraphAt(t, r) == GraphAt(start, r)
    requires ValidGraph(GraphAt(t, base + 1))
    ensures ValidStore(t.(revisions := Seal(t.revisions, base + 1)))
    ensures start.revisions <= Seal(t.revisions, base + 1)
    ensures States(t.(revisions := Seal(t.revisions, base + 1))) == States(start) + [GraphAt(t, base + 1)]
  {
    hide V.Valid, V.At, ValidGraph;
    var sealed := t.(revisions := Seal(t.revisions, base + 1));
    assert sealed.revisions == start.revisions + [row.(sealed := true)];
    assert forall r: nat :: GraphAt(sealed, r) == GraphAt(t, r);
  }

  // ---- the store ----

  class Store {
    var tables: Tables

    constructor ()
      ensures ValidStore(tables) && tables == Tables([], V.History(map[], map[]), V.History(map[], map[]))
    {
      tables := Tables([], V.History(map[], map[]), V.History(map[], map[]));
    }

    /** Runs one batch.  An error leaves the tables as they were; so does a batch
        that changes nothing; any other batch appends exactly one state. */
    method Write(b: Batch) returns (result: Result<WriteResult>)
      requires ValidStore(tables) || HasUnsealed(tables.revisions)
      modifies this
      ensures old(HasUnsealed(tables.revisions)) ==> result == Err(UnsealedRevision) && tables == old(tables)
      ensures !old(HasUnsealed(tables.revisions)) ==>
                Written(old(tables), tables, old(Unavailable(tables.revisions, |tables.revisions|, b.meta, b.clock)), b, result)
    {
      hide V.Valid, V.At, ValidGraph, Unavailable, ValidStore;
      if HasUnsealed(tables.revisions) { return Err(UnsealedRevision); }
      var tx := new Transaction(tables, b.meta, b.clock);
      var savepoint := tx.tables;
      RunCallback(tx, b.ops);
      tx.done := true;
      if b.callbackFails { return Err(CallbackFailed); }
      if tx.failure.Some? { return Err(tx.failure.value); }
      tables, result := Finish(tx, savepoint);
    }
  }

  /** The callback: it goes on after failed mutations. */
  method RunCallback(tx: Transaction, ops: seq<Op>)
    requires tx.Valid() && !tx.done && tx.failure.None? && tx.Now() == GraphAt(tx.start, tx.base)
    modifies tx
    ensures tx.Valid() && !tx.done
    ensures Played(tx.Now(), tx.failure) == Play(States(tx.start), tx.NoRevision(), ops)
  {
    hide V.Valid, V.At, ValidGraph, Meaning, Unavailable, UsedNodes, UsedEdges;
    for i := 0 to |ops|
      invariant tx.Valid() && !tx.done
      invariant Played(tx.Now(), tx.failure) == Play(States(tx.start), tx.NoRevision(), ops[..i])
    {
      MeantByHistory(tx.tables, tx.start, tx.base, tx.NoRevision(), ops[i]);
      assert ops[..i + 1][..i] == ops[..i];
      var error := tx.Apply(ops[i]);
    }
    assert ops[..|ops|] == ops;
  }

  /** Seals the batch's revision, or rolls back to the savepoint if the graph is
      what it was. */
  method Finish(tx: Transaction, savepoint: Tables) returns (tables: Tables, result: Result<WriteResult>)
    requires tx.Valid() && savepoint == tx.start && ValidStore(tx.start)
    modifies tx
    ensures ValidStore(tables)
    ensures old(tx.Now()) == GraphAt(tx.start, tx.base) ==>
              tables == tx.start && result == Ok(WriteResult(tx.base, false, None))
    ensures old(tx.Now()) != GraphAt(tx.start, tx.base) ==>
              && States(tables) == States(tx.start) + [old(tx.Now())]
              && tx.start.revisions <= tables.revisions
              && result.Ok? && result.value.revision == tx.base + 1 && result.value.changed && result.value.info.Some?
              && result.value.info.value.revision == tx.base + 1
              && Recorded(tx.start.revisions, tables.revisions, tx.meta, tx.clock, result.value.info)
  {
    hide V.Valid, V.At, ValidGraph;
    NothingWritten(tx.start, tx.base);
    if tx.revision != 0 {
      var changed := tx.GraphChanged();
      if !changed {
        tx.tables := savepoint;
        tx.revision, tx.info := 0, None;
      } else {
        AllocateKeepsLog(tx.start.revisions, tx.meta, tx.clock);
        SealedBatch(tx.start, tx.tables, tx.tables.revisions[tx.base], tx.base);
        SealedIsRecorded(tx.start.revisions, tx.meta, tx.clock, tx.tables.revisions, tx.info);
        tx.tables := tx.tables.(revisions := Seal(tx.tables.revisions, tx.revision));
      }
    }
    tables := tx.tables;
    result := Ok(WriteResult(if tx.revision != 0 then tx.revision else tx.base, tx.revision != 0, tx.info));
  }

  /** The time asked for, or, if something was committed then or later, the first one
      after it. */
  predicate TimeMeans(before: seq<RevisionRow>, asked: int, time: int) {
    if before == [] then time == asked
    else
      var last := before[|before| - 1].committedNs;
      if last < asked then time == asked else time == last + 1
  }

  /** The new row is numbered, sealed, and says who wrote it, why and when; so does the
      result. */
  ghost predicate Recorded(before: seq<RevisionRow>, after: seq<RevisionRow>, meta: RevisionMeta, clock: int, info: Option<RevisionInfo>) {
    && |after| == |before| + 1 && after[..|before|] == before && info.Some?
    && var (row, told) := (after[|before|], info.value);
       && row.revision == told.revision == |after| && row.sealed
       && row.actor == told.actor == meta.actor && row.message == told.message == meta.message
       && row.committedNs == told.time
       && TimeMeans(before, if meta.time.Some? then meta.time.value else clock, row.committedNs)
  }

  lemma SealedIsRecorded(before: seq<RevisionRow>, meta: RevisionMeta, clock: int, log: seq<RevisionRow>, info: Option<RevisionInfo>)
    requires ValidLog(before) && Allocate(before, |before|, meta, clock).Ok?
    requires info == Some(RevisionInfo(|before| + 1, Allocate(before, |before|, meta, clock).value, meta.actor, meta.message))
    requires log == before + [RevisionRow(|before| + 1, info.value.time, meta.actor, meta.message, false)]
    ensures Recorded(before, Seal(log, |before| + 1), meta, clock, info)
  {
    var sealed := Seal(log, |before| + 1);
    forall i | 0 <= i < |before| ensures sealed[i] == before[i] { assert log[i] == before[i]; }
    assert sealed[..|before|] == before;
  }

  /** The whole effect of Write on a valid store. */
  ghost predicate Written(before: Tables, after: Tables, unavailable: Option<Error>, b: Batch,
          result: Result<WriteResult>) {
    && ValidStore(after)
    && States(after) == After(States(before), unavailable, b)
    && (States(after) == States(before) ==> after == before)
    && before.revisions <= after.revisions
    && Reports(result, States(before), unavailable, b)
    && (States(after) != States(before) ==>
          result.Ok? && Recorded(before.revisions, after.revisions, b.meta, b.clock, result.value.info))
  }

  /** What Write returns. */
  ghost predicate Reports(result: Result<WriteResult>, past: seq<Graph>, unavailable: Option<Error>, b: Batch)
    requires |past| > 0
  {
    var error := BatchError(past, unavailable, b);
    var after := After(past, unavailable, b);
    if error.Some? then result == Err(error.value)
    else
      && result.Ok?
      && result.value.revision == |after| - 1
      && result.value.changed == (after != past)
      && result.value.info.Some? == (after != past)
      && (after != past ==> result.value.info.value.revision == |after| - 1)
  }
}
