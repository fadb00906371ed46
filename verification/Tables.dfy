/** The durable tables, the rules they obey between transactions, and the
    sequence of graph states they record. */
module Tables {
  import opened Base
  import opened GraphRules
  import Versions

  datatype RevisionMeta = RevisionMeta(actor: string, message: string, time: Option<int>)
  datatype RevisionRow = RevisionRow(revision: nat, committedNs: int, actor: string, message: string, sealed: bool)
  datatype Tables = Tables(revisions: seq<RevisionRow>,
                           nodes: Versions.History<NodeContent>,
                           edges: Versions.History<EdgeContent>)

  /** SELECT COALESCE(MAX(revision), 0) FROM revisions WHERE sealed = 1. */
  function CurrentRevision(log: seq<RevisionRow>): nat {
    if log == [] then 0
    else
      var before := CurrentRevision(log[..|log| - 1]);
      var last := log[|log| - 1];
      if last.sealed && before < last.revision then last.revision else before
  }

  predicate HasUnsealed(log: seq<RevisionRow>) {
    exists row | row in log :: !row.sealed
  }

  /** Revisions are sealed, contiguous from 1, and strictly later one by one. */
  ghost predicate ValidLog(log: seq<RevisionRow>) {
    && |log| <= MAX_INT64
    && (forall i | 0 <= i < |log| :: log[i].sealed && log[i].revision == i + 1 && IsInt64(log[i].committedNs))
    && (forall i, j | 0 <= i < j < |log| :: log[i].committedNs < log[j].committedNs)
  }

  ghost function GraphAt(t: Tables, r: nat): Graph {
    Graph(Versions.At(t.nodes, r), Versions.At(t.edges, r))
  }

  /** The graph at revision 0, 1, ..., up to the last one. */
  ghost function States(t: Tables): (states: seq<Graph>)
    ensures |states| == |t.revisions| + 1
  {
    seq(|t.revisions| + 1, r requires r >= 0 => GraphAt(t, r))
  }

  ghost predicate ValidStore(t: Tables) {
    && ValidLog(t.revisions)
    && Versions.Valid(t.nodes, |t.revisions|)
    && Versions.Valid(t.edges, |t.revisions|)
    && forall r | 0 <= r <= |t.revisions| :: ValidGraph(GraphAt(t, r))
  }

  lemma {:induction false} CurrentRevisionIsLast(log: seq<RevisionRow>)
    requires ValidLog(log)
    ensures CurrentRevision(log) == |log|
  {
    if log != [] { CurrentRevisionIsLast(log[..|log| - 1]); }
  }

  /** Before anything is written, the next revision would look like the last one. */
  lemma NothingWritten(t: Tables, base: nat)
    requires ValidStore(t) && base == |t.revisions|
    ensures Versions.Valid(t.nodes, base + 1) && Versions.Valid(t.edges, base + 1)
    ensures GraphAt(t, base + 1) == GraphAt(t, base) && ValidGraph(GraphAt(t, base + 1))
  {
    Versions.ValidAbove(t.nodes, base, base + 1);
    Versions.ValidAbove(t.edges, base, base + 1);
  }

  /** Allocating a revision row: the timestamp it gets, or why it gets none.
      `clock` is the store's clock, used when the caller gives no time. */
  function Allocate(log: seq<RevisionRow>, base: nat, meta: RevisionMeta, clock: int): Result<int> {
    var when := if meta.time.Some? then meta.time.value else clock;
    if base >= MAX_INT64 then Err(RevisionSpaceExhausted)
    else if !ValidMeta(meta) || !IsInt64(when) then Err(InvalidArgument)
    else if log != [] && when <= log[|log| - 1].committedNs then
      if log[|log| - 1].committedNs == MAX_INT64 then Err(TimestampSpaceExhausted)
      else Ok(log[|log| - 1].committedNs + 1)
    else Ok(when)
  }

  predicate ValidMeta(meta: RevisionMeta) {
    Text.ByteLen(meta.actor) <= 65_536 && Text.ByteLen(meta.message) <= 1_048_576
  }

  function Unavailable(log: seq<RevisionRow>, base: nat, meta: RevisionMeta, clock: int): Option<Error> {
    match Allocate(log, base, meta, clock)
    case Ok(_) => None
    case Err(e) => Some(e)
  }

  /** A new revision row keeps the log valid once it is sealed. */
  lemma AllocateKeepsLog(log: seq<RevisionRow>, meta: RevisionMeta, clock: int)
    requires ValidLog(log) && Allocate(log, |log|, meta, clock).Ok?
    ensures ValidLog(log + [RevisionRow(|log| + 1, Allocate(log, |log|, meta, clock).value, meta.actor, meta.message, true)])
  {
  }

  import Text
}
