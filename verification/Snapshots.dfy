/** Resolving a snapshot selector to a revision, and reading what a version table
    shows at one. */
module Snapshots {
  import opened Base
  import opened Tables
  import V = Versions

  datatype Snapshot = Snapshot(revision: Option<nat>, time: Option<int>) {
    predicate IsCurrent() { revision.None? && time.None? }
  }

  const CURRENT := Snapshot(None, None)

  /** WHERE sealed = 1 AND committed_ns <= ? ORDER BY committed_ns DESC, revision DESC LIMIT 1. */
  function LatestAt(log: seq<RevisionRow>, time: int): Option<RevisionRow> {
    if log == [] then None
    else
      var before := LatestAt(log[..|log| - 1], time);
      var last := log[|log| - 1];
      if last.sealed && last.committedNs <= time
         && (before.None? || before.value.committedNs < last.committedNs
             || (before.value.committedNs == last.committedNs && before.value.revision < last.revision)) then Some(last)
      else before
  }

  /** ResolveSnapshot. */
  method ResolveSnapshot(log: seq<RevisionRow>, s: Snapshot) returns (r: Result<nat>)
    requires ValidLog(log)
    ensures r == Resolved(log, s)
  {
    hide ValidLog;
    if s.revision.Some? && s.time.Some? { return Err(InvalidArgument); }
    if s.revision.Some? {
      var revision := s.revision.value;
      if revision == 0 { return Ok(0); }
      if revision > MAX_INT64 {
        LogIs(log);
        return Err(NotFound);
      }
      var found := exists row | row in log :: row.revision == revision && row.sealed;
      RevisionExists(log, revision);
      return if found then Ok(revision) else Err(NotFound);
    }
    if s.time.Some? {
      if !IsInt64(s.time.value) { return Err(InvalidArgument); }
      var row := LatestAt(log, s.time.value);
      LatestIsCommitted(log, s.time.value);
      return Ok(if row.None? then 0 else row.value.revision);
    }
    CurrentRevisionIsLast(log);
    return Ok(CurrentRevision(log));
  }

  /** What a selector means: a revision that exists, the number of revisions
      committed by a time, or the last one. */
  ghost function Resolved(log: seq<RevisionRow>, s: Snapshot): Result<nat> {
    if s.revision.Some? && s.time.Some? then Err(InvalidArgument)
    else if s.revision.Some? then if s.revision.value <= |log| then Ok(s.revision.value) else Err(NotFound)
    else if s.time.Some? then if IsInt64(s.time.value) then Ok(CommittedBy(log, s.time.value)) else Err(InvalidArgument)
    else Ok(|log|)
  }

  function CommittedBy(log: seq<RevisionRow>, time: int): (n: nat)
    ensures n <= |log|
  {
    if log == [] then 0
    else CommittedBy(log[..|log| - 1], time) + if log[|log| - 1].committedNs <= time then 1 else 0
  }

  lemma LogIs(log: seq<RevisionRow>)
    requires ValidLog(log)
    ensures |log| <= MAX_INT64
  {
  }

  lemma RevisionExists(log: seq<RevisionRow>, revision: nat)
    requires ValidLog(log) && revision > 0
    ensures (exists row | row in log :: row.revision == revision && row.sealed) <==> revision <= |log|
  {
    if revision <= |log| { assert log[revision - 1] in log; }
  }

  lemma ShorterLog(log: seq<RevisionRow>)
    requires ValidLog(log) && log != []
    ensures ValidLog(log[..|log| - 1])
  {
  }

  /** The revisions committed by a time are an initial part of the log. */
  lemma {:induction false} CommittedIsInitial(log: seq<RevisionRow>, time: int)
    requires ValidLog(log)
    ensures forall i | 0 <= i < |log| :: log[i].committedNs <= time <==> i < CommittedBy(log, time)
  {
    if log != [] {
      var n := |log| - 1;
      ShorterLog(log);
      CommittedIsInitial(log[..n], time);
      assert forall i | 0 <= i < n :: log[..n][i] == log[i];
    }
  }

  lemma {:induction false} LatestIsCommitted(log: seq<RevisionRow>, time: int)
    requires ValidLog(log)
    ensures var row := LatestAt(log, time); var n := CommittedBy(log, time);
            if n == 0 then row.None? else row == Some(log[n - 1]) && row.value.revision == n
  {
    if log != [] {
      var n := |log| - 1;
      ShorterLog(log);
      LatestIsCommitted(log[..n], time);
      CommittedIsInitial(log, time);
      CommittedAtMost(log[..n], time);
      LastIs(log);
    }
  }

  lemma CommittedAtMost(log: seq<RevisionRow>, time: int)
    requires ValidLog(log)
    ensures CommittedBy(log, time) <= |log|
    ensures 0 < CommittedBy(log, time) ==> log[CommittedBy(log, time) - 1].committedNs <= time
  {
    CommittedIsInitial(log, time);
  }

  lemma LastIs(log: seq<RevisionRow>)
    requires ValidLog(log) && log != []
    ensures log[|log| - 1].sealed && log[|log| - 1].revision == |log|
    ensures forall i | 0 <= i < |log| - 1 :: log[i].revision < |log| && log[i].committedNs < log[|log| - 1].committedNs
  {
  }

  /** Once something was committed later than a time, what that time resolves to
      never changes again. */
  lemma {:induction false} TimeIsStable(log: seq<RevisionRow>, later: seq<RevisionRow>, time: int)
    requires ValidLog(later) && log <= later && log != [] && time < log[|log| - 1].committedNs
    ensures Resolved(later, Snapshot(None, Some(time))) == Resolved(log, Snapshot(None, Some(time)))
    decreases |later|
  {
    if |later| > |log| {
      ShorterLog(later);
      assert later[..|later| - 1][..|log|] == log;
      TimeIsStable(log, later[..|later| - 1], time);
      assert later[|log| - 1] == log[|log| - 1];
    } else {
      assert later == log;
    }
  }

  /** WHERE valid_from <= ? AND (valid_to IS NULL OR valid_to > ?): one row at most
      for each identity, and together what the table shows at that revision. */
  method ReadVisible<C>(h: V.History<C>, r: nat, ghost top: nat) returns (visible: map<Id, C>)
    requires V.Valid(h, top) && r <= top
    ensures visible == V.At(h, r)
  {
    hide *;
    visible := map[];
    var todo := h.rows.Keys;
    ghost var done: set<V.Key> := {};
    SeenStart(h, r);
    while todo != {}
      invariant todo <= h.rows.Keys && done == h.rows.Keys - todo
      invariant Seen(h, r, done, visible)
      decreases |todo|
    {
      var k :| k in todo;
      SeenMore(h, r, top, done, visible, k);
      if V.Covers(k, h.rows[k], r) { visible := visible[k.id := h.rows[k].content]; }
      todo, done := todo - {k}, done + {k};
    }
    assert done == h.rows.Keys;
    SeenAll(h, r, top, visible);
  }

  ghost predicate Seen<C>(h: V.History<C>, r: nat, done: set<V.Key>, visible: map<Id, C>) {
    && (forall id | id in visible :: V.Lookup(h, id, r) == Some(visible[id]))
    && (forall k | k in done && V.Shows(h, k, k.id, r) :: k.id in visible)
  }

  lemma SeenStart<C>(h: V.History<C>, r: nat)
    ensures Seen(h, r, {}, map[])
  {
  }

  lemma SeenMore<C>(h: V.History<C>, r: nat, top: nat, done: set<V.Key>, visible: map<Id, C>, k: V.Key)
    requires V.Valid(h, top) && r <= top && Seen(h, r, done, visible) && k in h.rows
    ensures Seen(h, r, done + {k}, if V.Covers(k, h.rows[k], r) then visible[k.id := h.rows[k].content] else visible)
  {
    hide V.Valid, V.Lookup, V.Covers;
    if V.Covers(k, h.rows[k], r) { V.LookupIs(h, top, k, r); }
  }

  lemma SeenAll<C>(h: V.History<C>, r: nat, top: nat, visible: map<Id, C>)
    requires V.Valid(h, top) && r <= top && Seen(h, r, h.rows.Keys, visible)
    ensures visible == V.At(h, r)
  {
    hide V.Valid, V.Covers;
    forall id ensures id in visible <==> id in V.At(h, r) {
      if id in visible { V.LookupNeedsIdentity(h, top, id, r); }
      if id in V.At(h, r) { var k :| V.Shows(h, k, id, r); assert V.Shows(h, k, k.id, r); }
    }
  }
}
