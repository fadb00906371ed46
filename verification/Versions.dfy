/** One identity table with its version table (nodes/node_versions or
    edges/edge_versions).  A version is keyed by (id, valid_from); it is visible
    at revision r when valid_from <= r and valid_to is absent or above r. */
module Versions {
  import opened Base

  datatype Key = Key(id: Id, from: nat)
  datatype Row<C> = Row(to: Option<nat>, content: C)
  datatype History<C> = History(created: map<Id, nat>, rows: map<Key, Row<C>>)

  predicate Covers<C>(k: Key, row: Row<C>, r: nat) {
    k.from <= r && (row.to.None? || r < row.to.value)
  }

  ghost predicate Shows<C>(h: History<C>, k: Key, id: Id, r: nat) {
    k in h.rows && k.id == id && Covers(k, h.rows[k], r)
  }

  /** What a reader pinned to revision r sees for one identity. */
  ghost function Lookup<C>(h: History<C>, id: Id, r: nat): Option<C> {
    if exists k :: Shows(h, k, id, r) then
      var k :| Shows(h, k, id, r);
      Some(h.rows[k].content)
    else None
  }

  /** All that a reader pinned to revision r sees. */
  ghost function At<C>(h: History<C>, r: nat): (m: map<Id, C>)
    ensures m.Keys <= h.created.Keys
  {
    map id | id in h.created && Lookup(h, id, r).Some? :: Lookup(h, id, r).value
  }

  ghost predicate Follows<C>(h: History<C>, p: Key, k: Key) {
    p in h.rows && p.id == k.id && h.rows[p].to == Some(k.from)
  }

  ghost predicate InRange<C>(h: History<C>, k: Key, top: nat)
    requires k in h.rows
  {
    && k.id in h.created
    && 1 <= h.created[k.id] <= k.from <= top
    && (h.rows[k].to.Some? ==> k.from < h.rows[k].to.value <= top)
  }

  ghost predicate HasPrevious<C>(h: History<C>, k: Key) {
    exists p :: Follows(h, p, k)
  }

  ghost predicate Ranged<C>(h: History<C>, top: nat) {
    forall k | k in h.rows :: InRange(h, k, top)
  }

  ghost predicate Rooted<C>(h: History<C>) {
    forall id | id in h.created :: Key(id, h.created[id]) in h.rows
  }

  ghost predicate EndsBefore<C>(h: History<C>, a: Key, b: Key)
    requires a in h.rows
  {
    h.rows[a].to.Some? && h.rows[a].to.value <= b.from
  }

  ghost predicate Disjoint<C>(h: History<C>) {
    forall a, b | a in h.rows && b in h.rows && a.id == b.id && a.from < b.from :: EndsBefore(h, a, b)
  }

  ghost predicate Chained<C>(h: History<C>) {
    forall k {:trigger HasPrevious(h, k)} |
      k in h.rows && k.id in h.created && h.created[k.id] < k.from :: HasPrevious(h, k)
  }

  /** The integrity rule of a version table: every identity starts with a version
      at its creation revision, versions of one identity do not overlap, and each
      later version starts where an earlier one ends. */
  ghost predicate Valid<C>(h: History<C>, top: nat) {
    Ranged(h, top) && Rooted(h) && Disjoint(h) && Chained(h)
  }

  // ---- the statements the store executes ----

  function InsertIdentity<C>(h: History<C>, id: Id, rev: nat, c: C): History<C> {
    History(h.created[id := rev], h.rows[Key(id, rev) := Row(None, c)])
  }

  function UpdateContent<C>(h: History<C>, k: Key, c: C): History<C>
    requires k in h.rows
  {
    h.(rows := h.rows[k := Row(h.rows[k].to, c)])
  }

  function SetValidTo<C>(h: History<C>, k: Key, rev: nat): History<C>
    requires k in h.rows
  {
    h.(rows := h.rows[k := Row(Some(rev), h.rows[k].content)])
  }

  function InsertVersion<C>(h: History<C>, id: Id, rev: nat, c: C): History<C> {
    h.(rows := h.rows[Key(id, rev) := Row(None, c)])
  }

  function DeleteVersion<C>(h: History<C>, k: Key): History<C> {
    h.(rows := h.rows - {k})
  }

  /** Deletes the identity row; its versions go with it. */
  function DeleteIdentity<C>(h: History<C>, id: Id): History<C> {
    History(h.created - {id}, map k | k in h.rows && k.id != id :: h.rows[k])
  }

  /** Replaces the open version: in place when this batch already owns it. */
  function Replace<C>(h: History<C>, k: Key, rev: nat, c: C): History<C>
    requires k in h.rows
  {
    if k.from == rev then UpdateContent(h, k, c)
    else InsertVersion(SetValidTo(h, k, rev), k.id, rev, c)
  }

  /** Ends the open version: what this batch created leaves no trace. */
  function Close<C>(h: History<C>, k: Key, rev: nat): History<C>
    requires k in h.rows && k.id in h.created
  {
    if k.from == rev then
      if h.created[k.id] == rev then DeleteIdentity(h, k.id) else DeleteVersion(h, k)
    else SetValidTo(h, k, rev)
  }

  // ---- lookups ----

  lemma ShowsOnce<C>(h: History<C>, top: nat, a: Key, b: Key, id: Id, r: nat)
    requires Valid(h, top) && Shows(h, a, id, r) && Shows(h, b, id, r)
    ensures a == b
  {
  }

  lemma LookupIs<C>(h: History<C>, top: nat, k: Key, r: nat)
    requires Valid(h, top) && Shows(h, k, k.id, r)
    ensures Lookup(h, k.id, r) == Some(h.rows[k].content)
  {
    var other :| Shows(h, other, k.id, r) && Lookup(h, k.id, r) == Some(h.rows[other].content);
    ShowsOnce(h, top, k, other, k.id, r);
  }

  /** Two tables that show the same rows for an identity look the same there. */
  lemma SameLookup<C>(h: History<C>, g: History<C>, top: nat, id: Id, r: nat)
    requires Valid(h, top) && Valid(g, top)
    requires forall k :: Shows(h, k, id, r) <==> Shows(g, k, id, r)
    requires forall k | Shows(h, k, id, r) && Shows(g, k, id, r) :: h.rows[k].content == g.rows[k].content
    ensures Lookup(h, id, r) == Lookup(g, id, r)
  {
    if k :| Shows(h, k, id, r) {
      LookupIs(h, top, k, r);
      LookupIs(g, top, k, r);
    }
  }

  lemma LookupNeedsIdentity<C>(h: History<C>, top: nat, id: Id, r: nat)
    requires Valid(h, top) && Lookup(h, id, r).Some?
    ensures id in h.created
  {
  }

  /** With no version above `top`, an identity is current exactly when its open
      version is visible at `top`. */
  lemma OpenIsVisible<C>(h: History<C>, top: nat, k: Key)
    requires Valid(h, top) && k in h.rows
    ensures h.rows[k].to.None? <==> Covers(k, h.rows[k], top)
  {
    assert InRange(h, k, top);
  }

  lemma RowIsVisible<C>(h: History<C>, top: nat, k: Key, r: nat)
    requires Valid(h, top) && k in h.rows && Covers(k, h.rows[k], r)
    ensures k.id in At(h, r) && At(h, r)[k.id] == h.rows[k].content
  {
    assert InRange(h, k, top);
    assert Shows(h, k, k.id, r);
    LookupIs(h, top, k, r);
  }

  lemma RowRange<C>(h: History<C>, top: nat, k: Key)
    requires Valid(h, top) && k in h.rows
    ensures InRange(h, k, top)
  {
  }

  /** The open versions are the current snapshot. */
  lemma OpenRowIsCurrent<C>(h: History<C>, top: nat, k: Key)
    requires Valid(h, top) && k in h.rows && h.rows[k].to.None?
    ensures k.id in At(h, top) && At(h, top)[k.id] == h.rows[k].content
  {
    assert InRange(h, k, top);
    assert Shows(h, k, k.id, top);
    LookupIs(h, top, k, top);
  }

  lemma CurrentHasOpenRow<C>(h: History<C>, top: nat, id: Id) returns (k: Key)
    requires Valid(h, top) && id in At(h, top)
    ensures k in h.rows && k.id == id && h.rows[k].to.None? && h.rows[k].content == At(h, top)[id]
  {
    k :| Shows(h, k, id, top);
    OpenIsVisible(h, top, k);
    LookupIs(h, top, k, top);
  }

  /** An identity exists exactly when some revision shows it. */
  lemma CreatedWasVisible<C>(h: History<C>, top: nat, id: Id)
    requires Valid(h, top)
    ensures id in h.created <==> exists r: nat :: r <= top && Lookup(h, id, r).Some?
  {
    if id in h.created {
      var k := Key(id, h.created[id]);
      assert InRange(h, k, top);
      assert Shows(h, k, id, k.from);
      LookupIs(h, top, k, k.from);
    }
  }

  // ---- effect of each statement group ----

  /** From h to g, at the batch revision only `id` may look different, and no
      earlier revision looks different at all. */
  ghost predicate OnlyChanges<C>(h: History<C>, g: History<C>, id: Id, rev: nat, after: Option<C>) {
    && (forall i, r: nat | r < rev || (r == rev && i != id) :: Lookup(g, i, r) == Lookup(h, i, r))
    && Lookup(g, id, rev) == after
  }

  lemma NoRowsYet<C>(h: History<C>, id: Id, rev: nat)
    requires Ranged(h, rev) && id !in h.created
    ensures forall k | k in h.rows :: k.id != id
  {
    forall k | k in h.rows ensures k.id != id { assert InRange(h, k, rev); }
  }

  lemma InsertedIsRanged<C>(h: History<C>, id: Id, rev: nat, c: C)
    requires Ranged(h, rev) && id !in h.created && 1 <= rev
    ensures Ranged(InsertIdentity(h, id, rev, c), rev)
  {
    var g := InsertIdentity(h, id, rev, c);
    NoRowsYet(h, id, rev);
    forall k | k in g.rows ensures InRange(g, k, rev) {
      if k.id != id { assert InRange(h, k, rev); }
    }
  }

  lemma InsertedIsDisjoint<C>(h: History<C>, id: Id, rev: nat, c: C)
    requires Disjoint(h) && forall k | k in h.rows :: k.id != id
    ensures Disjoint(InsertIdentity(h, id, rev, c))
  {
    var g := InsertIdentity(h, id, rev, c);
    forall a, b | a in g.rows && b in g.rows && a.id == b.id && a.from < b.from ensures EndsBefore(g, a, b) {
      assert EndsBefore(h, a, b);
    }
  }

  lemma InsertedIsChained<C>(h: History<C>, id: Id, rev: nat, c: C)
    requires Chained(h) && forall k | k in h.rows :: k.id != id
    ensures Chained(InsertIdentity(h, id, rev, c))
  {
    var g := InsertIdentity(h, id, rev, c);
    forall k | k in g.rows && k.id in g.created && g.created[k.id] < k.from ensures HasPrevious(g, k) {
      assert HasPrevious(h, k);
      var p :| Follows(h, p, k);
      assert Follows(g, p, k);
    }
  }

  lemma InsertedIsRooted<C>(h: History<C>, id: Id, rev: nat, c: C)
    requires Rooted(h) && id !in h.created
    ensures Rooted(InsertIdentity(h, id, rev, c))
  {
  }

  lemma ValidIs<C>(h: History<C>, top: nat)
    ensures Valid(h, top) <==> Ranged(h, top) && Rooted(h) && Disjoint(h) && Chained(h)
  {
    hide Ranged, Rooted, Disjoint, Chained;
  }

  lemma InsertedIsValid<C>(h: History<C>, id: Id, rev: nat, c: C)
    requires Valid(h, rev) && id !in h.created && 1 <= rev
    ensures Valid(InsertIdentity(h, id, rev, c), rev)
  {
    hide *;
    ValidIs(h, rev);
    NoRowsYet(h, id, rev);
    InsertedIsRanged(h, id, rev, c);
    InsertedIsRooted(h, id, rev, c);
    InsertedIsDisjoint(h, id, rev, c);
    InsertedIsChained(h, id, rev, c);
    ValidIs(InsertIdentity(h, id, rev, c), rev);
  }

  /** The same, on whole snapshots. */
  ghost predicate Changes<C>(h: History<C>, g: History<C>, id: Id, rev: nat, after: Option<C>) {
    && (forall r: nat | r < rev :: At(g, r) == At(h, r))
    && At(g, rev) == if after.Some? then At(h, rev)[id := after.value] else At(h, rev) - {id}
  }

  lemma SnapshotsChange<C>(h: History<C>, g: History<C>, id: Id, rev: nat, after: Option<C>)
    requires Valid(h, rev) && Valid(g, rev) && OnlyChanges(h, g, id, rev, after)
    ensures Changes(h, g, id, rev, after)
  {
    hide Valid, Lookup;
    forall r: nat, i | r <= rev ensures i in At(h, r) <==> Lookup(h, i, r).Some? {
      if Lookup(h, i, r).Some? { LookupNeedsIdentity(h, rev, i, r); }
    }
    forall r: nat, i | r <= rev ensures i in At(g, r) <==> Lookup(g, i, r).Some? {
      if Lookup(g, i, r).Some? { LookupNeedsIdentity(g, rev, i, r); }
    }
  }

  lemma Inserted<C>(h: History<C>, id: Id, rev: nat, c: C)
    requires Valid(h, rev) && id !in h.created && 1 <= rev
    ensures Valid(InsertIdentity(h, id, rev, c), rev)
    ensures Changes(h, InsertIdentity(h, id, rev, c), id, rev, Some(c))
  {
    hide Valid, Lookup, At, Changes;
    var g := InsertIdentity(h, id, rev, c);
    InsertedIsValid(h, id, rev, c);
    ValidIs(h, rev);
    NoRowsYet(h, id, rev);
    hide Ranged, Rooted, Disjoint, Chained;
    forall i, r: nat | r < rev || i != id ensures Lookup(g, i, r) == Lookup(h, i, r) {
      SameLookup(h, g, rev, i, r);
    }
    assert Shows(g, Key(id, rev), id, rev);
    LookupIs(g, rev, Key(id, rev), rev);
    SnapshotsChange(h, g, id, rev, Some(c));
  }

  lemma OlderVersionsEnded<C>(h: History<C>, k: Key, rev: nat, x: Key)
    requires Valid(h, rev) && k in h.rows && h.rows[k].to.None?
    requires x in h.rows && x.id == k.id && x != k
    ensures x.from < k.from && EndsBefore(h, x, k)
  {
    assert k.from < x.from ==> EndsBefore(h, k, x);
  }

  lemma UpdatedIsValid<C>(h: History<C>, k: Key, rev: nat, c: C)
    requires Valid(h, rev) && k in h.rows
    ensures Valid(UpdateContent(h, k, c), rev)
  {
    var g := UpdateContent(h, k, c);
    forall x | x in g.rows ensures InRange(g, x, rev) {
      assert InRange(h, x, rev);
    }
    forall a, b | a in g.rows && b in g.rows && a.id == b.id && a.from < b.from ensures EndsBefore(g, a, b) {
      assert EndsBefore(h, a, b);
    }
    forall x | x in g.rows && g.created[x.id] < x.from ensures HasPrevious(g, x) {
      assert HasPrevious(h, x);
      var p :| Follows(h, p, x);
      assert Follows(g, p, x);
    }
  }

  lemma SupersededIsValid<C>(h: History<C>, k: Key, rev: nat, c: C)
    requires Valid(h, rev) && k in h.rows && h.rows[k].to.None? && k.from < rev
    ensures Valid(InsertVersion(SetValidTo(h, k, rev), k.id, rev, c), rev)
  {
    var g := InsertVersion(SetValidTo(h, k, rev), k.id, rev, c);
    assert InRange(h, k, rev);
    forall x | x in g.rows ensures InRange(g, x, rev) {
      if x in h.rows { assert InRange(h, x, rev); }
    }
    forall a, b | a in g.rows && b in g.rows && a.id == b.id && a.from < b.from ensures EndsBefore(g, a, b) {
      assert a in h.rows;
      if a != k && a.id == k.id { OlderVersionsEnded(h, k, rev, a); }
      if b in h.rows { assert EndsBefore(h, a, b); }
    }
    forall x | x in g.rows && g.created[x.id] < x.from ensures HasPrevious(g, x) {
      if x in h.rows {
        assert HasPrevious(h, x);
        var p :| Follows(h, p, x);
        assert p != k;
        assert Follows(g, p, x);
      } else {
        assert Follows(g, k, x);
      }
    }
  }

  lemma Replaced<C>(h: History<C>, k: Key, rev: nat, c: C)
    requires Valid(h, rev) && k in h.rows && h.rows[k].to.None?
    ensures Valid(Replace(h, k, rev, c), rev)
    ensures Changes(h, Replace(h, k, rev, c), k.id, rev, Some(c))
  {
    var g := Replace(h, k, rev, c);
    assert InRange(h, k, rev);
    if k.from == rev { UpdatedIsValid(h, k, rev, c); } else { SupersededIsValid(h, k, rev, c); }
    ReplacedLookups(h, k, rev, c);
    assert Shows(g, Key(k.id, rev), k.id, rev);
    LookupIs(g, rev, Key(k.id, rev), rev);
    hide *;
    SnapshotsChange(h, g, k.id, rev, Some(c));
  }

  lemma ReplacedLookups<C>(h: History<C>, k: Key, rev: nat, c: C)
    requires Valid(h, rev) && k in h.rows && h.rows[k].to.None? && k.from <= rev && Valid(Replace(h, k, rev, c), rev)
    ensures forall i, r: nat | r < rev || (r == rev && i != k.id) :: Lookup(Replace(h, k, rev, c), i, r) == Lookup(h, i, r)
  {
    var g := Replace(h, k, rev, c);
    hide Valid, Lookup;
    forall i, r: nat | r < rev || (r == rev && i != k.id) ensures Lookup(g, i, r) == Lookup(h, i, r) {
      SameLookup(h, g, rev, i, r);
    }
  }

  lemma DeletedIdentityIsValid<C>(h: History<C>, id: Id, rev: nat)
    requires Valid(h, rev)
    ensures Valid(DeleteIdentity(h, id), rev)
  {
    var g := DeleteIdentity(h, id);
    forall x | x in g.rows ensures InRange(g, x, rev) {
      assert InRange(h, x, rev);
    }
    forall a, b | a in g.rows && b in g.rows && a.id == b.id && a.from < b.from ensures EndsBefore(g, a, b) {
      assert EndsBefore(h, a, b);
    }
    forall x | x in g.rows && g.created[x.id] < x.from ensures HasPrevious(g, x) {
      assert HasPrevious(h, x);
      var p :| Follows(h, p, x);
      assert Follows(g, p, x);
    }
  }

  lemma DeletedVersionIsValid<C>(h: History<C>, k: Key, rev: nat)
    requires Valid(h, rev) && k in h.rows && h.rows[k].to.None? && k.id in h.created && h.created[k.id] < k.from
    ensures Valid(DeleteVersion(h, k), rev)
  {
    var g := DeleteVersion(h, k);
    forall x | x in g.rows ensures InRange(g, x, rev) {
      assert InRange(h, x, rev);
    }
    forall a, b | a in g.rows && b in g.rows && a.id == b.id && a.from < b.from ensures EndsBefore(g, a, b) {
      assert EndsBefore(h, a, b);
    }
    forall x | x in g.rows && g.created[x.id] < x.from ensures HasPrevious(g, x) {
      assert HasPrevious(h, x);
      var p :| Follows(h, p, x);
      assert Follows(g, p, x);
    }
  }

  lemma EndedIsValid<C>(h: History<C>, k: Key, rev: nat)
    requires Valid(h, rev) && k in h.rows && h.rows[k].to.None? && k.from < rev
    ensures Valid(SetValidTo(h, k, rev), rev)
  {
    var g := SetValidTo(h, k, rev);
    assert InRange(h, k, rev);
    forall x | x in g.rows ensures InRange(g, x, rev) {
      assert InRange(h, x, rev);
    }
    forall a, b | a in g.rows && b in g.rows && a.id == b.id && a.from < b.from ensures EndsBefore(g, a, b) {
      assert EndsBefore(h, a, b);
    }
    forall x | x in g.rows && g.created[x.id] < x.from ensures HasPrevious(g, x) {
      assert HasPrevious(h, x);
      var p :| Follows(h, p, x);
      assert p != k;
      assert Follows(g, p, x);
    }
  }

  lemma Closed<C>(h: History<C>, k: Key, rev: nat)
    requires Valid(h, rev) && k in h.rows && h.rows[k].to.None?
    ensures k.id in h.created
    ensures Valid(Close(h, k, rev), rev)
    ensures Changes(h, Close(h, k, rev), k.id, rev, None)
  {
    assert InRange(h, k, rev);
    var g := Close(h, k, rev);
    if k.from == rev {
      if h.created[k.id] == rev { DeletedIdentityIsValid(h, k.id, rev); } else { DeletedVersionIsValid(h, k, rev); }
    } else {
      EndedIsValid(h, k, rev);
    }
    forall x | x in h.rows && x.id == k.id && x != k ensures x.from < k.from && EndsBefore(h, x, k) {
      OlderVersionsEnded(h, k, rev, x);
    }
    if k.from == rev && h.created[k.id] == rev {
      forall x | x in h.rows && x.id == k.id ensures x == k { assert InRange(h, x, rev); }
    }
    ClosedLookups(h, k, rev);
    assert forall x :: !Shows(g, x, k.id, rev);
    hide Valid, At, Changes, Shows;
    SnapshotsChange(h, g, k.id, rev, None);
  }

  lemma ClosedLookups<C>(h: History<C>, k: Key, rev: nat)
    requires Valid(h, rev) && k in h.rows && h.rows[k].to.None? && k.id in h.created && k.from <= rev
    requires k.from == rev && h.created[k.id] == rev ==> forall x | x in h.rows && x.id == k.id :: x == k
    requires Valid(Close(h, k, rev), rev)
    ensures forall i, r: nat | r < rev || (r == rev && i != k.id) :: Lookup(Close(h, k, rev), i, r) == Lookup(h, i, r)
  {
    hide Valid, Lookup;
    var g := Close(h, k, rev);
    forall i, r: nat | r < rev || (r == rev && i != k.id) ensures Lookup(g, i, r) == Lookup(h, i, r) {
      SameLookup(h, g, rev, i, r);
    }
  }

  lemma CloseKeepsOthers<C>(h: History<C>, k: Key, rev: nat, x: Key)
    requires k in h.rows && k.id in h.created && x in h.rows && x.id != k.id
    ensures x in Close(h, k, rev).rows && Close(h, k, rev).rows[x] == h.rows[x]
  {
  }

  // ---- touched identities ----

  predicate IsTouchedBy<C>(k: Key, row: Row<C>, rev: nat) {
    k.from == rev || row.to == Some(rev)
  }

  function Touched<C>(h: History<C>, rev: nat): set<Id> {
    set k | k in h.rows && IsTouchedBy(k, h.rows[k], rev) :: k.id
  }

  /** An identity no statement of the batch touched looks as it did before. */
  lemma UntouchedIsUnchanged<C>(h: History<C>, base: nat, top: nat, id: Id)
    requires top == base + 1 && Valid(h, top) && id !in Touched(h, top)
    ensures Lookup(h, id, base) == Lookup(h, id, top)
  {
    forall k ensures Shows(h, k, id, base) <==> Shows(h, k, id, top) {
      if k in h.rows && k.id == id {
        assert InRange(h, k, top);
        assert !IsTouchedBy(k, h.rows[k], top);
      }
    }
    if k :| Shows(h, k, id, base) {
      LookupIs(h, top, k, base);
      LookupIs(h, top, k, top);
    }
  }

  /** Comparing the touched identities decides whether two whole snapshots differ. */
  lemma TouchedDecides<C>(h: History<C>, base: nat)
    requires Valid(h, base + 1)
    ensures (exists id :: id in Touched(h, base + 1) && Lookup(h, id, base) != Lookup(h, id, base + 1))
            <==> At(h, base) != At(h, base + 1)
  {
    var a, b := At(h, base), At(h, base + 1);
    if a != b {
      var id :| id in h.created && ((id in a) != (id in b) || (id in a && a[id] != b[id]));
      if id !in Touched(h, base + 1) { UntouchedIsUnchanged(h, base, base + 1, id); }
      assert Lookup(h, id, base) != Lookup(h, id, base + 1);
    }
    if id :| id in Touched(h, base + 1) && Lookup(h, id, base) != Lookup(h, id, base + 1) {
      var k :| k in h.rows && k.id == id;
      assert InRange(h, k, base + 1);
      assert (id in a) != (id in b) || a[id] != b[id];
    }
  }

  lemma ValidAbove<C>(h: History<C>, base: nat, top: nat)
    requires Valid(h, base) && base <= top
    ensures Valid(h, top)
    ensures forall r: nat | base <= r :: At(h, r) == At(h, base)
  {
    forall k | k in h.rows ensures InRange(h, k, top) {
      assert InRange(h, k, base);
    }
    forall id, r: nat | base <= r ensures Lookup(h, id, r) == Lookup(h, id, base) {
      forall k ensures Shows(h, k, id, r) <==> Shows(h, k, id, base) {
        if k in h.rows { assert InRange(h, k, base); }
      }
      if k :| Shows(h, k, id, base) {
        LookupIs(h, base, k, base);
        LookupIs(h, base, k, r);
      }
    }
  }
}
