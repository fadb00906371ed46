/** Keyset pages over one revision: the scan behind one page, the cursor that
    links it to the next, the pullers that follow the cursors, and ListNodes,
    which pins a cursor to the revision of its first page. */
module GraphPaging {
  import opened Base
  import opened Text
  import opened Sorted
  import opened EntityId
  import opened GraphRules
  import opened IndexLookup
  import opened Tables
  import opened Snapshots
  import opened Store
  import opened Runs
  import V = Versions

  // ---- what a predicate asks for ----

  /** A compiled predicate: the SQL condition, the re-check of property values, and
      whether the re-check can refuse anything. */
  datatype Plan<!C> = Plan(kind: string, fingerprint: string, sql: (Id, C) -> bool, exact: C -> bool, residual: bool)

  /** Fingerprints are 43 characters: a SHA-256 sum in base64. */
  predicate Named<C>(plan: Plan<C>) {
    0 < |plan.fingerprint| <= 64 && plan.kind in ["nodes", "edges"]
  }

  ghost predicate Sound<C(!new)>(plan: Plan<C>) {
    && Named(plan)
    && (!plan.residual ==> forall id, c | plan.sql(id, c) :: plan.exact(c))
  }

  /** The entities a predicate selects. */
  function Wanted<C>(visible: map<Id, C>, plan: Plan<C>): set<Id> {
    set id | id in visible && plan.sql(id, visible[id]) && plan.exact(visible[id])
  }

  function After(ids: set<Id>, bound: Id): set<Id> {
    set id | id in ids && Less(bound, id)
  }

  function First(ids: seq<Id>, n: nat): seq<Id> {
    if n <= |ids| then ids[..n] else ids
  }

  // ---- node and edge predicates ----

  /** A node version as its indexes see it. */
  datatype NodeFields = NodeFields(labels: set<string>, properties: Properties)
  datatype NodePredicate = NodePredicate(ids: set<Id>, labels: seq<string>, properties: Properties)
  datatype EdgePredicate = EdgePredicate(ids: set<Id>, from: set<Id>, to: set<Id>, types: set<string>, properties: Properties)

  predicate Allows<T(==)>(allowed: set<T>, x: T) {
    allowed == {} || x in allowed
  }

  function NodePlan(p: NodePredicate, c: Compiled, fields: NodeContent -> NodeFields,
          fingerprint: string): Plan<NodeContent> {
    Plan("nodes", fingerprint,
         (id: Id, n: NodeContent) => Allows(p.ids, id) && Selected(fields(n).labels, IndexRows(fields(n).properties), p.labels, c.scalars),
         (n: NodeContent) => Matches(fields(n).properties, c.exact), c.hasResidual)
  }

  function EdgePlan(p: EdgePredicate, c: Compiled, properties: EdgeContent -> Properties,
          fingerprint: string): Plan<EdgeContent> {
    Plan("edges", fingerprint,
         (id: Id, e: EdgeContent) => Allows(p.ids, id) && Allows(p.from, e.from) && Allows(p.to, e.to) && Allows(p.types, e.typ)
                                     && Selected<string>({}, IndexRows(properties(e)), [], c.scalars),
         (e: EdgeContent) => Matches(properties(e), c.exact), c.hasResidual)
  }

  /** One of the IDs, if there are any, all the labels, and each property in the encoding
      asked for. */
  predicate NodeAsked(p: NodePredicate, fields: NodeFields, id: Id) {
    && (p.ids == {} || id in p.ids) && (forall l | l in p.labels :: l in fields.labels)
    && (forall k | k in p.properties :: k in fields.properties && fields.properties[k] == p.properties[k])
  }

  predicate EdgeAsked(p: EdgePredicate, properties: Properties, id: Id, e: EdgeContent) {
    && (p.ids == {} || id in p.ids) && (p.types == {} || e.typ in p.types)
    && (p.from == {} || e.from in p.from) && (p.to == {} || e.to in p.to)
    && (forall k | k in p.properties :: k in properties && properties[k] == p.properties[k])
  }

  /** A node plan selects the nodes that meet every part of the predicate. */
  lemma NodePlanIsExact(p: NodePredicate, c: Compiled, fields: NodeContent -> NodeFields, fingerprint: string)
    requires IsCompiled(p.properties, c) && NoDup(p.labels) && 0 < |fingerprint| <= 64
    ensures var plan := NodePlan(p, c, fields, fingerprint);
            Sound(plan) && forall id, n :: plan.sql(id, n) && plan.exact(n) <==> NodeAsked(p, fields(n), id)
  {
    hide NodeAsked, Selected, Matches, Allows, IsCompiled;
    var plan := NodePlan(p, c, fields, fingerprint);
    forall id, n
      ensures !plan.residual && plan.sql(id, n) ==> plan.exact(n)
      ensures plan.sql(id, n) && plan.exact(n) <==> NodeAsked(p, fields(n), id)
    {
      NodeSelected(p, c, fields, fingerprint, id, n);
    }
  }

  lemma NodeSelected(p: NodePredicate, c: Compiled, fields: NodeContent -> NodeFields, fingerprint: string, id: Id, n: NodeContent)
    requires IsCompiled(p.properties, c) && NoDup(p.labels)
    ensures var plan := NodePlan(p, c, fields, fingerprint);
            && (!plan.residual && plan.sql(id, n) ==> plan.exact(n))
            && (plan.sql(id, n) && plan.exact(n) <==> NodeAsked(p, fields(n), id))
  {
    LookupIsExact(fields(n).labels, fields(n).properties, p.labels, p.properties, c);
    hide Selected, IndexRows, IsCompiled;
  }

  /** And so does an edge plan. */
  lemma EdgePlanIsExact(p: EdgePredicate, c: Compiled, properties: EdgeContent -> Properties, fingerprint: string)
    requires IsCompiled(p.properties, c) && 0 < |fingerprint| <= 64
    ensures var plan := EdgePlan(p, c, properties, fingerprint);
            Sound(plan) && forall id, e :: plan.sql(id, e) && plan.exact(e) <==> EdgeAsked(p, properties(e), id, e)
  {
    hide EdgeAsked, Selected, Matches, Allows, IsCompiled;
    var plan := EdgePlan(p, c, properties, fingerprint);
    forall id, e
      ensures !plan.residual && plan.sql(id, e) ==> plan.exact(e)
      ensures plan.sql(id, e) && plan.exact(e) <==> EdgeAsked(p, properties(e), id, e)
    {
      EdgeSelected(p, c, properties, fingerprint, id, e);
    }
  }

  lemma EdgeSelected(p: EdgePredicate, c: Compiled, properties: EdgeContent -> Properties, fingerprint: string, id: Id, e: EdgeContent)
    requires IsCompiled(p.properties, c)
    ensures var plan := EdgePlan(p, c, properties, fingerprint);
            && (!plan.residual && plan.sql(id, e) ==> plan.exact(e))
            && (plan.sql(id, e) && plan.exact(e) <==> EdgeAsked(p, properties(e), id, e))
  {
    LookupIsExact<string>({}, properties(e), [], p.properties, c);
    hide Selected, IndexRows, IsCompiled;
  }

  // ---- cursors ----

  datatype GraphCursor = GraphCursor(version: nat, kind: string, revision: nat, fingerprint: string, after: string)

  /** The text form of a cursor: canonical JSON in base64, taken as given. */
  datatype CursorText = CursorText(encode: GraphCursor -> string, parse: string -> Option<GraphCursor>)

  /** Cursors of this version with a 64-bit revision and short texts; their JSON is
      far below the 4096 bytes a reader takes. */
  predicate Short(c: GraphCursor) {
    c.version == 1 && c.revision <= MAX_UINT64 && |c.kind| <= 8 && |c.fingerprint| <= 64 && |c.after| <= 36
  }

  /** These read back.  Of other cursors and other texts nothing is assumed. */
  ghost predicate Faithful(t: CursorText) {
    forall c: GraphCursor | Short(c) :: t.encode(c) != "" && t.parse(t.encode(c)) == Some(c)
  }

  /** parseGraphCursor. */
  function ParseCursor(t: CursorText, cursor: string): Result<GraphCursor> {
    var c := t.parse(cursor);
    if c.None? || c.value.version != 1 || c.value.fingerprint == "" || c.value.after == "" then Err(InvalidArgument) else Ok(c.value)
  }

  function CursorFor<C>(plan: Plan<C>, revision: nat, after: Id): GraphCursor {
    GraphCursor(1, plan.kind, revision, plan.fingerprint, after)
  }

  /** decodeGraphCursor. */
  function DecodeCursor<C>(t: CursorText, cursor: string, plan: Plan<C>, revision: nat): Result<Id> {
    if cursor == "" then Ok("")
    else
      var c := ParseCursor(t, cursor);
      if c.Err? then Err(c.error)
      else if c.value.kind != plan.kind || c.value.revision != revision || c.value.fingerprint != plan.fingerprint then Err(InvalidArgument)
      else if !IsEntityId(c.value.after) then Err(InvalidArgument)
      else Ok(c.value.after)
  }

  /** What is accepted is no cursor, or one that names exactly this view, kind and
      predicate. */
  lemma AcceptedCursors<C>(t: CursorText, cursor: string, plan: Plan<C>, revision: nat, after: Id)
    requires Named(plan)
    ensures DecodeCursor(t, cursor, plan, revision) == Ok(after) <==>
            if cursor == "" then after == "" else IsEntityId(after) && t.parse(cursor) == Some(CursorFor(plan, revision, after))
  {
    hide IsEntityId;
    if IsEntityId(after) { NotEmpty(after); }
  }

  /** An issued cursor continues after its entity where it was issued, and is an
      error for every other revision, kind or predicate. */
  lemma CursorsAreBound<C, D>(t: CursorText, plan: Plan<C>, revision: nat, after: Id, other: Plan<D>, otherRevision: nat)
    requires Faithful(t) && Named(plan) && Named(other) && IsEntityId(after) && revision <= MAX_UINT64
    ensures DecodeCursor(t, t.encode(CursorFor(plan, revision, after)), other, otherRevision) ==
            if plan.kind == other.kind && plan.fingerprint == other.fingerprint && revision == otherRevision then Ok(after)
            else Err(InvalidArgument)
  {
    hide IsEntityId;
    NotEmpty(after);
    assert Short(CursorFor(plan, revision, after));
  }

  lemma NotEmpty(id: Id)
    requires IsEntityId(id)
    ensures |id| == 36 && Less("", id)
  {
  }

  // ---- one page ----

  datatype Page = Page(limit: int, after: string)
  datatype PageOf = PageOf(ids: seq<Id>, next: string)

  const DEFAULT_PAGE_SIZE: nat := 100
  const MAX_PAGE_SIZE: nat := 1000

  function PageLimit(limit: int): (r: Result<nat>)
    ensures r.Ok? ==> r.value > 0
  {
    if limit < 0 || limit > MAX_PAGE_SIZE then Err(InvalidArgument) else Ok(if limit == 0 then DEFAULT_PAGE_SIZE else limit)
  }

  /** The rows of nodeSQL and edgeSQL: in ID order, after the cursor, bounded only
      when the condition is exact. */
  function Rows<C>(visible: map<Id, C>, plan: Plan<C>, after: Id, limit: nat): seq<Id> {
    var rows := SortedIds(set id | id in visible && plan.sql(id, visible[id]) && Less(after, id));
    if plan.residual then rows else First(rows, limit)
  }

  /** A page: the first entities left, and a cursor at the last one if there are more. */
  function PageAfter<C>(t: CursorText, visible: map<Id, C>, plan: Plan<C>, revision: nat, after: Id, limit: nat): PageOf
    requires limit > 0
  {
    var rest := SortedIds(After(Wanted(visible, plan), after));
    if |rest| <= limit then PageOf(rest, "")
    else PageOf(rest[..limit], t.encode(CursorFor(plan, revision, rest[limit - 1])))
  }

  /** What a page request gets: an error for a bad limit or a cursor of another
      view, or the page after the cursor. */
  function Scanned<C>(t: CursorText, visible: map<Id, C>, revision: nat, plan: Plan<C>, page: Page): Result<PageOf> {
    var limit := PageLimit(page.limit);
    var after := DecodeCursor(t, page.after, plan, revision);
    if limit.Err? || after.Err? then Err(InvalidArgument)
    else Ok(PageAfter(t, visible, plan, revision, after.value, limit.value))
  }

  /** scanNodes and scanEdges. */
  method Scan<C(!new)>(t: CursorText, visible: map<Id, C>, revision: nat, plan: Plan<C>,
          page: Page) returns (r: Result<PageOf>)
    requires Sound(plan)
    ensures r == Scanned(t, visible, revision, plan, page)
  {
    hide Rows, Wanted, After, SortedIds, Filter, IsEntityId;
    var size := PageLimit(page.limit);
    if size.Err? { return Err(size.error); }
    var limit := size.value;
    var after := DecodeCursor(t, page.after, plan, revision);
    if after.Err? { return Err(after.error); }
    var rows := Rows(visible, plan, after.value, limit + 1);
    ghost var wanted := Wanted(visible, plan);
    RowsAreVisible(visible, plan, after.value, limit + 1);
    var ids: seq<Id> := [];
    var i := 0;
    FilterNone(wanted);
    while i < |rows|
      invariant i <= |rows| && ids == Filter(rows[..i], wanted) && |ids| <= limit
    {
      FilterNext(rows, i, wanted);
      RowIsWanted(visible, plan, rows[i]);
      if plan.exact(visible[rows[i]]) {
        ids := ids + [rows[i]];
      }
      i := i + 1;
      if |ids| > limit { break; }
    }
    EnoughRows(visible, plan, after.value, limit, rows, i, ids);
    if |ids| > limit {
      ghost var rest := SortedIds(After(wanted, after.value));
      assert rest[..limit + 1][..limit] == rest[..limit];
      ids := ids[..limit];
      return Ok(PageOf(ids, t.encode(CursorFor(plan, revision, ids[limit - 1]))));
    }
    return Ok(PageOf(ids, ""));
  }

  lemma RowsAreVisible<C>(visible: map<Id, C>, plan: Plan<C>, after: Id, limit: nat)
    ensures forall id | id in Rows(visible, plan, after, limit) :: id in visible && plan.sql(id, visible[id])
  {
    var found := set id | id in visible && plan.sql(id, visible[id]) && Less(after, id);
    SortedHolds(found);
    hide SortedIds, Less;
    forall id | id in Rows(visible, plan, after, limit) ensures id in found { assert id in SortedIds(found); }
  }

  lemma RowIsWanted<C>(visible: map<Id, C>, plan: Plan<C>, id: Id)
    requires id in visible && plan.sql(id, visible[id])
    ensures id in Wanted(visible, plan) <==> plan.exact(visible[id])
  {
  }

  lemma FilterNone(keep: set<Id>)
    ensures Filter([], keep) == []
  {
  }

  lemma {:induction false} FilterJoin(a: seq<Id>, b: seq<Id>, keep: set<Id>)
    ensures Filter(a + b, keep) == Filter(a, keep) + Filter(b, keep)
  {
    if a == [] {
      assert a + b == b;
    } else {
      assert (a + b)[1..] == a[1..] + b;
      FilterJoin(a[1..], b, keep);
    }
  }

  lemma FilterNext(ids: seq<Id>, i: nat, keep: set<Id>)
    requires i < |ids|
    ensures i + 1 <= |ids|
    ensures Filter(ids[..i + 1], keep) == Filter(ids[..i], keep) + if ids[i] in keep then [ids[i]] else []
  {
    assert ids[..i + 1] == ids[..i] + [ids[i]];
    FilterJoin(ids[..i], [ids[i]], keep);
    assert Filter([ids[i]], keep) == if ids[i] in keep then [ids[i]] else [] by { assert [ids[i]][1..] == []; }
  }

  /** The rows read so far decide the page: all of them, or more than it holds. */
  lemma EnoughRows<C(!new)>(visible: map<Id, C>, plan: Plan<C>, after: Id, limit: nat, rows: seq<Id>, i: nat,
          ids: seq<Id>)
    requires Sound(plan) && rows == Rows(visible, plan, after, limit + 1) && i <= |rows|
    requires ids == Filter(rows[..i], Wanted(visible, plan)) && |ids| <= limit + 1 && (i < |rows| ==> |ids| > limit)
    ensures ids == First(SortedIds(After(Wanted(visible, plan), after)), limit + 1)
  {
    hide SortedIds, Filter;
    var (wanted, sql) := (Wanted(visible, plan), set id | id in visible && plan.sql(id, visible[id]) && Less(after, id));
    var all := SortedIds(sql);
    SortedSubset(sql, After(wanted, after));
    SortedHolds(sql);
    SameFilter(all, wanted, After(wanted, after));
    if !plan.residual {
      assert wanted * sql == sql;
      FilterAll(all, wanted);
      FilterAll(rows[..i], wanted);
      assert rows[..i] == First(all, limit + 1);
    } else {
      assert all[..i] + all[i..] == all;
      FilterJoin(all[..i], all[i..], wanted);
      if i == |rows| { FilterNone(wanted); }
    }
  }

  lemma {:induction false} SameFilter(ids: seq<Id>, keep: set<Id>, other: set<Id>)
    requires forall id | id in ids :: id in keep <==> id in other
    ensures Filter(ids, keep) == Filter(ids, other)
  {
    if ids != [] { SameFilter(ids[1..], keep, other); }
  }

  lemma {:induction false} FilterAll(ids: seq<Id>, keep: set<Id>)
    requires forall id | id in ids :: id in keep
    ensures Filter(ids, keep) == ids
  {
    if ids != [] { FilterAll(ids[1..], keep); }
  }

  /** countNodes and countEdges: COUNT(*) when the condition is exact, otherwise a
      count of the rows that pass the re-check. */
  method Count<C(!new)>(visible: map<Id, C>, plan: Plan<C>) returns (n: nat)
    requires Sound(plan)
    ensures n == |Wanted(visible, plan)| == |set id | id in visible && plan.sql(id, visible[id]) && plan.exact(visible[id])|
  {
    hide SortedIds, Filter;
    var found := set id | id in visible && plan.sql(id, visible[id]);
    ghost var wanted := Wanted(visible, plan);
    if !plan.residual {
      assert found == wanted;
      return |found|;
    }
    var rows := SortedIds(found);
    SortedHolds(found);
    FilterNone(wanted);
    n := 0;
    for i := 0 to |rows|
      invariant n == |Filter(rows[..i], wanted)|
    {
      FilterNext(rows, i, wanted);
      assert rows[i] in rows;
      RowIsWanted(visible, plan, rows[i]);
      if plan.exact(visible[rows[i]]) { n := n + 1; }
    }
    assert rows[..|rows|] == rows;
    SortedSubset(found, wanted);
    SortedSize(wanted);
  }

  lemma {:induction false} SortedSize(s: set<Id>)
    ensures |SortedIds(s)| == |s|
    decreases |s|
  {
    if s != {} { SortedSize(s - {Least(s)}); }
  }

  // ---- following the cursors ----

  /** What is left from a cursor position on. */
  ghost function Rest<C>(visible: map<Id, C>, plan: Plan<C>, after: Id): seq<Id> {
    SortedIds(After(Wanted(visible, plan), after))
  }

  /** A page and what is left after it are what was left before it. */
  lemma PagesConcatenate<C>(t: CursorText, visible: map<Id, C>, plan: Plan<C>, revision: nat, after: Id, limit: nat)
    requires limit > 0 && Faithful(t) && Named(plan) && revision <= MAX_UINT64 && forall id | id in visible :: IsEntityId(id)
    ensures var page := PageAfter(t, visible, plan, revision, after, limit);
            Splits(t, visible, plan, revision, after, page)
  {
    hide SortedIds, IsEntityId;
    var rest := Rest(visible, plan, after);
    SortedHolds(After(Wanted(visible, plan), after));
    if |rest| > limit {
      var last := rest[limit - 1];
      assert last in rest;
      CursorsAreBound(t, plan, revision, last, plan, revision);
      RestFrom(Wanted(visible, plan), after, limit - 1);
      assert rest == rest[..limit] + rest[limit..];
    }
  }

  /** An entity of the view that meets the predicate and comes after a position. */
  predicate IsLeft<C>(visible: map<Id, C>, plan: Plan<C>, after: Id, id: Id) {
    id in visible && plan.sql(id, visible[id]) && plan.exact(visible[id]) && Less(after, id)
  }

  /** 100 entities unless another number, of at most 1000, is asked for. */
  predicate IsPageSize(asked: int, size: nat) {
    if asked == 0 then size == 100 else 0 < asked <= 1000 && size == asked
  }

  /** The first entities left, in ID order: all of them, or as many as the page has, and
      then a cursor at the last one. */
  ghost predicate IsPage<C>(t: CursorText, visible: map<Id, C>, plan: Plan<C>, revision: nat, after: Id, asked: int, page: PageOf) {
    && Increasing(page.ids) && (forall id | id in page.ids :: IsLeft(visible, plan, after, id))
    && exists size: nat :: IsPageSize(asked, size) && IsFull(t, visible, plan, revision, after, size, page)
  }

  ghost predicate IsFull<C>(t: CursorText, visible: map<Id, C>, plan: Plan<C>, revision: nat, after: Id, size: nat, page: PageOf) {
    && |page.ids| <= size
    && if page.next == "" then forall id | IsLeft(visible, plan, after, id) :: id in page.ids
       else && 0 < |page.ids| == size && page.next == t.encode(CursorFor(plan, revision, page.ids[size - 1]))
            && (forall id | IsLeft(visible, plan, after, id) :: id in page.ids || Less(page.ids[size - 1], id))
            && (exists id :: IsLeft(visible, plan, after, id) && id !in page.ids)
  }

  lemma PageMeans<C>(t: CursorText, visible: map<Id, C>, plan: Plan<C>, revision: nat, request: Page)
    requires Faithful(t) && Named(plan) && revision <= MAX_UINT64 && forall id | id in visible :: IsEntityId(id)
    ensures var r := Scanned(t, visible, revision, plan, request);
            var after := DecodeCursor(t, request.after, plan, revision);
            && (r.Ok? <==> after.Ok? && exists size: nat :: IsPageSize(request.limit, size))
            && (r.Ok? ==> IsPage(t, visible, plan, revision, after.value, request.limit, r.value))
  {
    hide SortedIds, IsEntityId, Faithful, DecodeCursor, Less, Increasing;
    SizeIs(request.limit);
    var after := DecodeCursor(t, request.after, plan, revision);
    if PageLimit(request.limit).Ok? && after.Ok? {
      PageIs(t, visible, plan, revision, after.value, request.limit, PageLimit(request.limit).value);
    }
  }

  lemma SizeIs(asked: int)
    ensures PageLimit(asked).Ok? <==> exists size: nat :: IsPageSize(asked, size)
    ensures PageLimit(asked).Ok? ==> IsPageSize(asked, PageLimit(asked).value)
  {
    if PageLimit(asked).Ok? { assert IsPageSize(asked, PageLimit(asked).value); }
  }

  lemma PageIs<C>(t: CursorText, visible: map<Id, C>, plan: Plan<C>, revision: nat, after: Id, asked: int, size: nat)
    requires Faithful(t) && Named(plan) && revision <= MAX_UINT64 && (forall id | id in visible :: IsEntityId(id))
    requires IsPageSize(asked, size)
    ensures IsPage(t, visible, plan, revision, after, asked, PageAfter(t, visible, plan, revision, after, size))
  {
    hide SortedIds, IsEntityId;
    var rest := Rest(visible, plan, after);
    SortedHolds(After(Wanted(visible, plan), after));
    forall id ensures id in rest <==> IsLeft(visible, plan, after, id) { }
    if |rest| > size {
      var last := rest[size - 1];
      assert last in rest;
      CursorsAreBound(t, plan, revision, last, plan, revision);
      FirstOnes(rest, size);
      assert rest[size] in rest;
    }
  }

  lemma FirstOnes(rest: seq<Id>, size: nat)
    requires Increasing(rest) && 0 < size < |rest|
    ensures Increasing(rest[..size]) && rest[size] !in rest[..size]
    ensures forall id | id in rest :: id in rest[..size] || Less(rest[size - 1], id)
  {
    IncreasingNoDup(rest);
    hide Less;
    forall id | id in rest ensures id in rest[..size] || Less(rest[size - 1], id) {
      var i :| 0 <= i < |rest| && rest[i] == id;
      if i < size { assert rest[..size][i] == id; }
    }
  }

  lemma RestFrom(wanted: set<Id>, after: Id, i: nat)
    requires i < |SortedIds(After(wanted, after))|
    ensures SortedIds(After(wanted, SortedIds(After(wanted, after))[i])) == SortedIds(After(wanted, after))[i + 1..]
  {
    hide SortedIds;
    var ids := SortedIds(After(wanted, after));
    SortedHolds(After(wanted, after));
    forall id ensures id in ids[i + 1..] <==> id in After(wanted, ids[i]) {
      if id in ids[i + 1..] {
        var j :| 0 <= j < |ids[i + 1..]| && ids[i + 1..][j] == id;
        assert ids[i + 1 + j] == id && id in ids;
      }
      if id in After(wanted, ids[i]) {
        assert ids[i] in ids;
        CompareTransitive(after, ids[i], id);
        assert id in ids;
        var j :| 0 <= j < |ids| && ids[j] == id;
        if j <= i { CompareFlips(ids[i], ids[j]); CompareEqual(id, id); }
        assert ids[i + 1..][j - (i + 1)] == id;
      }
    }
    IncreasingIsSorted(ids[i + 1..], After(wanted, ids[i]));
  }

  /** From the start everything is left. */
  lemma RestFromStart<C>(visible: map<Id, C>, plan: Plan<C>)
    requires forall id | id in visible :: IsEntityId(id)
    ensures Rest(visible, plan, "") == SortedIds(Wanted(visible, plan))
  {
    forall id | id in Wanted(visible, plan) ensures Less("", id) { NotEmpty(id); }
    assert After(Wanted(visible, plan), "") == Wanted(visible, plan);
  }

  ghost predicate Known<C>(visible: map<Id, C>) {
    forall id | id in visible :: IsEntityId(id)
  }

  const GRAPH_PAGE_SIZE: nat := 1000

  /** nodePuller and edgePuller: the pages of one view as a stream. */
  class Puller<C(!new)> {
    const text: CursorText
    const plan: Plan<C>
    const revision: nat
    var buffer: seq<Id>
    var next: string
    var done: bool
    ghost var position: Id

    constructor (text: CursorText, plan: Plan<C>, revision: nat)
      requires Faithful(text) && Sound(plan) && revision <= MAX_UINT64
      ensures Valid() && this.text == text && this.plan == plan && this.revision == revision
      ensures forall visible: map<Id, C> :: Left(visible) == Rest(visible, plan, "")
    {
      this.text, this.plan, this.revision := text, plan, revision;
      buffer, next, done, position := [], "", false, "";
    }

    ghost predicate Valid()
      reads this
    {
      Faithful(text) && Sound(plan) && revision <= MAX_UINT64 && (!done ==> DecodeCursor(text, next, plan, revision) == Ok(position))
    }

    /** What the stream still has to give, if this is what its view shows. */
    ghost function Left(visible: map<Id, C>): seq<Id>
      reads this
    {
      buffer + if done then [] else Rest(visible, plan, position)
    }

    /** The next entity, off the version table as it is by now. */
    method Next(table: V.History<C>, ghost top: nat) returns (r: Option<Id>)
      requires Valid() && V.Valid(table, top) && revision <= top && Known(V.At(table, revision))
      modifies this
      ensures Valid()
      ensures var (before, after) := (old(Left(V.At(table, revision))), Left(V.At(table, revision)));
              if before == [] then r == None && after == [] else r == Some(before[0]) && after == before[1..]
    {
      hide Sound, Faithful, DecodeCursor, Rest, Scanned, Known, V.Valid, V.At;
      ghost var visible := V.At(table, revision);
      ghost var before := Left(visible);
      while buffer == []
        invariant Valid() && Left(visible) == before
        decreases !done, if done then 0 else |Rest(visible, plan, position)|
      {
        if done { return None; }
        var now := ReadVisible(table, revision, top);
        var page := Scan(text, now, revision, plan, Page(GRAPH_PAGE_SIZE, next));
        FullPage(text, now, plan, revision, next, position);
        buffer, next := page.value.ids, page.value.next;
        done := next == "";
        if !done { position := buffer[|buffer| - 1]; }
      }
      r := Some(buffer[0]);
      buffer := buffer[1..];
    }
  }

  /** A page request of a puller succeeds, and splits what is left. */
  lemma FullPage<C(!new)>(t: CursorText, visible: map<Id, C>, plan: Plan<C>, revision: nat, next: string, position: Id)
    requires Faithful(t) && Sound(plan) && Known(visible) && revision <= MAX_UINT64 && DecodeCursor(t, next, plan, revision) == Ok(position)
    ensures var page := Scanned(t, visible, revision, plan, Page(GRAPH_PAGE_SIZE, next));
            page.Ok? && Splits(t, visible, plan, revision, position, page.value)
  {
    hide PageAfter, DecodeCursor, Rest, Faithful;
    PagesConcatenate(t, visible, plan, revision, position, GRAPH_PAGE_SIZE);
  }

  ghost predicate Splits<C>(t: CursorText, visible: map<Id, C>, plan: Plan<C>, revision: nat, after: Id, page: PageOf) {
    if page.next == "" then page.ids == Rest(visible, plan, after)
    else page.ids != [] && DecodeCursor(t, page.next, plan, revision) == Ok(page.ids[|page.ids| - 1])
         && Rest(visible, plan, after) == page.ids + Rest(visible, plan, page.ids[|page.ids| - 1])
  }

  // ---- reading while others write ----

  /** One of the two version tables, and the part of a graph it holds. */
  datatype Table<!C> = Table(kind: string, rows: Tables -> V.History<C>, shown: Graph -> map<Id, C>)

  const NODES: Table<NodeContent> := Table("nodes", (t: Tables) => t.nodes, (g: Graph) => g.nodes)
  const EDGES: Table<EdgeContent> := Table("edges", (t: Tables) => t.edges, (g: Graph) => g.edges)

  ghost predicate IsTable<C(!new)>(table: Table<C>) {
    forall t, revision: nat | ValidStore(t) && revision <= |t.revisions| :: Shows(table, t, revision)
  }

  ghost predicate Shows<C>(table: Table<C>, t: Tables, revision: nat) {
    && V.Valid(table.rows(t), |t.revisions|)
    && V.At(table.rows(t), revision) == table.shown(GraphAt(t, revision))
    && Known(table.shown(GraphAt(t, revision)))
  }

  lemma BothAreTables()
    ensures IsTable(NODES) && IsTable(EDGES)
  {
    forall t, revision: nat | ValidStore(t) && revision <= |t.revisions|
      ensures Shows(NODES, t, revision) && Shows(EDGES, t, revision)
    {
      hide V.Valid, V.At;
      assert ValidGraph(GraphAt(t, revision));
    }
  }

  lemma PrefixesChain(a: seq<Graph>, b: seq<Graph>, c: seq<Graph>)
    ensures IsPrefix(a, a)
    ensures IsPrefix(a, b) && IsPrefix(b, c) ==> IsPrefix(a, c)
  {
  }

  /** A later store shows the same at a revision it already had. */
  lemma SameLater<C(!new)>(table: Table<C>, t: Tables, later: Tables, revision: nat)
    requires IsTable(table) && ValidStore(later) && IsPrefix(States(t), States(later)) && revision <= |t.revisions|
    ensures revision <= |later.revisions| <= MAX_INT64 && V.Valid(table.rows(later), |later.revisions|)
    ensures V.At(table.rows(later), revision) == table.shown(GraphAt(t, revision)) && Known(table.shown(GraphAt(t, revision)))
  {
    hide V.Valid, V.At;
    assert States(later)[revision] == States(t)[revision];
    assert Shows(table, later, revision);
  }

  /** Drains a puller; between two entities any batches may be written.  The
      entities are all those of the pinned revision, in ID order, each once. */
  method Pull<C(!new)>(store: Store, table: Table<C>, text: CursorText, plan: Plan<C>, revision: nat,
          between: seq<seq<Batch>>) returns (ids: seq<Id>)
    requires ValidStore(store.tables) && revision <= |store.tables.revisions| && Faithful(text) && Sound(plan) && IsTable(table)
    modifies store
    ensures ids == SortedIds(Wanted(table.shown(old(GraphAt(store.tables, revision))), plan))
    ensures ValidStore(store.tables) && IsPrefix(old(States(store.tables)), States(store.tables))
  {
    hide *;
    ghost var visible := table.shown(GraphAt(store.tables, revision));
    ghost var start := store.tables;
    PrefixesChain(States(start), [], []);
    SameLater(table, start, start, revision);
    KnownFromStart(visible, plan);
    assert MAX_INT64 <= MAX_UINT64 by { Widths(); }
    var puller := new Puller(text, plan, revision);
    ids := [];
    var i := 0;
    while true
      invariant ValidStore(store.tables) && IsPrefix(States(start), States(store.tables))
      invariant puller.Valid() && puller.revision == revision && fresh(puller)
      invariant ids + puller.Left(visible) == SortedIds(Wanted(visible, plan))
      decreases |puller.Left(visible)|
    {
      SameLater(table, start, store.tables, revision);
      var id := puller.Next(table.rows(store.tables), |store.tables.revisions|);
      if id.None? { break; }
      ids := ids + [id.value];
      if i < |between| {
        ghost var before := States(store.tables);
        Run(store, between[i]);
        PrefixesChain(States(start), before, States(store.tables));
      }
      i := i + 1;
    }
  }

  lemma Widths()
    ensures MAX_INT64 <= MAX_UINT64
  {
  }

  method PullNodes(store: Store, text: CursorText, plan: Plan<NodeContent>, revision: nat,
          between: seq<seq<Batch>>) returns (ids: seq<Id>)
    requires ValidStore(store.tables) && revision <= |store.tables.revisions| && Faithful(text) && Sound(plan)
    modifies store
    ensures ids == SortedIds(Wanted(old(GraphAt(store.tables, revision).nodes), plan))
    ensures ValidStore(store.tables) && IsPrefix(old(States(store.tables)), States(store.tables))
  {
    BothAreTables();
    hide IsTable, Wanted, SortedIds, Faithful, Sound, ValidStore, IsPrefix, States, GraphAt;
    ids := Pull(store, NODES, text, plan, revision, between);
  }

  method PullEdges(store: Store, text: CursorText, plan: Plan<EdgeContent>, revision: nat,
          between: seq<seq<Batch>>) returns (ids: seq<Id>)
    requires ValidStore(store.tables) && revision <= |store.tables.revisions| && Faithful(text) && Sound(plan)
    modifies store
    ensures ids == SortedIds(Wanted(old(GraphAt(store.tables, revision).edges), plan))
    ensures ValidStore(store.tables) && IsPrefix(old(States(store.tables)), States(store.tables))
  {
    BothAreTables();
    hide IsTable, Wanted, SortedIds, Faithful, Sound, ValidStore, IsPrefix, States, GraphAt;
    ids := Pull(store, EDGES, text, plan, revision, between);
  }

  lemma KnownFromStart<C>(visible: map<Id, C>, plan: Plan<C>)
    requires Known(visible)
    ensures Rest(visible, plan, "") == SortedIds(Wanted(visible, plan))
  {
    hide Rest, Wanted;
    RestFromStart(visible, plan);
  }

  /** The snapshot a request reads: a current one with a cursor is pinned to the
      cursor's revision. */
  function Pinned(t: CursorText, kind: string, s: Snapshot, cursor: string): Result<Snapshot> {
    if !s.IsCurrent() || cursor == "" then Ok(s)
    else
      var c := ParseCursor(t, cursor);
      if c.Err? then Err(c.error)
      else if c.value.kind != kind then Err(InvalidArgument)
      else Ok(Snapshot(Some(c.value.revision), None))
  }

  /** Store.ListNodes and Store.ListEdges. */
  method List<C(!new)>(store: Store, table: Table<C>, text: CursorText, plan: Plan<C>, s: Snapshot,
          page: Page) returns (r: Result<PageOf>)
    requires ValidStore(store.tables) && Sound(plan) && IsTable(table)
    ensures r == Listed(store.tables, table, text, plan, s, page)
  {
    hide *;
    ListedIs(store.tables, table, text, plan, s, page);
    StoreParts(store.tables, table);
    var pinned := Pinned(text, table.kind, s, page.after);
    if pinned.Err? { return Err(pinned.error); }
    var revision := ResolveSnapshot(store.tables.revisions, pinned.value);
    if revision.Err? { return Err(revision.error); }
    ResolvedExists(store.tables.revisions, pinned.value);
    var visible := ReadVisible(table.rows(store.tables), revision.value, |store.tables.revisions|);
    r := Scan(text, visible, revision.value, plan, page);
  }

  ghost function Listed<C>(t: Tables, table: Table<C>, text: CursorText, plan: Plan<C>, s: Snapshot, page: Page): Result<PageOf> {
    var pinned := Pinned(text, table.kind, s, page.after);
    if pinned.Err? then Err(pinned.error)
    else
      var revision := Resolved(t.revisions, pinned.value);
      if revision.Err? then Err(revision.error)
      else Scanned(text, V.At(table.rows(t), revision.value), revision.value, plan, page)
  }

  lemma ListedIs<C>(t: Tables, table: Table<C>, text: CursorText, plan: Plan<C>, s: Snapshot, page: Page)
    ensures var pinned := Pinned(text, table.kind, s, page.after);
            Listed(t, table, text, plan, s, page) ==
            if pinned.Err? then Err(pinned.error)
            else if Resolved(t.revisions, pinned.value).Err? then Err(Resolved(t.revisions, pinned.value).error)
            else Scanned(text, V.At(table.rows(t), Resolved(t.revisions, pinned.value).value), Resolved(t.revisions, pinned.value).value, plan, page)
  {
  }

  /** A revision asked for is the one that is read, whatever the cursor; a current request
      reads the last one, and one that continues with an issued cursor the cursor's. */
  lemma RequestsRead<C(!new)>(t: Tables, table: Table<C>, text: CursorText, plan: Plan<C>, revision: nat, page: Page, after: Id)
    requires ValidStore(t) && Faithful(text) && Named(plan) && IsEntityId(after) && revision <= |t.revisions| && plan.kind == table.kind
    ensures Listed(t, table, text, plan, Snapshot(Some(revision), None), page) == Scanned(text, V.At(table.rows(t), revision), revision, plan, page)
    ensures Listed(t, table, text, plan, CURRENT, Page(page.limit, "")) ==
            Scanned(text, V.At(table.rows(t), |t.revisions|), |t.revisions|, plan, Page(page.limit, ""))
    ensures var next := Page(page.limit, text.encode(CursorFor(plan, revision, after)));
            Listed(t, table, text, plan, CURRENT, next) == Scanned(text, V.At(table.rows(t), revision), revision, plan, next)
  {
    hide Scanned, V.At, V.Valid, IsEntityId, GraphAt;
    NotEmpty(after);
    assert |t.revisions| <= MAX_INT64 <= MAX_UINT64;
    assert Short(CursorFor(plan, revision, after));
  }

  lemma StoreParts<C(!new)>(t: Tables, table: Table<C>)
    requires ValidStore(t) && IsTable(table)
    ensures ValidLog(t.revisions) && V.Valid(table.rows(t), |t.revisions|)
  {
    hide V.Valid, ValidLog;
    assert Shows(table, t, 0);
  }

  lemma ResolvedExists(log: seq<RevisionRow>, s: Snapshot)
    requires Resolved(log, s).Ok?
    ensures Resolved(log, s).value <= |log|
  {
  }

  method ListNodes(store: Store, text: CursorText, plan: Plan<NodeContent>, s: Snapshot,
          page: Page) returns (r: Result<PageOf>)
    requires ValidStore(store.tables) && Sound(plan)
    ensures r == Listed(store.tables, NODES, text, plan, s, page)
  {
    BothAreTables();
    hide *;
    r := List(store, NODES, text, plan, s, page);
  }

  method ListEdges(store: Store, text: CursorText, plan: Plan<EdgeContent>, s: Snapshot,
          page: Page) returns (r: Result<PageOf>)
    requires ValidStore(store.tables) && Sound(plan)
    ensures r == Listed(store.tables, EDGES, text, plan, s, page)
  {
    BothAreTables();
    hide *;
    r := List(store, EDGES, text, plan, s, page);
  }

  /** Asks for what is current page by page; between two pages any batches may be
      written.  Together the pages are what was current at the first request. */
  method Follow<C(!new)>(store: Store, table: Table<C>, text: CursorText, plan: Plan<C>, limit: int,
          between: seq<seq<Batch>>) returns (r: Result<seq<Id>>)
    requires ValidStore(store.tables) && Faithful(text) && Sound(plan) && plan.kind == table.kind && IsTable(table)
    modifies store
    ensures r == if PageLimit(limit).Err? then Err(InvalidArgument)
                 else Ok(SortedIds(Wanted(table.shown(old(GraphAt(store.tables, |store.tables.revisions|))), plan)))
    ensures ValidStore(store.tables) && IsPrefix(old(States(store.tables)), States(store.tables))
  {
    hide *;
    ghost var start := store.tables;
    ghost var revision := |start.revisions|;
    ghost var visible := table.shown(GraphAt(start, revision));
    PrefixesChain(States(start), [], []);
    SameLater(table, start, start, revision);
    KnownFromStart(visible, plan);
    FirstRequest(start, table, text, plan, limit);
    var page := List(store, table, text, plan, CURRENT, Page(limit, ""));
    if page.Err? { return Err(page.error); }
    var ids, next := page.value.ids, page.value.next;
    SplitsIs(text, visible, plan, revision, "", page.value);
    ghost var position: Id := if next == "" then "" else ids[|ids| - 1];
    var i := 0;
    while next != ""
      invariant ValidStore(store.tables) && IsPrefix(States(start), States(store.tables))
      invariant next != "" ==> DecodeCursor(text, next, plan, revision) == Ok(position)
      invariant ids + (if next == "" then [] else Rest(visible, plan, position)) == SortedIds(Wanted(visible, plan))
      decreases next != "", if next == "" then 0 else |Rest(visible, plan, position)|
    {
      if i < |between| {
        ghost var before := States(store.tables);
        Run(store, between[i]);
        PrefixesChain(States(start), before, States(store.tables));
      }
      NextRequest(start, store.tables, table, text, plan, limit, next, position);
      page := List(store, table, text, plan, CURRENT, Page(limit, next));
      SplitsIs(text, visible, plan, revision, position, page.value);
      ids, next := ids + page.value.ids, page.value.next;
      if next != "" { position := page.value.ids[|page.value.ids| - 1]; }
      i := i + 1;
    }
    assert ids + [] == ids;
    return Ok(ids);
  }

  lemma SplitsIs<C>(t: CursorText, visible: map<Id, C>, plan: Plan<C>, revision: nat, after: Id, page: PageOf)
    ensures Splits(t, visible, plan, revision, after, page) <==>
            if page.next == "" then page.ids == Rest(visible, plan, after)
            else page.ids != [] && DecodeCursor(t, page.next, plan, revision) == Ok(page.ids[|page.ids| - 1])
                 && Rest(visible, plan, after) == page.ids + Rest(visible, plan, page.ids[|page.ids| - 1])
  {
    hide Rest, DecodeCursor;
  }

  lemma FirstRequest<C(!new)>(t: Tables, table: Table<C>, text: CursorText, plan: Plan<C>, limit: int)
    requires ValidStore(t) && Faithful(text) && Sound(plan) && IsTable(table)
    ensures var r := Listed(t, table, text, plan, CURRENT, Page(limit, ""));
            var revision := |t.revisions|;
            if PageLimit(limit).Err? then r == Err(InvalidArgument)
            else r.Ok? && Splits(text, table.shown(GraphAt(t, revision)), plan, revision, "", r.value)
  {
    hide PageAfter, Rest, Faithful, IsPrefix, IsTable, V.Valid, V.At, Splits;
    PrefixesChain(States(t), [], []);
    SameLater(table, t, t, |t.revisions|);
    if PageLimit(limit).Ok? {
      PagesConcatenate(text, table.shown(GraphAt(t, |t.revisions|)), plan, |t.revisions|, "", PageLimit(limit).value);
    }
  }

  lemma NextRequest<C(!new)>(start: Tables, t: Tables, table: Table<C>, text: CursorText, plan: Plan<C>, limit: int, next: string,
          position: Id)
    requires ValidStore(t) && Faithful(text) && Sound(plan) && PageLimit(limit).Ok? && plan.kind == table.kind && IsTable(table)
    requires IsPrefix(States(start), States(t)) && next != "" && DecodeCursor(text, next, plan, |start.revisions|) == Ok(position)
    ensures var r := Listed(t, table, text, plan, CURRENT, Page(limit, next));
            r.Ok? && Splits(text, table.shown(GraphAt(start, |start.revisions|)), plan, |start.revisions|, position, r.value)
  {
    hide PageAfter, Rest, Faithful, IsPrefix, IsTable, V.Valid, V.At, Splits, ValidStore;
    SameLater(table, start, t, |start.revisions|);
    PagesConcatenate(text, table.shown(GraphAt(start, |start.revisions|)), plan, |start.revisions|, position, PageLimit(limit).value);
  }

  method FollowNodes(store: Store, text: CursorText, plan: Plan<NodeContent>, limit: int,
          between: seq<seq<Batch>>) returns (r: Result<seq<Id>>)
    requires ValidStore(store.tables) && Faithful(text) && Sound(plan) && plan.kind == "nodes"
    modifies store
    ensures r == if PageLimit(limit).Err? then Err(InvalidArgument)
                 else Ok(SortedIds(Wanted(old(GraphAt(store.tables, |store.tables.revisions|).nodes), plan)))
    ensures ValidStore(store.tables) && IsPrefix(old(States(store.tables)), States(store.tables))
  {
    BothAreTables();
    hide IsTable, Wanted, SortedIds, Faithful, Sound, ValidStore, IsPrefix, States, GraphAt;
    r := Follow(store, NODES, text, plan, limit, between);
  }

  method FollowEdges(store: Store, text: CursorText, plan: Plan<EdgeContent>, limit: int,
          between: seq<seq<Batch>>) returns (r: Result<seq<Id>>)
    requires ValidStore(store.tables) && Faithful(text) && Sound(plan) && plan.kind == "edges"
    modifies store
    ensures r == if PageLimit(limit).Err? then Err(InvalidArgument)
                 else Ok(SortedIds(Wanted(old(GraphAt(store.tables, |store.tables.revisions|).edges), plan)))
    ensures ValidStore(store.tables) && IsPrefix(old(States(store.tables)), States(store.tables))
  {
    BothAreTables();
    hide IsTable, Wanted, SortedIds, Faithful, Sound, ValidStore, IsPrefix, States, GraphAt;
    r := Follow(store, EDGES, text, plan, limit, between);
  }
}
