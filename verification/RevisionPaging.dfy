/** Pages of the revision log in either order, and the cursors that link them,
    including the form older releases issued. */
module RevisionPaging {
  import opened Base
  import opened GraphRules
  import opened Tables
  import opened Store
  import opened Runs
  import opened Numerals
  import opened GraphPaging
  import V = Versions

  datatype Order = Ascending | Descending

  // ---- cursors ----

  datatype Payload = Payload(version: nat, schema: nat, generation: string, order: string, predicate_: string, boundary: nat)

  /** The text form: base64 of canonical JSON, a dot, and a checksum; and what the
      constants of this release are. */
  datatype CursorForm = CursorForm(encode: Payload -> string, parse: string -> Option<Payload>, schema: nat, generation: string, fingerprint: string)

  /** Issued cursors read back. */
  ghost predicate Reads(f: CursorForm) {
    forall o: Order, boundary: nat | boundary <= MAX_INT64 ::
      var p := PayloadFor(f, OrderName(o), boundary);
      f.encode(p) != "" && '.' in f.encode(p) && f.parse(f.encode(p)) == Some(p)
  }

  function OrderName(o: Order): string {
    if o == Ascending then "ascending" else "descending"
  }

  function PayloadFor(f: CursorForm, order: string, boundary: nat): Payload {
    Payload(1, f.schema, f.generation, order, f.fingerprint, boundary)
  }

  function EncodeCursor(f: CursorForm, o: Order, boundary: nat): string {
    f.encode(PayloadFor(f, OrderName(o), boundary))
  }

  /** decodeRevisionCursor. */
  function DecodeCursor(f: CursorForm, cursor: string, o: Order): Result<nat> {
    var p := f.parse(cursor);
    if p.None? then Err(InvalidArgument)
    else if p.value.version != 1 || p.value.schema != f.schema || p.value.generation != f.generation || p.value.order != OrderName(o)
            || p.value.predicate_ != f.fingerprint || p.value.boundary == 0 || p.value.boundary > MAX_INT64 then Err(InvalidArgument)
    else Ok(p.value.boundary)
  }

  /** An issued cursor is accepted in its own order, and only there. */
  lemma CursorRoundTrip(f: CursorForm, issued: Order, o: Order, boundary: nat)
    requires Reads(f) && 0 < boundary <= MAX_INT64
    ensures EncodeCursor(f, issued, boundary) != ""
    ensures DecodeCursor(f, EncodeCursor(f, issued, boundary), o) == if o == issued then Ok(boundary) else Err(InvalidArgument)
  {
    var p := PayloadFor(f, OrderName(issued), boundary);
    assert f.parse(f.encode(p)) == Some(p);
  }

  // ---- the cursors of older releases ----

  /** upgradeLegacyRevisionCursor; `bytes` is the strict base64 reader. */
  function Upgrade(f: CursorForm, bytes: string -> Option<string>, cursor: string): Option<string> {
    if cursor == "" || |cursor| > 1024 || '.' in cursor then None
    else
      var decoded := bytes(cursor);
      if decoded.None? || decoded.value == "" || |decoded.value| > 19 then None
      else
        var boundary := Value(decoded.value, 10);
        if boundary.None? || boundary.value > MAX_INT64 || boundary.value == 0 || Format(boundary.value, 10) != decoded.value then None
        else Some(EncodeCursor(f, Ascending, boundary.value))
  }

  /** An old cursor for a boundary, and nothing else, becomes the new cursor for it. */
  lemma UpgradeIsExact(f: CursorForm, bytes: string -> Option<string>, cursor: string, boundary: nat)
    requires Reads(f) && 0 < boundary <= MAX_INT64 && 0 < |cursor| <= 1024 && '.' !in cursor
    ensures Upgrade(f, bytes, cursor) == Some(EncodeCursor(f, Ascending, boundary)) <==> bytes(cursor) == Some(Format(boundary, 10))
  {
    hide Format, Value;
    FormatRoundTrip(boundary, 10);
    FormatLength(boundary);
    var decoded := bytes(cursor);
    if Upgrade(f, bytes, cursor).Some? {
      var other := Value(decoded.value, 10).value;
      CursorRoundTrip(f, Ascending, Ascending, other);
      CursorRoundTrip(f, Ascending, Ascending, boundary);
    }
  }

  lemma FormatLength(n: nat)
    requires n <= MAX_INT64
    ensures |Format(n, 10)| <= 19
  {
    assert Pow10(9) == 1_000_000_000;
    assert Pow10(14) == 100_000_000_000_000;
    DigitCount(n, 19, 10_000_000_000_000_000_000);
  }

  lemma {:induction false} DigitCount(n: nat, digits: nat, power: nat)
    requires digits > 0 && n < power && power == Pow10(digits)
    ensures |Format(n, 10)| <= digits
    decreases digits
  {
    if n >= 10 { DigitCount(n / 10, digits - 1, Pow10(digits - 1)); }
  }

  function Pow10(n: nat): nat {
    if n == 0 then 1 else 10 * Pow10(n - 1)
  }

  /** A cursor of this release is never taken for an old one. */
  lemma NewCursorsAreKept(f: CursorForm, bytes: string -> Option<string>, o: Order, boundary: nat)
    requires Reads(f) && boundary <= MAX_INT64
    ensures Upgrade(f, bytes, EncodeCursor(f, o, boundary)) == None
  {
    assert '.' in EncodeCursor(f, o, boundary);
  }

  // ---- one page ----

  datatype RevisionPageOf = RevisionPageOf(rows: seq<RevisionRow>, next: string)

  /** WHERE sealed = 1 AND revision > ? ORDER BY revision ASC LIMIT ?. */
  function Above(log: seq<RevisionRow>, boundary: nat): seq<RevisionRow> {
    if log == [] then []
    else (if log[0].sealed && log[0].revision > boundary then [log[0]] else []) + Above(log[1..], boundary)
  }

  /** WHERE sealed = 1 AND revision < ? ORDER BY revision DESC LIMIT ?; without a
      cursor there is no bound. */
  function Below(log: seq<RevisionRow>, boundary: Option<nat>): seq<RevisionRow> {
    if log == [] then []
    else Below(log[1..], boundary) + if log[0].sealed && (boundary.None? || log[0].revision < boundary.value) then [log[0]] else []
  }

  function Take(rows: seq<RevisionRow>, n: nat): seq<RevisionRow> {
    if n <= |rows| then rows[..n] else rows
  }

  /** The log from a boundary on, in the order asked for. */
  function Reversed(rows: seq<RevisionRow>): (r: seq<RevisionRow>)
    ensures |r| == |rows| && forall i | 0 <= i < |r| :: r[i] == rows[|rows| - 1 - i]
  {
    if rows == [] then [] else Reversed(rows[1..]) + [rows[0]]
  }

  ghost function Remaining(log: seq<RevisionRow>, o: Order, boundary: Option<nat>): seq<RevisionRow> {
    match o
    case Ascending => if boundary.None? then log else if boundary.value <= |log| then log[boundary.value..] else []
    case Descending => Reversed(if boundary.None? || boundary.value > |log| then log else if boundary.value == 0 then [] else log[..boundary.value - 1])
  }

  lemma {:induction false} AboveIs(log: seq<RevisionRow>, first: nat, boundary: nat)
    requires forall i | 0 <= i < |log| :: log[i].sealed && log[i].revision == first + i + 1
    ensures Above(log, boundary) == if boundary <= first then log else if boundary - first <= |log| then log[boundary - first..] else []
  {
    if log != [] {
      assert forall i | 0 <= i < |log| - 1 :: log[1..][i] == log[i + 1];
      AboveIs(log[1..], first + 1, boundary);
      if first < boundary && boundary - first <= |log| { assert log[1..][boundary - first - 1..] == log[boundary - first..]; }
    }
  }

  lemma {:induction false} BelowIs(log: seq<RevisionRow>, first: nat, boundary: Option<nat>)
    requires forall i | 0 <= i < |log| :: log[i].sealed && log[i].revision == first + i + 1
    ensures Below(log, boundary) == Reversed(if boundary.None? || boundary.value > first + |log| then log
                                             else if boundary.value <= first + 1 then [] else log[..boundary.value - first - 1])
  {
    if log != [] {
      assert forall i | 0 <= i < |log| - 1 :: log[1..][i] == log[i + 1];
      BelowIs(log[1..], first + 1, boundary);
      if boundary.Some? && first + 1 < boundary.value <= first + |log| {
        var n := boundary.value - first - 1;
        assert log[..n][1..] == log[1..][..n - 1] && log[..n][0] == log[0];
      }
    }
  }

  /** What is asked for, read as SQL reads it. */
  lemma RowsAre(log: seq<RevisionRow>, o: Order, boundary: Option<nat>)
    requires ValidLog(log)
    ensures Above(log, if boundary.None? then 0 else boundary.value) == Remaining(log, Ascending, boundary)
    ensures Below(log, boundary) == Remaining(log, Descending, boundary)
  {
    AboveIs(log, 0, if boundary.None? then 0 else boundary.value);
    BelowIs(log, 0, boundary);
  }

  ghost function PageOfRevisions(f: CursorForm, log: seq<RevisionRow>, o: Order, boundary: Option<nat>,
          limit: nat): RevisionPageOf
    requires limit > 0
  {
    var rest := Remaining(log, o, boundary);
    if |rest| <= limit then RevisionPageOf(rest, "") else RevisionPageOf(rest[..limit], EncodeCursor(f, o, rest[limit - 1].revision))
  }

  ghost function Listed(f: CursorForm, log: seq<RevisionRow>, o: Order, limit: int,
          cursor: string): Result<RevisionPageOf> {
    var size := PageLimit(limit);
    if size.Err? then Err(InvalidArgument)
    else if cursor == "" then Ok(PageOfRevisions(f, log, o, None, size.value))
    else
      var boundary := DecodeCursor(f, cursor, o);
      if boundary.Err? then Err(boundary.error) else Ok(PageOfRevisions(f, log, o, Some(boundary.value), size.value))
  }

  /** How many revisions are left from a boundary, and which is the i-th of them. */
  function LeftFrom(n: nat, o: Order, boundary: Option<nat>): int {
    match o
    case Ascending => if boundary.None? then n else n - boundary.value
    case Descending => if boundary.None? then n else boundary.value - 1
  }

  function NextFrom(n: nat, o: Order, boundary: Option<nat>, i: nat): int {
    match o
    case Ascending => (if boundary.None? then 0 else boundary.value) + i + 1
    case Descending => (if boundary.None? then n + 1 else boundary.value) - i - 1
  }

  lemma RemainingMeans(log: seq<RevisionRow>, o: Order, boundary: Option<nat>)
    requires ValidLog(log) && (boundary.Some? ==> 1 <= boundary.value <= |log|)
    ensures |Remaining(log, o, boundary)| == LeftFrom(|log|, o, boundary)
    ensures forall i | 0 <= i < |Remaining(log, o, boundary)| ::
              && 1 <= NextFrom(|log|, o, boundary, i) <= |log|
              && Remaining(log, o, boundary)[i] == log[NextFrom(|log|, o, boundary, i) - 1]
  {
    hide *;
    if o == Descending {
      var n := if boundary.None? then |log| else boundary.value - 1;
      RemainingBefore(log, boundary);
      BackAt(log, n);
      DownFrom(|log|, boundary);
    } else {
      UpFrom(log, boundary);
    }
  }

  lemma DownFrom(n: nat, boundary: Option<nat>)
    requires boundary.Some? ==> 1 <= boundary.value <= n
    ensures var left := if boundary.None? then n else boundary.value - 1;
            LeftFrom(n, Descending, boundary) == left && forall i: nat | i < left :: NextFrom(n, Descending, boundary, i) == left - i
  {
  }

  lemma UpFrom(log: seq<RevisionRow>, boundary: Option<nat>)
    requires boundary.Some? ==> 1 <= boundary.value <= |log|
    ensures |Remaining(log, Ascending, boundary)| == LeftFrom(|log|, Ascending, boundary)
    ensures forall i | 0 <= i < |Remaining(log, Ascending, boundary)| ::
              && 1 <= NextFrom(|log|, Ascending, boundary, i) <= |log|
              && Remaining(log, Ascending, boundary)[i] == log[NextFrom(|log|, Ascending, boundary, i) - 1]
  {
  }

  lemma BackAt(log: seq<RevisionRow>, n: nat)
    requires n <= |log|
    ensures |Reversed(log[..n])| == n && forall i | 0 <= i < n :: Reversed(log[..n])[i] == log[n - 1 - i]
  {
    hide Reversed;
    forall i | 0 <= i < n ensures Reversed(log[..n])[i] == log[n - 1 - i] { assert log[..n][n - 1 - i] == log[n - 1 - i]; }
  }

  lemma RowsLeft(log: seq<RevisionRow>, o: Order, boundary: Option<nat>)
    requires ValidLog(log) && (boundary.Some? ==> 1 <= boundary.value <= |log|)
    ensures forall i | 0 <= i < |Remaining(log, o, boundary)| ::
              && Remaining(log, o, boundary)[i] in log && Remaining(log, o, boundary)[i].sealed
              && Remaining(log, o, boundary)[i].revision == NextFrom(|log|, o, boundary, i)
  {
    RemainingMeans(log, o, boundary);
    hide Remaining, NextFrom, LeftFrom;
  }

  lemma RowIsSmall(log: seq<RevisionRow>, row: RevisionRow)
    requires ValidLog(log) && row in log
    ensures 1 <= row.revision <= MAX_INT64
  {
  }

  lemma CursorIsSome(f: CursorForm, o: Order, b: nat)
    requires Reads(f) && 1 <= b <= MAX_INT64
    ensures EncodeCursor(f, o, b) != ""
  {
    CursorRoundTrip(f, o, o, b);
  }

  /** Ascending, a page has the revisions after the boundary, one by one; descending, those
      before it from the last one down; and a cursor exactly if there are more. */
  lemma PageMeans(f: CursorForm, log: seq<RevisionRow>, o: Order, boundary: Option<nat>, limit: nat)
    requires ValidLog(log) && Reads(f) && limit > 0 && (boundary.Some? ==> 1 <= boundary.value <= |log|)
    ensures var page := PageOfRevisions(f, log, o, boundary, limit);
            var left := LeftFrom(|log|, o, boundary);
            && |page.rows| == (if left <= limit then left else limit) && (page.next == "" <==> left <= limit)
            && forall i | 0 <= i < |page.rows| :: page.rows[i] in log && page.rows[i].sealed && page.rows[i].revision == NextFrom(|log|, o, boundary, i)
  {
    hide *;
    RemainingMeans(log, o, boundary);
    RowsLeft(log, o, boundary);
    var rest := Remaining(log, o, boundary);
    PageIs(f, log, o, boundary, limit);
    if |rest| > limit {
      RowIsSmall(log, rest[limit - 1]);
      CursorIsSome(f, o, rest[limit - 1].revision);
    }
  }

  lemma PageIs(f: CursorForm, log: seq<RevisionRow>, o: Order, boundary: Option<nat>, limit: nat)
    requires limit > 0
    ensures var rest, page := Remaining(log, o, boundary), PageOfRevisions(f, log, o, boundary, limit);
            if |rest| <= limit then page.rows == rest && page.next == ""
            else page.rows == rest[..limit] && page.next == EncodeCursor(f, o, rest[limit - 1].revision)
  {
    hide EncodeCursor, Remaining;
  }

  /** ListRevisionPage. */
  method ListRevisionPage(f: CursorForm, log: seq<RevisionRow>, o: Order, limit: int,
          cursor: string) returns (r: Result<RevisionPageOf>)
    requires ValidLog(log)
    ensures r == Listed(f, log, o, limit, cursor)
  {
    hide Above, Below, Remaining, ValidLog;
    var size := PageLimit(limit);
    if size.Err? { return Err(size.error); }
    var boundary: Option<nat> := None;
    if cursor != "" {
      var decoded := DecodeCursor(f, cursor, o);
      if decoded.Err? { return Err(decoded.error); }
      boundary := Some(decoded.value);
    }
    RowsAre(log, o, boundary);
    var found := Take(if o == Ascending then Above(log, if boundary.None? then 0 else boundary.value) else Below(log, boundary), size.value + 1);
    var rows: seq<RevisionRow> := [];
    for i := 0 to |found|
      invariant rows == found[..i]
    {
      rows := rows + [found[i]];
    }
    assert found[..|found|] == found;
    ghost var rest := Remaining(log, o, boundary);
    if |rows| > size.value {
      assert rest[..size.value + 1][..size.value] == rest[..size.value];
      rows := rows[..size.value];
      return Ok(RevisionPageOf(rows, EncodeCursor(f, o, rows[|rows| - 1].revision)));
    }
    return Ok(RevisionPageOf(rows, ""));
  }

  /** ListRevisions: ascending, and the one place old cursors are accepted. */
  method ListRevisions(f: CursorForm, bytes: string -> Option<string>, log: seq<RevisionRow>, limit: int,
          after: string) returns (r: Result<RevisionPageOf>)
    requires ValidLog(log) && Reads(f)
    ensures forall b: nat | 0 < b <= MAX_INT64 && 0 < |after| <= 1024 && '.' !in after && bytes(after) == Some(Format(b, 10)) ::
              r == Listed(f, log, Ascending, limit, EncodeCursor(f, Ascending, b))
    ensures after == "" || '.' in after ==> r == Listed(f, log, Ascending, limit, after)
  {
    hide ValidLog, Format, Value, Reads;
    var cursor := after;
    if cursor != "" {
      var upgraded := Upgrade(f, bytes, cursor);
      if upgraded.Some? { cursor := upgraded.value; }
    }
    r := ListRevisionPage(f, log, Ascending, limit, cursor);
    forall b: nat | 0 < b <= MAX_INT64 && 0 < |after| <= 1024 && '.' !in after && bytes(after) == Some(Format(b, 10))
      ensures r == Listed(f, log, Ascending, limit, EncodeCursor(f, Ascending, b))
    {
      UpgradeIsExact(f, bytes, after, b);
    }
  }

  // ---- following the cursors while others write ----

  /** The page after a boundary, seen from the front of the log. */
  lemma AscendingPage(f: CursorForm, log: seq<RevisionRow>, boundary: nat, limit: nat)
    requires ValidLog(log) && Reads(f) && limit > 0 && boundary <= |log|
    ensures var page := PageOfRevisions(f, log, Ascending, if boundary == 0 then None else Some(boundary), limit);
            var reached := boundary + |page.rows|;
            && reached <= |log| && log[..boundary] + page.rows == log[..reached]
            && (page.next == "" ==> reached == |log|)
            && (page.next != "" ==> boundary < reached && DecodeCursor(f, page.next, Ascending) == Ok(reached))
  {
    hide DecodeCursor, Reads;
    var rest := log[boundary..];
    if |rest| > limit {
      assert rest[limit - 1] == log[boundary + limit - 1];
      CursorRoundTrip(f, Ascending, Ascending, boundary + limit);
    }
  }

  lemma ReversedSplit(rows: seq<RevisionRow>, n: nat)
    requires n <= |rows|
    ensures Reversed(rows)[..n] + Reversed(rows[..|rows| - n]) == Reversed(rows)
  {
    hide Reversed;
    var (a, b) := (Reversed(rows), Reversed(rows[..|rows| - n]));
    assert |b| == |rows| - n;
    forall j | n <= j < |a| ensures b[j - n] == a[j] {
      assert b[j - n] == rows[..|rows| - n][|rows| - n - 1 - (j - n)] == rows[|rows| - 1 - j];
    }
    assert a[..n] + b == a;
  }

  lemma RemainingBefore(log: seq<RevisionRow>, boundary: Option<nat>)
    requires boundary.Some? ==> 1 <= boundary.value <= |log|
    ensures Remaining(log, Descending, boundary) == Reversed(log[..if boundary.None? then |log| else boundary.value - 1])
  {
    assert log[..|log|] == log;
    hide Reversed;
  }

  /** And from the back: the rows before the boundary, last first. */
  lemma DescendingPage(f: CursorForm, log: seq<RevisionRow>, boundary: Option<nat>, limit: nat)
    requires ValidLog(log) && Reads(f) && limit > 0 && (boundary.Some? ==> 1 <= boundary.value <= |log|)
    ensures var page := PageOfRevisions(f, log, Descending, boundary, limit);
            var left := if boundary.None? then |log| else boundary.value - 1;
            if page.next == "" then page.rows == Reversed(log[..left])
            else page.rows != [] && |page.rows| < left
                 && DecodeCursor(f, page.next, Descending) == Ok(left + 1 - |page.rows|)
                 && page.rows + Reversed(log[..left - |page.rows|]) == Reversed(log[..left])
  {
    hide DecodeCursor, Reads, Reversed, ValidLog, EncodeCursor, Remaining;
    var left := if boundary.None? then |log| else boundary.value - 1;
    RemainingBefore(log, boundary);
    if left > limit { SplitDescending(f, log, left, limit); }
  }

  lemma SplitDescending(f: CursorForm, log: seq<RevisionRow>, left: nat, limit: nat)
    requires ValidLog(log) && Reads(f) && 0 < limit < left <= |log|
    ensures var rows := Reversed(log[..left]);
            var cursor := EncodeCursor(f, Descending, rows[limit - 1].revision);
            cursor != "" && DecodeCursor(f, cursor, Descending) == Ok(left + 1 - limit)
            && rows[..limit] + Reversed(log[..left - limit]) == rows
  {
    hide DecodeCursor, Reads, Reversed, EncodeCursor;
    var rows := log[..left];
    assert Reversed(rows)[limit - 1] == rows[left - limit] == log[left - limit];
    assert log[left - limit].revision == left - limit + 1;
    CursorRoundTrip(f, Descending, Descending, left - limit + 1);
    ReversedSplit(rows, limit);
    assert rows[..left - limit] == log[..left - limit];
  }

  /** What has been collected, and where the next page starts. */
  ghost predicate Collected(start: seq<RevisionRow>, log: seq<RevisionRow>, o: Order, rows: seq<RevisionRow>,
          more: bool, boundary: nat) {
    && start <= log
    && (more ==> 1 <= boundary <= |log|)
    && match o
       case Ascending => if more then rows == log[..boundary] else start <= rows <= log
       case Descending => (more ==> boundary <= |start|) && rows + (if more then Reversed(start[..boundary - 1]) else []) == Reversed(start)
  }

  lemma LogGrew(start: seq<RevisionRow>, log: seq<RevisionRow>, later: seq<RevisionRow>, o: Order,
          rows: seq<RevisionRow>, more: bool, boundary: nat)
    requires Collected(start, log, o, rows, more, boundary) && log <= later
    ensures Collected(start, later, o, rows, more, boundary)
  {
    if o == Ascending && more { assert log[..boundary] == later[..boundary]; }
  }

  ghost function BoundaryOf(f: CursorForm, o: Order, next: string): nat {
    if next != "" && DecodeCursor(f, next, o).Ok? then DecodeCursor(f, next, o).value else 0
  }

  /** The first page. */
  lemma FirstPage(f: CursorForm, log: seq<RevisionRow>, o: Order, limit: nat)
    requires ValidLog(log) && Reads(f) && limit > 0
    ensures var page := PageOfRevisions(f, log, o, None, limit);
            Collected(log, log, o, page.rows, page.next != "", BoundaryOf(f, o, page.next))
            && (page.next != "" ==> DecodeCursor(f, page.next, o).Ok?)
  {
    hide PageOfRevisions, DecodeCursor, Reads, ValidLog;
    if o == Ascending { AscendingPage(f, log, 0, limit); } else { DescendingPage(f, log, None, limit); }
  }

  lemma Regroup(a: seq<RevisionRow>, b: seq<RevisionRow>, c: seq<RevisionRow>)
    ensures a + b + c == a + (b + c)
  {
  }

  predicate Advances(o: Order, boundary: nat, next: nat) {
    if o == Ascending then boundary < next else next < boundary
  }

  /** Every further page, on a log that may have grown. */
  lemma FurtherPage(f: CursorForm, start: seq<RevisionRow>, log: seq<RevisionRow>, o: Order, limit: nat,
          rows: seq<RevisionRow>, boundary: nat)
    requires ValidLog(log) && Reads(f) && limit > 0 && Collected(start, log, o, rows, true, boundary)
    ensures var page := PageOfRevisions(f, log, o, Some(boundary), limit);
            Collected(start, log, o, rows + page.rows, page.next != "", BoundaryOf(f, o, page.next))
            && (page.next != "" ==> DecodeCursor(f, page.next, o).Ok? && Advances(o, boundary, BoundaryOf(f, o, page.next)))
  {
    hide PageOfRevisions, DecodeCursor, Reads, ValidLog;
    if o == Ascending {
      AscendingPage(f, log, boundary, limit);
    } else {
      DescendingPage(f, log, Some(boundary), limit);
      var page := PageOfRevisions(f, log, o, Some(boundary), limit);
      assert log[..boundary - 1] == start[..boundary - 1];
      if page.next != "" {
        var left := boundary - 1 - |page.rows|;
        assert log[..left] == start[..left];
        Regroup(rows, page.rows, Reversed(start[..left]));
      }
    }
  }

  /** Asks for the whole log page by page while batches are written in between.
      Descending, exactly the revisions of the first request are seen, newest first;
      ascending, they come first, followed by some of those committed meanwhile.
      Either way each is seen once. */
  method FollowRevisions(store: Store, f: CursorForm, o: Order, limit: int,
          between: seq<seq<Batch>>) returns (r: Result<seq<RevisionRow>>)
    requires ValidStore(store.tables) && Reads(f)
    modifies store
    ensures PageLimit(limit).Err? ==> r == Err(InvalidArgument)
    ensures PageLimit(limit).Ok? && o == Descending ==> r == Ok(Reversed(old(store.tables.revisions)))
    ensures PageLimit(limit).Ok? && o == Ascending ==> r.Ok? && old(store.tables.revisions) <= r.value <= store.tables.revisions
    ensures ValidStore(store.tables) && old(store.tables.revisions) <= store.tables.revisions
  {
    hide PageOfRevisions, DecodeCursor, Reads, PageLimit, ValidStore, ValidLog, Collected, IsPrefix, NoRepeats, States;
    ghost var start := store.tables.revisions;
    LogIsValid(store.tables);
    var page := ListRevisionPage(f, store.tables.revisions, o, limit, "");
    if page.Err? { return Err(page.error); }
    FirstPage(f, start, o, PageLimit(limit).value);
    var rows, next := page.value.rows, page.value.next;
    var i := 0;
    while next != ""
      invariant ValidStore(store.tables) && start <= store.tables.revisions && i <= |between|
      invariant Collected(start, store.tables.revisions, o, rows, next != "", BoundaryOf(f, o, next))
      invariant next != "" ==> DecodeCursor(f, next, o).Ok?
      decreases |between| - i, next != "", if o == Ascending then |store.tables.revisions| - BoundaryOf(f, o, next) else BoundaryOf(f, o, next)
    {
      if i < |between| {
        ghost var before := store.tables.revisions;
        Run(store, between[i]);
        LogGrew(start, before, store.tables.revisions, o, rows, true, BoundaryOf(f, o, next));
        i := i + 1;
      }
      LogIsValid(store.tables);
      FurtherPage(f, start, store.tables.revisions, o, PageLimit(limit).value, rows, BoundaryOf(f, o, next));
      WithinLog(start, store.tables.revisions, o, rows, BoundaryOf(f, o, next));
      page := ListRevisionPage(f, store.tables.revisions, o, limit, next);
      rows, next := rows + page.value.rows, page.value.next;
    }
    AllCollected(start, store.tables.revisions, o, rows, BoundaryOf(f, o, next));
    return Ok(rows);
  }

  lemma LogIsValid(t: Tables)
    requires ValidStore(t)
    ensures ValidLog(t.revisions)
  {
    hide ValidLog;
  }

  lemma WithinLog(start: seq<RevisionRow>, log: seq<RevisionRow>, o: Order, rows: seq<RevisionRow>, boundary: nat)
    requires Collected(start, log, o, rows, true, boundary)
    ensures boundary <= |log|
  {
  }

  lemma AllCollected(start: seq<RevisionRow>, log: seq<RevisionRow>, o: Order, rows: seq<RevisionRow>, boundary: nat)
    requires Collected(start, log, o, rows, false, boundary)
    ensures o == Descending ==> rows == Reversed(start)
    ensures o == Ascending ==> start <= rows <= log
  {
    assert rows + [] == rows;
  }
}
