/** What the clauses of a read query give: which rows MATCH, UNWIND, WITH and RETURN keep,
    in which order, and what stands in them. */
module QueryMeaning {
  import opened Base
  import opened Sorted
  import opened Selections
  import opened Syntax
  import opened ScopeCheck
  import opened Evaluation
  import opened Projecting
  import opened ReadQuery

  // ---- WHERE ----

  /** No condition, or one that is true: null and false do not pass. */
  predicate Passes(w: World, where: Expr, row: Row) {
    where.Absent? || Eval(w, where, row, None) == Done(Bool(true))
  }

  lemma TestIs(w: World, where: Expr, row: Row)
    requires Test(w, where, row, None).Done?
    ensures Test(w, where, row, None).value <==> Passes(w, where, row)
  {
    hide Eval;
  }

  lemma {:induction false} FilterSelects(w: World, where: Expr, rows: seq<Row>)
    requires FilterRows(w, where, rows).Done?
    ensures Selects(rows, FilterRows(w, where, rows).value, (r: Row) => Passes(w, where, r))
  {
    hide Selects, Test, Passes;
    var keep := (r: Row) => Passes(w, where, r);
    if rows == [] {
      SelectsNothing(keep);
    } else {
      TestIs(w, where, rows[0]);
      FilterSelects(w, where, rows[1..]);
      SelectsFirst(rows[0], rows[1..], FilterRows(w, where, rows[1..]).value, keep);
      assert [rows[0]] + rows[1..] == rows;
    }
  }

  lemma {:induction false} FilteredSelects(w: World, where: Expr, lines: seq<Line>)
    requires Filtered(w, where, lines).Done?
    ensures Selects(lines, Filtered(w, where, lines).value, (l: Line) => Passes(w, where, l.filterRow))
  {
    hide Selects, Test, Passes;
    var keep := (l: Line) => Passes(w, where, l.filterRow);
    if lines == [] {
      SelectsNothing(keep);
    } else {
      TestIs(w, where, lines[0].filterRow);
      FilteredSelects(w, where, lines[1..]);
      SelectsFirst(lines[0], lines[1..], Filtered(w, where, lines[1..]).value, keep);
      assert [lines[0]] + lines[1..] == lines;
    }
  }

  // ---- MATCH ----

  /** r is reached from the row through the patterns in turn. */
  ghost predicate ReachedBy(w: World, parts: seq<Part>, row: Row, r: Row)
    decreases |parts|
  {
    if parts == [] then r == row else exists middle :: PartThenRest(w, parts, row, middle, r)
  }

  ghost predicate PartThenRest(w: World, parts: seq<Part>, row: Row, middle: Row, r: Row)
    requires parts != []
    decreases |parts|, 0
  {
    MatchPart(w, parts[0], row).Done? && middle in MatchPart(w, parts[0], row).value && ReachedBy(w, parts[1..], middle, r)
  }

  lemma {:induction false} EachMatched(w: World, p: Part, rows: seq<Row>, r: Row)
    requires MatchEach(w, p, rows).Done?
    ensures r in MatchEach(w, p, rows).value <==> exists row :: row in rows && MatchPart(w, p, row).Done? && r in MatchPart(w, p, row).value
    ensures forall row | row in rows :: MatchPart(w, p, row).Done?
  {
    hide MatchPart;
    if rows != [] {
      EachMatched(w, p, rows[1..], r);
      assert rows == [rows[0]] + rows[1..];
      var (here, rest) := (MatchPart(w, p, rows[0]).value, MatchEach(w, p, rows[1..]).value);
      assert MatchEach(w, p, rows).value == here + rest;
      assert rows[0] in rows && forall row :: row in rows <==> row == rows[0] || row in rows[1..];
    }
  }

  lemma {:induction false} AllMatched(w: World, parts: seq<Part>, rows: seq<Row>, r: Row)
    requires MatchAll(w, parts, rows).Done?
    ensures r in MatchAll(w, parts, rows).value <==> exists row :: row in rows && ReachedBy(w, parts, row, r)
    decreases |parts|
  {
    hide MatchPart, MatchEach;
    if rows == [] {
    } else if parts == [] {
      if r in rows { assert ReachedBy(w, parts, r, r); }
    } else {
      var next := MatchEach(w, parts[0], rows).value;
      AllMatched(w, parts[1..], next, r);
      forall middle ensures middle in next <==> exists row :: row in rows && MatchPart(w, parts[0], row).Done? && middle in MatchPart(w, parts[0], row).value {
        EachMatched(w, parts[0], rows, middle);
      }
      if middle :| middle in next && ReachedBy(w, parts[1..], middle, r) {
        var row :| row in rows && MatchPart(w, parts[0], row).Done? && middle in MatchPart(w, parts[0], row).value;
        assert PartThenRest(w, parts, row, middle, r);
      }
      if row :| row in rows && ReachedBy(w, parts, row, r) {
        ReachedThrough(w, parts, row, r);
      }
    }
  }

  lemma ReachedThrough(w: World, parts: seq<Part>, row: Row, r: Row)
    requires parts != []
    ensures ReachedBy(w, parts, row, r) <==>
            MatchPart(w, parts[0], row).Done? && exists middle :: middle in MatchPart(w, parts[0], row).value && ReachedBy(w, parts[1..], middle, r)
  {
    hide MatchPart;
    forall middle ensures PartThenRest(w, parts, row, middle, r) <==>
        MatchPart(w, parts[0], row).Done? && middle in MatchPart(w, parts[0], row).value && ReachedBy(w, parts[1..], middle, r) { }
  }

  /** The row with null for each name that it has not got. */
  ghost predicate IsFilled(row: Row, names: set<Name>, r: Row) {
    && (forall x :: x in r <==> x in row || x in names)
    && forall x | x in r :: r[x] == if x in row then row[x] else Null
  }

  /** What MATCH makes of one row: the rows reached that pass WHERE, in their order; for
      OPTIONAL MATCH without any, the row filled with nulls. */
  ghost predicate MatchedFrom(w: World, optional: bool, parts: seq<Part>, where: Expr, row: Row, result: seq<Row>) {
    MatchAll(w, parts, [row]).Done?
    && exists kept :: KeptBy(w, where, MatchAll(w, parts, [row]).value, kept)
                      && if kept == [] && optional then |result| == 1 && IsFilled(row, PartsNames(parts), result[0]) else result == kept
  }

  ghost predicate KeptBy(w: World, where: Expr, rows: seq<Row>, kept: seq<Row>) {
    Selects(rows, kept, (r: Row) => Passes(w, where, r))
  }

  ghost predicate IsJoin(rows: seq<Row>, result: seq<Row>, pieces: seq<seq<Row>>) {
    |pieces| == |rows| && result == Chain(pieces)
  }

  /** One list after the other. */
  function Chain(pieces: seq<seq<Row>>): seq<Row> {
    if pieces == [] then [] else pieces[0] + Chain(pieces[1..])
  }

  lemma {:induction false} ChainHolds(pieces: seq<seq<Row>>, r: Row)
    ensures r in Chain(pieces) <==> exists i :: 0 <= i < |pieces| && r in pieces[i]
  {
    if pieces != [] {
      ChainHolds(pieces[1..], r);
      assert forall i | 0 <= i < |pieces[1..]| :: pieces[1..][i] == pieces[i + 1];
      if i :| 0 <= i < |pieces| && r in pieces[i] { assert i > 0 ==> pieces[1..][i - 1] == pieces[i]; }
    }
  }

  lemma {:induction false} MatchRowsMean(w: World, optional: bool, parts: seq<Part>, where: Expr, rows: seq<Row>) returns (pieces: seq<seq<Row>>)
    requires MatchRows(w, optional, parts, where, rows).Done?
    ensures IsJoin(rows, MatchRows(w, optional, parts, where, rows).value, pieces)
    ensures forall i | 0 <= i < |rows| :: MatchedFrom(w, optional, parts, where, rows[i], pieces[i])
  {
    hide MatchAll, FilterRows, MatchedFrom, WithNulls;
    if rows == [] { return []; }
    var rest := MatchRowsMean(w, optional, parts, where, rows[1..]);
    var found := MatchAll(w, parts, [rows[0]]).value;
    var kept := FilterRows(w, where, found).value;
    var first := if kept == [] && optional then [WithNulls(rows[0], PartsNames(parts))] else kept;
    RowMatched(w, optional, parts, where, rows[0], kept);
    pieces := [first] + rest;
    assert pieces[1..] == rest;
  }

  lemma RowMatched(w: World, optional: bool, parts: seq<Part>, where: Expr, row: Row, kept: seq<Row>)
    requires MatchAll(w, parts, [row]).Done? && FilterRows(w, where, MatchAll(w, parts, [row]).value) == Done(kept)
    ensures MatchedFrom(w, optional, parts, where, row, if kept == [] && optional then [WithNulls(row, PartsNames(parts))] else kept)
  {
    hide MatchAll, FilterRows, Selects;
    FilterSelects(w, where, MatchAll(w, parts, [row]).value);
    assert KeptBy(w, where, MatchAll(w, parts, [row]).value, kept);
  }

  lemma OneStep(w: World, c: Clause, s: State)
    ensures Steps(w, [c], s) == Step(w, c, s)
  {
    hide Step;
    assert [c][1..] == [];
  }

  /** MATCH: the rows it makes of each input row, one after the other. */
  lemma MatchMeans(w: World, optional: bool, parts: seq<Part>, where: Expr, s: State) returns (pieces: seq<seq<Row>>)
    requires Steps(w, [Match(optional, parts, where)], s).Done?
    ensures var next := Steps(w, [Match(optional, parts, where)], s).value;
            && IsJoin(s.rows, next.rows, pieces) && next.known == s.known + PartsNames(parts)
            && forall i | 0 <= i < |s.rows| :: MatchedFrom(w, optional, parts, where, s.rows[i], pieces[i])
  {
    OneStep(w, Match(optional, parts, where), s);
    hide Steps, MatchRows, MatchedFrom;
    pieces := MatchRowsMean(w, optional, parts, where, s.rows);
  }

  /** r is reached from the row and passes WHERE. */
  ghost predicate IsKept(w: World, parts: seq<Part>, where: Expr, row: Row, r: Row) {
    ReachedBy(w, parts, row, r) && Passes(w, where, r)
  }

  /** A row is in the result exactly if it is reached from an input row and passes WHERE,
      or is an input row filled with nulls of an OPTIONAL MATCH that keeps none for it. */
  lemma MatchKeeps(w: World, optional: bool, parts: seq<Part>, where: Expr, s: State, r: Row)
    requires Steps(w, [Match(optional, parts, where)], s).Done?
    ensures r in Steps(w, [Match(optional, parts, where)], s).value.rows <==>
            exists i :: 0 <= i < |s.rows| && MadeFrom(w, optional, parts, where, s.rows[i], r)
  {
    hide Steps, MatchedFrom, MadeFrom;
    var pieces := MatchMeans(w, optional, parts, where, s);
    ChainHolds(pieces, r);
    forall i | 0 <= i < |s.rows| ensures r in pieces[i] <==> MadeFrom(w, optional, parts, where, s.rows[i], r) {
      PieceHolds(w, optional, parts, where, s.rows[i], pieces[i], r);
    }
  }

  ghost predicate MadeFrom(w: World, optional: bool, parts: seq<Part>, where: Expr, row: Row, r: Row) {
    || IsKept(w, parts, where, row, r)
    || (optional && (!exists kept :: IsKept(w, parts, where, row, kept)) && IsFilled(row, PartsNames(parts), r))
  }

  lemma PieceHolds(w: World, optional: bool, parts: seq<Part>, where: Expr, row: Row, piece: seq<Row>, r: Row)
    requires MatchedFrom(w, optional, parts, where, row, piece)
    ensures r in piece <==> MadeFrom(w, optional, parts, where, row, r)
  {
    hide MatchAll, Selects, Passes, ReachedBy, IsFilled;
    var all := MatchAll(w, parts, [row]).value;
    var keep := (x: Row) => Passes(w, where, x);
    var kept :| KeptBy(w, where, all, kept)
                && if kept == [] && optional then |piece| == 1 && IsFilled(row, PartsNames(parts), piece[0]) else piece == kept;
    SelectedAre(all, kept, keep);
    forall x ensures x in kept <==> IsKept(w, parts, where, row, x) {
      AllMatched(w, parts, [row], x);
      assert row in [row] && forall other | other in [row] :: other == row;
    }
    if kept != [] { assert kept[0] in kept; }
    if kept == [] && optional {
      assert piece == [piece[0]];
      if IsFilled(row, PartsNames(parts), r) { FilledOnce(row, PartsNames(parts), r, piece[0]); }
    }
  }

  lemma FilledOnce(row: Row, names: set<Name>, a: Row, b: Row)
    requires IsFilled(row, names, a) && IsFilled(row, names, b)
    ensures a == b
  {
    assert a.Keys == b.Keys;
  }

  // ---- UNWIND ----

  /** One row for each item, in the order of the list; none for null. */
  ghost predicate UnwoundFrom(w: World, list: Expr, alias: Name, row: Row, result: seq<Row>) {
    var v := Eval(w, list, row, None);
    || (v == Done(Null) && result == [])
    || (v.Done? && v.value.List? && |result| == |v.value.items|
        && forall i | 0 <= i < |result| :: IsItemRow(row, alias, v.value.items[i], result[i]))
  }

  ghost predicate IsItemRow(row: Row, alias: Name, item: Value, r: Row) {
    (forall x :: x in r <==> x in row || x == alias) && forall x | x in r :: r[x] == if x == alias then item else row[x]
  }

  lemma {:induction false} UnwindRowsMean(w: World, list: Expr, alias: Name, rows: seq<Row>) returns (pieces: seq<seq<Row>>)
    requires UnwindRows(w, list, alias, rows).Done?
    ensures IsJoin(rows, UnwindRows(w, list, alias, rows).value, pieces)
    ensures forall i | 0 <= i < |rows| :: UnwoundFrom(w, list, alias, rows[i], pieces[i])
  {
    hide Eval;
    if rows == [] { return []; }
    var rest := UnwindRowsMean(w, list, alias, rows[1..]);
    var v := Eval(w, list, rows[0], None).value;
    var first := if v.Null? then [] else Unwound(rows[0], alias, v.items);
    assert UnwoundFrom(w, list, alias, rows[0], first);
    assert UnwindRows(w, list, alias, rows).value == first + UnwindRows(w, list, alias, rows[1..]).value;
    hide UnwoundFrom, UnwindRows;
    pieces := [first] + rest;
    assert pieces[1..] == rest;
  }

  lemma UnwindMeans(w: World, list: Expr, alias: Name, s: State) returns (pieces: seq<seq<Row>>)
    requires Steps(w, [Unwind(list, alias)], s).Done?
    ensures var next := Steps(w, [Unwind(list, alias)], s).value;
            && IsJoin(s.rows, next.rows, pieces) && next.known == s.known + {alias}
            && forall i | 0 <= i < |s.rows| :: UnwoundFrom(w, list, alias, s.rows[i], pieces[i])
  {
    OneStep(w, Unwind(list, alias), s);
    hide Steps, UnwindRows, UnwoundFrom;
    pieces := UnwindRowsMean(w, list, alias, s.rows);
  }

  // ---- WITH and RETURN ----

  /** The first line of each key, in their order. */
  ghost predicate FirstOfEachKey(w: World, lines: seq<Line>, firsts: seq<Line>) {
    SelectsAt(lines, firsts, i => IsFirstOfKey(w, lines, i))
  }

  predicate IsFirstOfKey(w: World, lines: seq<Line>, i: int) {
    0 <= i < |lines| && forall j | 0 <= j < i :: w.valueKey(None, lines[j].values) != w.valueKey(None, lines[i].values)
  }

  /** The first of its key, and that not among those seen. */
  predicate IsUnseenFirst(w: World, lines: seq<Line>, seen: set<string>, i: int) {
    IsFirstOfKey(w, lines, i) && w.valueKey(None, lines[i].values) !in seen
  }

  lemma {:induction false} DistinctMeans(w: World, lines: seq<Line>, seen: set<string>)
    ensures SelectsAt(lines, Distinct(w, lines, seen), i => IsUnseenFirst(w, lines, seen, i))
  {
    hide SelectsAt;
    var keep := i => IsUnseenFirst(w, lines, seen, i);
    if lines == [] {
      SelectsNoneAt<Line>(keep);
    } else {
      var (key, tail) := (w.valueKey(None, lines[0].values), lines[1..]);
      var more := if key in seen then seen else seen + {key};
      var later := i => IsUnseenFirst(w, tail, more, i);
      DistinctMeans(w, tail, more);
      forall i: nat | i < |tail| ensures keep(i + 1) == later(i) { LaterFirst(w, lines, i + 1); }
      SelectsFirstAt(lines[0], tail, Distinct(w, tail, more), later, keep);
      assert [lines[0]] + tail == lines;
      assert keep(0) <==> key !in seen;
      assert Distinct(w, lines, seen) == (if keep(0) then [lines[0]] else []) + Distinct(w, tail, more);
    }
  }

  lemma LaterFirst(w: World, lines: seq<Line>, i: nat)
    requires 0 < i < |lines|
    ensures IsFirstOfKey(w, lines, i) <==>
            IsFirstOfKey(w, lines[1..], i - 1) && w.valueKey(None, lines[0].values) != w.valueKey(None, lines[i].values)
  {
    if IsFirstOfKey(w, lines[1..], i - 1) && w.valueKey(None, lines[0].values) != w.valueKey(None, lines[i].values) {
      forall j | 0 <= j < i ensures w.valueKey(None, lines[j].values) != w.valueKey(None, lines[i].values) {
        if j > 0 { assert lines[1..][j - 1] == lines[j]; }
      }
    }
  }

  /** keys holds, for each line, its values of the ORDER BY expressions. */
  ghost predicate AreKeys(w: World, order: seq<Sort>, lines: seq<Line>, keys: seq<seq<Value>>) {
    |keys| == |lines| && forall i | 0 <= i < |lines| :: AreLineKeys(w, order, lines[i], keys[i])
  }

  ghost predicate AreLineKeys(w: World, order: seq<Sort>, line: Line, key: seq<Value>) {
    |key| == |order| && forall q | 0 <= q < |order| :: Eval(w, order[q].expr, line.sortRow, line.group) == Done(key[q])
  }

  /** The positions in the order of the keys, each under its direction. */
  ghost predicate AreDirections(order: seq<Sort>, descending: seq<bool>) {
    |descending| == |order| && forall q | 0 <= q < |order| :: descending[q] == order[q].descending
  }

  /** The lines in the order asked for, or as they are. */
  ghost predicate InOrderOf(w: World, order: seq<Sort>, lines: seq<Line>, sorted: seq<Line>) {
    if order == [] then sorted == lines
    else exists keys, descending :: AreKeys(w, order, lines, keys) && AreDirections(order, descending)
                                    && TakenAt(lines, sorted, w.order(keys, descending))
  }

  /** The lines at the positions given, those beyond the end left out. */
  predicate TakenAt(lines: seq<Line>, taken: seq<Line>, at: seq<nat>)
    decreases |at|
  {
    if at == [] then taken == []
    else if at[0] < |lines| then taken != [] && taken[0] == lines[at[0]] && TakenAt(lines, taken[1..], at[1..])
    else TakenAt(lines, taken, at[1..])
  }

  lemma {:induction false} PickMeans(lines: seq<Line>, at: seq<nat>)
    ensures TakenAt(lines, Pick(lines, at), at)
    decreases |at|
  {
    if at != [] {
      PickMeans(lines, at[1..]);
      if at[0] < |lines| { assert Pick(lines, at)[1..] == Pick(lines, at[1..]); } else { assert Pick(lines, at) == Pick(lines, at[1..]); }
    }
  }

  lemma {:induction false} KeysEvaluated(w: World, es: seq<Expr>, row: Row, group: Option<seq<Row>>)
    requires EvalAll(w, es, row, group).Done?
    ensures var v := EvalAll(w, es, row, group).value; |v| == |es| && forall q | 0 <= q < |es| :: Eval(w, es[q], row, group) == Done(v[q])
    decreases |es|
  {
    hide Eval;
    if es != [] { KeysEvaluated(w, es[1..], row, group); }
  }

  lemma {:induction false} SortKeysMean(w: World, order: seq<Sort>, lines: seq<Line>)
    requires SortKeys(w, order, lines).Done?
    ensures AreKeys(w, order, lines, SortKeys(w, order, lines).value)
    decreases |lines|
  {
    hide Eval, EvalAll;
    if lines != [] {
      KeysEvaluated(w, Exprs(order), lines[0].sortRow, lines[0].group);
      SortKeysMean(w, order, lines[1..]);
      var keys := SortKeys(w, order, lines).value;
      assert AreLineKeys(w, order, lines[0], keys[0]);
      forall i | 0 < i < |lines| ensures AreLineKeys(w, order, lines[i], keys[i]) { assert lines[1..][i - 1] == lines[i] && keys[1..][i - 1] == keys[i]; }
    }
  }

  lemma OrderedMeans(w: World, order: seq<Sort>, lines: seq<Line>)
    requires Ordered(w, order, lines).Done?
    ensures InOrderOf(w, order, lines, Ordered(w, order, lines).value)
  {
    hide Eval, EvalAll, SortKeys, AreKeys, Pick, TakenAt;
    if order != [] {
      SortKeysMean(w, order, lines);
      var (keys, descending) := (SortKeys(w, order, lines).value, Directions(order));
      assert AreDirections(order, descending);
      PickMeans(lines, w.order(keys, descending));
    }
  }

  /** n is the value of SKIP or LIMIT. */
  predicate IsCount(w: World, e: Expr, n: nat) {
    var v := Eval(w, e, map[], None);
    v.Done? && w.integer(v.value) == Some(n)
  }

  /** The lines from position s on, and l of them at most. */
  ghost predicate IsWindow(w: World, skip: Expr, limit: Expr, lines: seq<Line>, window: seq<Line>) {
    exists from: nat, to: nat :: IsCut(w, skip, limit, lines, window, from, to)
  }

  ghost predicate IsCut(w: World, skip: Expr, limit: Expr, lines: seq<Line>, window: seq<Line>, from: nat, to: nat) {
    from <= to <= |lines| && window == lines[from..to] && StartsAt(w, skip, |lines|, from) && StopsAt(w, limit, |lines|, from, to)
  }

  lemma PagedMeans(w: World, skip: Expr, limit: Expr, lines: seq<Line>)
    requires Paged(w, skip, limit, lines).Done?
    ensures IsWindow(w, skip, limit, lines, Paged(w, skip, limit, lines).value)
  {
    CountIs(w, skip, 0);
    CountIs(w, limit, |lines|);
    PagedIs(w, skip, limit, lines);
    var (s, l) := (Count(w, skip, 0).value, Count(w, limit, |lines|).value);
    hide *;
    SkipIs(w, skip, |lines|, s);
    LimitIs(w, limit, |lines|, From(s, |lines|), l);
    CutIs(w, skip, limit, lines, From(s, |lines|), To(From(s, |lines|), l, |lines|));
  }

  function From(s: nat, n: nat): nat {
    if s <= n then s else n
  }

  function To(from: nat, l: nat, n: nat): nat {
    if from <= n && l < n - from then from + l else n
  }

  lemma PagedIs(w: World, skip: Expr, limit: Expr, lines: seq<Line>)
    requires Paged(w, skip, limit, lines).Done?
    ensures Count(w, skip, 0).Done? && Count(w, limit, |lines|).Done?
    ensures var from := From(Count(w, skip, 0).value, |lines|);
            var to := To(from, Count(w, limit, |lines|).value, |lines|);
            from <= to <= |lines| && Paged(w, skip, limit, lines).value == lines[from..to]
  {
    hide Count;
    WindowIs(lines, Count(w, skip, 0).value, Count(w, limit, |lines|).value);
  }

  /** SKIP starts at its number, or at the end. */
  ghost predicate StartsAt(w: World, skip: Expr, n: nat, from: nat) {
    if skip.Absent? then from == 0 else exists s: nat | s == from || (from == n && s > n) :: IsCount(w, skip, s)
  }

  /** LIMIT stops after its number, or at the end. */
  ghost predicate StopsAt(w: World, limit: Expr, n: nat, from: nat, to: nat) {
    if limit.Absent? then to == n else exists l: nat | from + l == to || (to == n && from + l > n) :: IsCount(w, limit, l)
  }

  lemma SkipIs(w: World, skip: Expr, n: nat, s: nat)
    requires if skip.Absent? then s == 0 else IsCount(w, skip, s)
    ensures StartsAt(w, skip, n, From(s, n))
  {
    hide IsCount;
  }

  lemma LimitIs(w: World, limit: Expr, n: nat, from: nat, l: nat)
    requires from <= n && if limit.Absent? then l == n else IsCount(w, limit, l)
    ensures StopsAt(w, limit, n, from, To(from, l, n))
  {
    hide IsCount;
  }

  lemma CutIs(w: World, skip: Expr, limit: Expr, lines: seq<Line>, from: nat, to: nat)
    requires from <= to <= |lines| && StartsAt(w, skip, |lines|, from) && StopsAt(w, limit, |lines|, from, to)
    ensures IsWindow(w, skip, limit, lines, lines[from..to])
  {
    hide StartsAt, StopsAt;
    assert IsCut(w, skip, limit, lines, lines[from..to], from, to);
  }

  lemma WindowIs(lines: seq<Line>, s: nat, l: nat)
    ensures var from: nat := if s <= |lines| then s else |lines|;
            var to: nat := if l < |lines| - from then from + l else |lines|;
            var rest := if s <= |lines| then lines[s..] else [];
            (if l < |rest| then rest[..l] else rest) == lines[from..to]
  {
  }

  lemma CountIs(w: World, e: Expr, absent: nat)
    requires Count(w, e, absent).Done?
    ensures if e.Absent? then Count(w, e, absent).value == absent else IsCount(w, e, Count(w, e, absent).value)
  {
    hide Eval;
  }

  /** What a projection makes of its lines: those whose WHERE is true, the first of each
      key if DISTINCT, in the order asked for, and of these the window. */
  ghost predicate ComesFrom(w: World, p: Projection, lines: seq<Line>, result: seq<Line>) {
    exists kept, distinct, sorted ::
      && LinesKept(w, p.where, lines, kept)
      && (if p.distinct then FirstOfEachKey(w, kept, distinct) else distinct == kept)
      && InOrderOf(w, p.order, distinct, sorted)
      && IsWindow(w, p.skip, p.limit, sorted, result)
  }

  ghost predicate LinesKept(w: World, where: Expr, lines: seq<Line>, kept: seq<Line>) {
    Selects(lines, kept, (l: Line) => Passes(w, where, l.filterRow))
  }

  lemma ProjectMeans(w: World, p: Projection, known: set<Name>, rows: seq<Row>) returns (lines: seq<Line>)
    requires Project(w, p, known, rows).Done?
    ensures Lines(w, p.items, Project(w, p, known, rows).value.columns, rows) == Done(lines)
    ensures ComesFrom(w, p, lines, Project(w, p, known, rows).value.lines)
  {
    hide Lines, Filtered, Distinct, Ordered, Paged, Columns, Selects, InOrderOf, IsWindow, FirstOfEachKey, SelectsAt;
    var columns := Columns(p.items, known, rows);
    lines := Lines(w, p.items, columns, rows).value;
    var kept := Filtered(w, p.where, lines).value;
    var distinct := if p.distinct then Distinct(w, kept, {}) else kept;
    var sorted := Ordered(w, p.order, distinct).value;
    FilteredSelects(w, p.where, lines);
    assert LinesKept(w, p.where, lines, kept);
    DistinctMeans(w, kept, {});
    NothingSeen(w, kept, Distinct(w, kept, {}));
    OrderedMeans(w, p.order, distinct);
    PagedMeans(w, p.skip, p.limit, sorted);
  }

  lemma NothingSeen(w: World, lines: seq<Line>, firsts: seq<Line>)
    requires SelectsAt(lines, firsts, i => IsUnseenFirst(w, lines, {}, i))
    ensures FirstOfEachKey(w, lines, firsts)
  {
    var at :| ChosenAt(lines, firsts, at) && forall i: nat | i < |lines| :: i in at <==> (i => IsUnseenFirst(w, lines, {}, i))(i);
    forall i: nat | i < |lines| ensures i in at <==> (i => IsFirstOfKey(w, lines, i))(i) { assert i in at <==> IsUnseenFirst(w, lines, {}, i); }
  }

  // ---- what stands in a line ----

  /** The column of an item: its alias, the variable it is, or its text. */
  function ColumnOf(item: Item): Name
    requires item.Item?
  {
    if item.alias != "" then item.alias else if item.expr.Variable? then item.expr.name else item.text
  }

  predicate NoStar(items: seq<Item>) {
    forall i | 0 <= i < |items| :: items[i].Item?
  }

  lemma {:induction false} ColumnsAre(items: seq<Item>, known: set<Name>, rows: seq<Row>)
    requires NoStar(items)
    ensures var c := Columns(items, known, rows); |c| == |items| && forall i | 0 <= i < |items| :: c[i] == ColumnOf(items[i])
  {
    if items != [] {
      ColumnsAre(items[1..], known, rows);
      var (c, rest) := (Columns(items, known, rows), Columns(items[1..], known, rows));
      assert c == [ColumnOf(items[0])] + rest;
      forall i | 0 < i < |items| ensures c[i] == ColumnOf(items[i]) { assert rest[i - 1] == ColumnOf(items[1..][i - 1]); }
    }
  }

  lemma {:induction false} ValuesAre(w: World, items: seq<Item>, row: Row, group: Option<seq<Row>>)
    requires NoStar(items) && Values(w, items, row, group).Done?
    ensures var v := Values(w, items, row, group).value;
            |v| == |items| && forall i | 0 <= i < |items| :: Eval(w, items[i].expr, row, group) == Done(v[i])
  {
    hide Eval;
    if items != [] {
      ValuesAre(w, items[1..], row, group);
      var (v, rest) := (Values(w, items, row, group).value, Values(w, items[1..], row, group).value);
      var first := Eval(w, items[0].expr, row, group).value;
      assert v == [first] + rest;
      forall i | 0 < i < |items| ensures Eval(w, items[i].expr, row, group) == Done(v[i]) { assert v[i] == rest[i - 1] && items[1..][i - 1] == items[i]; }
    }
  }

  /** A line holds under the column of each item its value, evaluated on the row. */
  ghost predicate LineHolds(w: World, items: seq<Item>, row: Row, group: Option<seq<Row>>, line: Line) {
    && |line.values| == |items|
    && (forall i | 0 <= i < |items| :: items[i].Item? && Eval(w, items[i].expr, row, group) == Done(line.values[i]))
    && (forall x :: x in line.row <==> exists i :: 0 <= i < |items| && ColumnOf(items[i]) == x)
    && forall i | 0 <= i < |items| :: ColumnOf(items[i]) in line.row && line.row[ColumnOf(items[i])] == line.values[i]
  }

  lemma LineIs(w: World, items: seq<Item>, known: set<Name>, rows: seq<Row>, row: Row, group: Option<seq<Row>>, line: Line)
    requires NoStar(items) && NoDup(Columns(items, known, rows)) && Values(w, items, row, group) == Done(line.values)
    requires Mapped(Columns(items, known, rows), line.values) == Done(line.row)
    ensures LineHolds(w, items, row, group, line)
  {
    var columns := Columns(items, known, rows);
    ColumnsAre(items, known, rows);
    ValuesAre(w, items, row, group);
    hide *;
    RowHolds(columns, line.values, line.row);
    forall i | 0 <= i < |items| ensures items[i].Item? { StarFree(items, i); }
    forall x ensures x in line.row <==> exists i :: 0 <= i < |items| && ColumnOf(items[i]) == x {
      assert (exists i :: 0 <= i < |columns| && columns[i] == x) <==> exists i :: 0 <= i < |items| && ColumnOf(items[i]) == x;
    }
    LineHoldsIf(w, items, row, group, line);
  }

  lemma StarFree(items: seq<Item>, i: nat)
    requires NoStar(items) && i < |items|
    ensures items[i].Item?
  {
  }

  lemma LineHoldsIf(w: World, items: seq<Item>, row: Row, group: Option<seq<Row>>, line: Line)
    requires |line.values| == |items| && forall i | 0 <= i < |items| :: items[i].Item?
    requires forall i | 0 <= i < |items| :: Eval(w, items[i].expr, row, group) == Done(line.values[i])
    requires forall x :: x in line.row <==> exists i :: 0 <= i < |items| && ColumnOf(items[i]) == x
    requires forall i | 0 <= i < |items| :: ColumnOf(items[i]) in line.row && line.row[ColumnOf(items[i])] == line.values[i]
    ensures LineHolds(w, items, row, group, line)
  {
    hide Eval, ColumnOf;
  }

  lemma RowHolds(columns: seq<Name>, values: seq<Value>, row: Row)
    requires NoDup(columns) && |columns| == |values| && Mapped(columns, values) == Done(row)
    ensures forall x :: x in row <==> exists i :: 0 <= i < |columns| && columns[i] == x
    ensures forall i | 0 <= i < |columns| :: columns[i] in row && row[columns[i]] == values[i]
  {
    hide Zip;
    ZipIs(columns, values);
    forall i | 0 <= i < |columns| ensures columns[i] in row && row[columns[i]] == values[i] {
      ZipAt(columns, values, |columns|, i);
      assert columns[i] in columns;
    }
  }

  /** Without an aggregate there is a line for each row, in their order. */
  lemma {:induction false} RowLinesMean(w: World, items: seq<Item>, known: set<Name>, all: seq<Row>, rows: seq<Row>)
    requires NoStar(items) && NoDup(Columns(items, known, all)) && RowLines(w, items, Columns(items, known, all), rows).Done?
    ensures var lines := RowLines(w, items, Columns(items, known, all), rows).value;
            |lines| == |rows| && forall i | 0 <= i < |rows| :: LineHolds(w, items, rows[i], None, lines[i])
    decreases |rows|
  {
    hide Eval, LineHolds, Values, Mapped;
    if rows != [] {
      RowLinesMean(w, items, known, all, rows[1..]);
      var (lines, rest) := (RowLines(w, items, Columns(items, known, all), rows).value, RowLines(w, items, Columns(items, known, all), rows[1..]).value);
      LineIs(w, items, known, all, rows[0], None, lines[0]);
      forall i | 0 < i < |rows| ensures LineHolds(w, items, rows[i], None, lines[i]) { assert lines[i] == rest[i - 1] && rows[1..][i - 1] == rows[i]; }
    }
  }

  /** The row that stands for a group. */
  function Standing(group: seq<Row>): Row {
    if group == [] then map[] else group[0]
  }

  /** With one there is a line for each group, evaluated on its first row and all of it. */
  lemma {:induction false} GroupLinesMean(w: World, items: seq<Item>, known: set<Name>, all: seq<Row>, groups: seq<seq<Row>>)
    requires NoStar(items) && NoDup(Columns(items, known, all)) && GroupLines(w, items, Columns(items, known, all), groups).Done?
    ensures var lines := GroupLines(w, items, Columns(items, known, all), groups).value;
            |lines| == |groups| && forall i | 0 <= i < |groups| :: LineHolds(w, items, Standing(groups[i]), Some(groups[i]), lines[i])
    decreases |groups|
  {
    hide Eval, LineHolds, Values, Mapped;
    if groups != [] {
      GroupLinesMean(w, items, known, all, groups[1..]);
      var (lines, rest) := (GroupLines(w, items, Columns(items, known, all), groups).value, GroupLines(w, items, Columns(items, known, all), groups[1..]).value);
      LineIs(w, items, known, all, Standing(groups[0]), Some(groups[0]), lines[0]);
      forall i | 0 < i < |groups| ensures LineHolds(w, items, Standing(groups[i]), Some(groups[i]), lines[i]) { assert lines[i] == rest[i - 1] && groups[1..][i - 1] == groups[i]; }
    }
  }

  /** The lines of a projection: one for each row, or, with an aggregate, for each group
      of a partition of the rows by their grouping values. */
  lemma LinesMean(w: World, items: seq<Item>, known: set<Name>, rows: seq<Row>) returns (groups: seq<seq<Row>>)
    requires NoStar(items) && NoDup(Columns(items, known, rows)) && Lines(w, items, Columns(items, known, rows), rows).Done?
    ensures var lines := Lines(w, items, Columns(items, known, rows), rows).value;
            if !Aggregates(items) then |lines| == |rows| && forall i | 0 <= i < |rows| :: LineHolds(w, items, rows[i], None, lines[i])
            else Groups(w, items, rows) == Done(groups) && |lines| == |groups|
                 && forall i | 0 <= i < |groups| :: LineHolds(w, items, Standing(groups[i]), Some(groups[i]), lines[i])
  {
    hide RowLines, GroupLines, Groups, LineHolds, Columns, Aggregates;
    if Aggregates(items) {
      groups := Groups(w, items, rows).value;
      GroupLinesMean(w, items, known, rows, groups);
    } else {
      groups := [];
      RowLinesMean(w, items, known, rows, rows);
    }
  }

  /** WITH hands on the rows of its lines, and RETURN gives the lines under their columns. */
  lemma ProjectionStep(w: World, p: Projection, s: State)
    ensures Steps(w, [With(p)], s).Done? <==> Project(w, p, s.known, s.rows).Done?
    ensures Steps(w, [Return(p)], s).Done? <==> Project(w, p, s.known, s.rows).Done?
    ensures Steps(w, [With(p)], s).Done? ==> AreRowsOf(Project(w, p, s.known, s.rows).value.lines, Steps(w, [With(p)], s).value.rows)
    ensures Steps(w, [Return(p)], s).Done? ==>
              Steps(w, [Return(p)], s).value.result == Project(w, p, s.known, s.rows).value
              && AreRowsOf(Project(w, p, s.known, s.rows).value.lines, Steps(w, [Return(p)], s).value.rows)
  {
    OneStep(w, With(p), s);
    OneStep(w, Return(p), s);
    hide Steps, Project, StaticColumns;
  }

  predicate AreRowsOf(lines: seq<Line>, rows: seq<Row>) {
    |rows| == |lines| && forall i | 0 <= i < |rows| :: rows[i] == lines[i].row
  }

  /** Clauses run one after the other, until one fails. */
  lemma StepsJoin(w: World, first: Clause, rest: seq<Clause>, s: State)
    ensures Steps(w, [first] + rest, s) == if Steps(w, [first], s).Bad? then Bad(Steps(w, [first], s).reason) else Steps(w, rest, Steps(w, [first], s).value)
  {
    OneStep(w, first, s);
    hide Step;
    assert ([first] + rest)[1..] == rest;
  }
}
