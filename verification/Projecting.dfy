/** WITH and RETURN: projection, grouping, filtering, DISTINCT, ORDER BY, SKIP and
    LIMIT, the static checks on them, and what those checks are worth. */
module Projecting {
  import opened Base
  import opened Sorted
  import opened Syntax
  import opened ScopeCheck
  import opened Evaluation

  // ---- columns and values ----

  ghost predicate RowsHave(rows: seq<Row>, scope: set<Name>) {
    forall r | r in rows :: r.Keys == scope
  }

  function RowsNames(rows: seq<Row>): set<Name> {
    if rows == [] then {} else rows[0].Keys + RowsNames(rows[1..])
  }

  /** projectionColumns. */
  function Columns(items: seq<Item>, known: set<Name>, rows: seq<Row>): seq<Name> {
    if items == [] then []
    else
      (match items[0]
       case Star => SortedIds(known + RowsNames(rows))
       case Item(e, alias, text, _) => [if alias != "" then alias else if e.Variable? then e.name else text])
      + Columns(items[1..], known, rows)
  }

  function ValuesOf(row: Row, names: seq<Name>): (values: seq<Value>)
    ensures |values| == |names|
  {
    seq(|names|, i requires 0 <= i < |names| => if names[i] in row then row[names[i]] else Null)
  }

  /** evaluateProjectionValues. */
  function Values(w: World, items: seq<Item>, row: Row, group: Option<seq<Row>>): Outcome<seq<Value>> {
    if items == [] then Done([])
    else
      var here :- if items[0].Star? then Done(ValuesOf(row, SortedIds(row.Keys)))
                  else (var v :- Eval(w, items[0].expr, row, group); Done([v]));
      var rest :- Values(w, items[1..], row, group);
      Done(here + rest)
  }

  function Zip(columns: seq<Name>, values: seq<Value>, n: nat): (row: Row)
    requires n <= |columns| && n <= |values|
    ensures row.Keys == set c | c in columns[..n]
  {
    if n == 0 then map[]
    else
      assert columns[..n] == columns[..n - 1] + [columns[n - 1]];
      Zip(columns, values, n - 1)[columns[n - 1] := values[n - 1]]
  }

  /** evaluateProjection: one value for each column, by position. */
  function Mapped(columns: seq<Name>, values: seq<Value>): Outcome<Row> {
    if |columns| > |values| then Bad(Panic) else Done(Zip(columns, values, |columns|))
  }

  /** With distinct columns, each holds the value at its position. */
  lemma {:induction false} ZipAt(columns: seq<Name>, values: seq<Value>, n: nat, i: nat)
    requires i < n <= |columns| && n <= |values| && NoDup(columns)
    ensures Zip(columns, values, n)[columns[i]] == values[i]
  {
    if i < n - 1 { ZipAt(columns, values, n - 1, i); }
  }

  lemma ValueAt(row: Row, names: seq<Name>, i: nat)
    requires i < |names| && names[i] in row
    ensures ValuesOf(row, names)[i] == row[names[i]]
  {
  }

  /** A star projects a row onto itself. */
  lemma StarIsRow(row: Row)
    ensures Mapped(SortedIds(row.Keys), ValuesOf(row, SortedIds(row.Keys))) == Done(row)
  {
    hide *;
    var names := SortedIds(row.Keys);
    var values := ValuesOf(row, names);
    SortedHolds(row.Keys);
    IncreasingNoDup(names);
    ZipIs(names, values);
    var mapped := Zip(names, values, |names|);
    forall x | x in row ensures x in mapped && mapped[x] == row[x] {
      var i := IndexOf(names, x);
      ZipAt(names, values, |names|, i);
      ValueAt(row, names, i);
    }
    assert mapped.Keys == row.Keys;
    assert mapped == row;
  }

  lemma ZipIs(columns: seq<Name>, values: seq<Value>)
    requires |values| == |columns|
    ensures Mapped(columns, values) == Done(Zip(columns, values, |columns|))
    ensures forall x :: x in Zip(columns, values, |columns|) <==> x in columns
  {
    hide Zip;
    assert columns[..|columns|] == columns;
  }

  lemma IndexOf(names: seq<Name>, x: Name) returns (i: nat)
    requires x in names
    ensures i < |names| && names[i] == x
  {
    i :| 0 <= i < |names| && names[i] == x;
  }

  // ---- grouping ----

  predicate Aggregates(items: seq<Item>) {
    exists i :: 0 <= i < |items| && items[i].Item? && HasAggregate(items[i].expr)
  }

  predicate HasStar(items: seq<Item>) {
    Star in items
  }

  /** The expressions rows are grouped by. */
  function GroupExprs(items: seq<Item>): seq<Expr> {
    if items == [] then []
    else (if items[0].Item? && !HasAggregate(items[0].expr) then [items[0].expr] else []) + GroupExprs(items[1..])
  }

  function EvalAll(w: World, es: seq<Expr>, row: Row, group: Option<seq<Row>>): Outcome<seq<Value>> {
    if es == [] then Done([])
    else
      var v :- Eval(w, es[0], row, group);
      var rest :- EvalAll(w, es[1..], row, group);
      Done([v] + rest)
  }

  datatype Group = Group(key: string, rows: seq<Row>)

  function AddTo(groups: seq<Group>, key: string, row: Row): seq<Group> {
    if groups == [] then [Group(key, [row])]
    else if groups[0].key == key then [Group(key, groups[0].rows + [row])] + groups[1..]
    else [groups[0]] + AddTo(groups[1..], key, row)
  }

  /** groupRows, with at least one grouping expression or a star. */
  function Grouping(w: World, items: seq<Item>, rows: seq<Row>): Outcome<seq<Group>> {
    if rows == [] then Done([])
    else
      var (n, row) := (|rows| - 1, rows[|rows| - 1]);
      var before :- Grouping(w, items, rows[..n]);
      var values :- EvalAll(w, GroupExprs(items), row, None);
      Done(AddTo(before, w.valueKey(if HasStar(items) then Some(row) else None, values), row))
  }

  // ---- groups, distinct lines and pages ----

  function KeyOf(w: World, items: seq<Item>, row: Row): Outcome<string> {
    var values :- EvalAll(w, GroupExprs(items), row, None);
    Done(w.valueKey(if HasStar(items) then Some(row) else None, values))
  }

  ghost function AllRows(groups: seq<Group>): multiset<Row> {
    if groups == [] then multiset{} else multiset(groups[0].rows) + AllRows(groups[1..])
  }

  function GroupKeys(groups: seq<Group>): (keys: seq<string>)
    ensures |keys| == |groups| && forall i | 0 <= i < |keys| :: keys[i] == groups[i].key
  {
    seq(|groups|, i requires 0 <= i < |groups| => groups[i].key)
  }

  ghost predicate KeyedRows(w: World, items: seq<Item>, groups: seq<Group>) {
    forall g | g in groups :: g.rows != [] && forall r | r in g.rows :: KeyOf(w, items, r) == Done(g.key)
  }

  lemma {:induction false} AddToRows(groups: seq<Group>, key: string, row: Row)
    ensures AllRows(AddTo(groups, key, row)) == AllRows(groups) + multiset{row}
  {
    if groups == [] {
      assert [Group(key, [row])][1..] == [];
    } else if groups[0].key == key {
      assert ([Group(key, groups[0].rows + [row])] + groups[1..])[1..] == groups[1..];
    } else {
      AddToRows(groups[1..], key, row);
      assert ([groups[0]] + AddTo(groups[1..], key, row))[1..] == AddTo(groups[1..], key, row);
    }
  }

  /** A new key comes last. */
  lemma {:induction false} AddToKeys(groups: seq<Group>, key: string, row: Row)
    ensures GroupKeys(AddTo(groups, key, row)) == if key in GroupKeys(groups) then GroupKeys(groups) else GroupKeys(groups) + [key]
  {
    hide *;
    AddToIs(groups, key, row);
    if groups == [] {
      ConsKeys(Group(key, [row]), []);
      assert [Group(key, [row])] + [] == [Group(key, [row])];
    } else {
      var (first, tail) := (groups[0], groups[1..]);
      assert [first] + tail == groups;
      ConsKeys(first, tail);
      if first.key == key {
        ConsKeys(Group(key, first.rows + [row]), tail);
      } else {
        AddToKeys(tail, key, row);
        ConsKeys(first, AddTo(tail, key, row));
        assert [first.key] + (GroupKeys(tail) + [key]) == ([first.key] + GroupKeys(tail)) + [key];
      }
    }
  }

  lemma AddToIs(groups: seq<Group>, key: string, row: Row)
    ensures AddTo(groups, key, row) ==
            if groups == [] then [Group(key, [row])]
            else if groups[0].key == key then [Group(key, groups[0].rows + [row])] + groups[1..]
            else [groups[0]] + AddTo(groups[1..], key, row)
  {
  }

  lemma ConsKeys(first: Group, rest: seq<Group>)
    ensures GroupKeys([first] + rest) == [first.key] + GroupKeys(rest)
  {
    var all := [first] + rest;
    forall i | 0 < i < |all| ensures GroupKeys(all)[i] == GroupKeys(rest)[i - 1] { assert all[i] == rest[i - 1]; }
  }

  lemma {:induction false} AddToKeyed(w: World, items: seq<Item>, groups: seq<Group>, key: string, row: Row)
    requires KeyedRows(w, items, groups) && KeyOf(w, items, row) == Done(key)
    ensures KeyedRows(w, items, AddTo(groups, key, row))
  {
    hide KeyOf;
    if groups != [] {
      assert groups[0] in groups;
      if groups[0].key != key { AddToKeyed(w, items, groups[1..], key, row); }
    }
  }

  lemma NewKey(keys: seq<string>, key: string)
    requires NoDup(keys)
    ensures NoDup(if key in keys then keys else keys + [key])
  {
    if key !in keys { AppendNoDup(keys, [key]); }
  }

  /** Grouping loses and invents no row; rows are together exactly when their
      grouping values are the same. */
  lemma {:induction false} GroupingIsPartition(w: World, items: seq<Item>, rows: seq<Row>)
    requires Grouping(w, items, rows).Done?
    ensures var groups := Grouping(w, items, rows).value;
            AllRows(groups) == multiset(rows) && KeyedRows(w, items, groups) && NoDup(GroupKeys(groups))
  {
    hide EvalAll, AddTo, KeyedRows, AllRows;
    if rows == [] {
      assert KeyedRows(w, items, []) && AllRows([]) == multiset{} by { NoGroupRows(w, items); }
    } else {
      var (n, row) := (|rows| - 1, rows[|rows| - 1]);
      GroupingIsPartition(w, items, rows[..n]);
      assert rows == rows[..n] + [row];
      var (before, key) := (Grouping(w, items, rows[..n]).value, KeyOf(w, items, row).value);
      AddToRows(before, key, row);
      AddToKeys(before, key, row);
      AddToKeyed(w, items, before, key, row);
      NewKey(GroupKeys(before), key);
    }
  }

  lemma NoGroupRows(w: World, items: seq<Item>)
    ensures KeyedRows(w, items, []) && AllRows([]) == multiset{}
  {
  }

  function Groups(w: World, items: seq<Item>, rows: seq<Row>): Outcome<seq<seq<Row>>> {
    if GroupExprs(items) == [] && !HasStar(items) then Done([rows])
    else
      var groups :- Grouping(w, items, rows);
      Done(seq(|groups|, i requires 0 <= i < |groups| => groups[i].rows))
  }

  // ---- the lines of a projection ----

  /** A projected row, its values, the rows ORDER BY and WHERE read, and its group. */
  datatype Line = Line(row: Row, values: seq<Value>, sortRow: Row, filterRow: Row, group: Option<seq<Row>>)

  function RowLines(w: World, items: seq<Item>, columns: seq<Name>, rows: seq<Row>): Outcome<seq<Line>> {
    if rows == [] then Done([])
    else
      var values :- Values(w, items, rows[0], None);
      var mapped :- Mapped(columns, values);
      var rest :- RowLines(w, items, columns, rows[1..]);
      Done([Line(mapped, values, rows[0] + mapped, rows[0] + mapped, None)] + rest)
  }

  function GroupLines(w: World, items: seq<Item>, columns: seq<Name>, groups: seq<seq<Row>>): Outcome<seq<Line>> {
    if groups == [] then Done([])
    else
      var first := if groups[0] == [] then map[] else groups[0][0];
      var values :- Values(w, items, first, Some(groups[0]));
      var mapped :- Mapped(columns, values);
      var rest :- GroupLines(w, items, columns, groups[1..]);
      Done([Line(mapped, values, first + mapped, mapped, Some(groups[0]))] + rest)
  }

  function Lines(w: World, items: seq<Item>, columns: seq<Name>, rows: seq<Row>): Outcome<seq<Line>> {
    if Aggregates(items) then
      var groups :- Groups(w, items, rows);
      GroupLines(w, items, columns, groups)
    else RowLines(w, items, columns, rows)
  }

  // ---- what follows the projection ----

  function Filtered(w: World, where: Expr, lines: seq<Line>): Outcome<seq<Line>> {
    if lines == [] then Done([])
    else
      var keep :- Test(w, where, lines[0].filterRow, None);
      var rest :- Filtered(w, where, lines[1..]);
      Done((if keep then [lines[0]] else []) + rest)
  }

  function Distinct(w: World, lines: seq<Line>, seen: set<string>): seq<Line> {
    if lines == [] then []
    else
      var key := w.valueKey(None, lines[0].values);
      if key in seen then Distinct(w, lines[1..], seen) else [lines[0]] + Distinct(w, lines[1..], seen + {key})
  }

  function LineKey(w: World, l: Line): string {
    w.valueKey(None, l.values)
  }

  function LineKeys(w: World, lines: seq<Line>): set<string> {
    set l | l in lines :: LineKey(w, l)
  }

  /** DISTINCT keeps no two lines of one key, ... */
  lemma {:induction false} DistinctApart(w: World, lines: seq<Line>, seen: set<string>)
    ensures forall l | l in Distinct(w, lines, seen) :: l in lines && LineKey(w, l) !in seen
    ensures forall i, j | 0 <= i < j < |Distinct(w, lines, seen)| :: LineKey(w, Distinct(w, lines, seen)[i]) != LineKey(w, Distinct(w, lines, seen)[j])
  {
    if lines != [] {
      var key := LineKey(w, lines[0]);
      DistinctApart(w, lines[1..], if key in seen then seen else seen + {key});
    }
  }

  /** ... and loses no key. */
  lemma {:induction false} DistinctCovers(w: World, lines: seq<Line>, seen: set<string>)
    ensures LineKeys(w, Distinct(w, lines, seen)) == LineKeys(w, lines) - seen
  {
    if lines != [] {
      var key := LineKey(w, lines[0]);
      assert lines == [lines[0]] + lines[1..];
      KeysJoin(w, lines[0], lines[1..]);
      if key in seen {
        DistinctCovers(w, lines[1..], seen);
      } else {
        DistinctCovers(w, lines[1..], seen + {key});
        KeysJoin(w, lines[0], Distinct(w, lines[1..], seen + {key}));
      }
    }
  }

  lemma KeysJoin(w: World, first: Line, rest: seq<Line>)
    ensures LineKeys(w, [first] + rest) == {LineKey(w, first)} + LineKeys(w, rest)
  {
    hide LineKey;
    forall k ensures k in LineKeys(w, [first] + rest) <==> k == LineKey(w, first) || k in LineKeys(w, rest) {
      if k == LineKey(w, first) { assert first in [first] + rest; }
      if k in LineKeys(w, rest) { var l :| l in rest && LineKey(w, l) == k; assert l in [first] + rest; }
    }
  }

  function Exprs(order: seq<Sort>): seq<Expr> {
    seq(|order|, i requires 0 <= i < |order| => order[i].expr)
  }

  function Directions(order: seq<Sort>): seq<bool> {
    seq(|order|, i requires 0 <= i < |order| => order[i].descending)
  }

  function SortKeys(w: World, order: seq<Sort>, lines: seq<Line>): Outcome<seq<seq<Value>>> {
    if lines == [] then Done([])
    else
      var here :- EvalAll(w, Exprs(order), lines[0].sortRow, lines[0].group);
      var rest :- SortKeys(w, order, lines[1..]);
      Done([here] + rest)
  }

  function Pick(lines: seq<Line>, indices: seq<nat>): seq<Line> {
    if indices == [] then []
    else (if indices[0] < |lines| then [lines[indices[0]]] else []) + Pick(lines, indices[1..])
  }

  function Ordered(w: World, order: seq<Sort>, lines: seq<Line>): Outcome<seq<Line>> {
    if order == [] then Done(lines)
    else
      var keys :- SortKeys(w, order, lines);
      Done(Pick(lines, w.order(keys, Directions(order))))
  }

  function Count(w: World, e: Expr, absent: nat): Outcome<nat> {
    if e.Absent? then Done(absent)
    else
      var v :- Eval(w, e, map[], None);
      var n := w.integer(v);
      if n.None? || n.value < 0 then Bad(Failed) else Done(n.value)
  }

  /** paginateProjection. */
  function Paged(w: World, skip: Expr, limit: Expr, lines: seq<Line>): Outcome<seq<Line>> {
    var s :- Count(w, skip, 0);
    var l :- Count(w, limit, |lines|);
    var rest := if s <= |lines| then lines[s..] else [];
    Done(if l < |rest| then rest[..l] else rest)
  }

  function Min(a: nat, b: nat): nat {
    if a <= b then a else b
  }

  /** SKIP and LIMIT cut a window out of the lines; the next window starts where it ends. */
  lemma PagesJoin(w: World, skip: Expr, limit: Expr, next: Expr, lines: seq<Line>)
    requires Paged(w, skip, limit, lines).Done? && Count(w, next, 0).Done? && !limit.Absent?
    requires Count(w, next, 0).value == Count(w, skip, 0).value + Count(w, limit, 0).value
    ensures var s := Min(Count(w, skip, 0).value, |lines|);
            lines[..s] + Paged(w, skip, limit, lines).value + Paged(w, next, Absent, lines).value == lines
  {
    hide Eval;
    var (s, l) := (Count(w, skip, 0).value, Count(w, limit, 0).value);
    if s <= |lines| {
      assert lines == lines[..s] + lines[s..];
      if l < |lines[s..]| { assert lines[s..] == lines[s..][..l] + lines[s + l..]; }
    }
  }

  datatype Table = Table(columns: seq<Name>, lines: seq<Line>)

  /** projectMaterialized. */
  function Project(w: World, p: Projection, known: set<Name>, rows: seq<Row>): Outcome<Table> {
    var columns := Columns(p.items, known, rows);
    var lines :- Lines(w, p.items, columns, rows);
    var kept :- Filtered(w, p.where, lines);
    var distinct := if p.distinct then Distinct(w, kept, {}) else kept;
    var sorted :- Ordered(w, p.order, distinct);
    var paged :- Paged(w, p.skip, p.limit, sorted);
    Done(Table(columns, paged))
  }

  // ---- the static checks ----

  function OutputName(item: Item): set<Name> {
    match item
    case Star => {}
    case Item(e, alias, _, _) => if alias != "" then {alias} else if e.Variable? then {e.name} else {}
  }

  /** The scope after a projection. */
  function Output(items: seq<Item>, scope: set<Name>): set<Name> {
    if items == [] then {}
    else (if items[0].Star? then scope else OutputName(items[0])) + Output(items[1..], scope)
  }

  /** projectionStaticColumns: without an alias a column is named by its text. */
  function StaticColumns(items: seq<Item>, scope: set<Name>): seq<Name> {
    if items == [] then []
    else
      (match items[0]
       case Star => SortedIds(scope)
       case Item(_, alias, text, _) => [if alias != "" then alias else text])
      + StaticColumns(items[1..], scope)
  }

  /** aggregateScopeForProjection. */
  function ScopeOf(items: seq<Item>, aliases: bool): AggregateScope {
    AggregateScope(HasStar(items), if aliases then Aliases(items) else {}, Atoms(items), Keys(items))
  }

  function Aliases(items: seq<Item>): set<Name> {
    if items == [] then {} else (if items[0].Item? then Named(items[0].alias) else {}) + Aliases(items[1..])
  }

  function Atoms(items: seq<Item>): set<string> {
    if items == [] then {}
    else (if items[0].Item? && (items[0].expr.Variable? || items[0].expr.Property?) && !HasAggregate(items[0].expr) then {items[0].key} else {})
         + Atoms(items[1..])
  }

  function Keys(items: seq<Item>): set<string> {
    if items == [] then {} else (if items[0].Item? then AggregateKeys(items[0].expr) else {}) + Keys(items[1..])
  }

  predicate ItemAccepted(item: Item, items: seq<Item>, scope: set<Name>) {
    item.Item? ==>
      && Accepts(item.expr, scope) && Shaped(item.expr, false)
      && (HasAggregate(item.expr) ==> Grouped(item.expr, ScopeOf(items, false), false, true, {}))
  }

  predicate SortAccepted(s: Sort, p: Projection, scope: set<Name>) {
    && Accepts(s.expr, SortScope(s, p, scope)) && Shaped(s.expr, false)
    && (if Aggregates(p.items) then Grouped(s.expr, ScopeOf(p.items, true), false, false, {}) else !HasAggregate(s.expr))
  }

  /** The scope an ORDER BY expression is checked in: with DISTINCT the output, or
      the input when it is one of the projected expressions. */
  function SortScope(s: Sort, p: Projection, scope: set<Name>): set<Name> {
    var output := Output(p.items, scope);
    if !p.distinct then output + scope
    else if !Aggregates(p.items) && !Accepts(s.expr, output) && (exists i :: 0 <= i < |p.items| && p.items[i].Item? && p.items[i].key == s.key)
    then scope
    else output
  }

  function WhereScope(p: Projection, scope: set<Name>): set<Name> {
    Output(p.items, scope) + if Aggregates(p.items) then {} else scope
  }

  /** validateProjection. */
  predicate Accepted(p: Projection, with: bool, scope: set<Name>) {
    && (HasStar(p.items) && !with ==> scope != {})
    && (forall i | 0 <= i < |p.items| :: ItemAccepted(p.items[i], p.items, scope))
    && NoDup(StaticColumns(p.items, scope))
    && Plain(p.where, WhereScope(p, scope))
    && (forall i | 0 <= i < |p.order| :: SortAccepted(p.order[i], p, scope))
    && Plain(p.skip, {}) && Plain(p.limit, {})
    && (with ==> forall i | 0 <= i < |p.items| :: p.items[i].Star? || p.items[i].alias != "" || p.items[i].expr.Variable?)
  }

  // ---- what the checks leave open ----

  /** With nothing to group by, no input row still makes one group. */
  predicate OneGroup(items: seq<Item>) {
    Aggregates(items) && GroupExprs(items) == [] && !HasStar(items)
  }

  predicate ItemSafe(item: Item, items: seq<Item>, scope: set<Name>) {
    item.Item? ==> InOrder(item.expr, scope) && (OneGroup(items) ==> Unchecked(item.expr) == {})
  }

  /** An aggregate in ORDER BY reads the rows of the group, not the projected row. */
  predicate SortSafe(s: Sort, p: Projection, scope: set<Name>) {
    && InOrder(s.expr, SortScope(s, p, scope))
    && (Aggregates(p.items) ==> GroupReads(s.expr) <= scope)
    && (OneGroup(p.items) ==> Unchecked(s.expr) <= Output(p.items, scope))
  }

  predicate Safe(p: Projection, scope: set<Name>) {
    && (forall i | 0 <= i < |p.items| :: ItemSafe(p.items[i], p.items, scope))
    && InOrder(p.where, WhereScope(p, scope))
    && (forall i | 0 <= i < |p.order| :: SortSafe(p.order[i], p, scope))
    && InOrder(p.skip, {}) && InOrder(p.limit, {})
  }

  // ---- columns line up ----

  function Width(items: seq<Item>, scope: set<Name>): nat {
    if items == [] then 0 else (if items[0].Star? then |SortedIds(scope)| else 1) + Width(items[1..], scope)
  }

  lemma {:induction false} KnownNames(rows: seq<Row>, scope: set<Name>)
    requires RowsHave(rows, scope)
    ensures scope + RowsNames(rows) == scope
  {
    if rows != [] {
      assert rows[0] in rows;
      KnownNames(rows[1..], scope);
    }
  }

  lemma {:induction false} ColumnsAre(items: seq<Item>, scope: set<Name>, rows: seq<Row>)
    requires RowsHave(rows, scope)
    ensures |Columns(items, scope, rows)| == Width(items, scope)
    ensures Output(items, scope) <= set c | c in Columns(items, scope, rows)
    ensures (forall i | 0 <= i < |items| :: items[i].Star? || items[i].alias != "" || items[i].expr.Variable?) ==>
              Output(items, scope) == set c | c in Columns(items, scope, rows)
  {
    if items != [] {
      KnownNames(rows, scope);
      SortedHolds(scope);
      hide SortedIds;
      ColumnsAre(items[1..], scope, rows);
      var head := if items[0].Star? then SortedIds(scope)
                  else [if items[0].alias != "" then items[0].alias else if items[0].expr.Variable? then items[0].expr.name else items[0].text];
      assert Columns(items, scope, rows) == head + Columns(items[1..], scope, rows);
      InBoth(head, Columns(items[1..], scope, rows));
      assert forall i | 0 <= i < |items| - 1 :: items[1..][i] == items[i + 1];
    }
  }

  lemma InBoth(a: seq<Name>, b: seq<Name>)
    ensures (set c | c in a + b) == (set c | c in a) + (set c | c in b)
  {
  }

  /** Every item is evaluated, on a row with the scope's names, to a value for each
      of its columns. */
  lemma {:induction false} ValuesAre(w: World, items: seq<Item>, scope: set<Name>, row: Row, group: Option<seq<Row>>)
    requires forall i | 0 <= i < |items| :: ItemReads(items[i], row, group)
    requires row.Keys == scope || !HasStar(items)
    ensures IsDefined(Values(w, items, row, group))
    ensures Values(w, items, row, group).Done? ==> |Values(w, items, row, group).value| == Width(items, scope)
  {
    hide Reads, GroupReads, SortedIds, Eval, GroupCovers;
    if items != [] {
      assert ItemReads(items[0], row, group);
      if items[0].Item? { EvalDefined(w, items[0].expr, row, group); } else { assert items[0] in items; }
      assert forall i | 0 <= i < |items| - 1 :: items[1..][i] == items[i + 1];
      ValuesAre(w, items[1..], scope, row, group);
    }
  }

  ghost predicate ItemReads(item: Item, row: Row, group: Option<seq<Row>>) {
    item.Item? ==> Reads(item.expr) <= row.Keys && GroupCovers(group, GroupReads(item.expr))
  }

  // ---- grouping keeps rows together ----

  lemma {:induction false} EvalAllDefined(w: World, es: seq<Expr>, row: Row, group: Option<seq<Row>>)
    requires forall e | e in es :: Reads(e) <= row.Keys && GroupCovers(group, GroupReads(e))
    ensures IsDefined(EvalAll(w, es, row, group))
  {
    hide Reads, GroupReads, Eval, GroupCovers;
    if es != [] {
      assert es[0] in es;
      EvalDefined(w, es[0], row, group);
      EvalAllDefined(w, es[1..], row, group);
    }
  }

  lemma {:induction false} GroupExprsAre(items: seq<Item>)
    ensures forall e | e in GroupExprs(items) :: exists i :: 0 <= i < |items| && items[i].Item? && items[i].expr == e && !HasAggregate(e)
    ensures GroupExprs(items) == [] && !HasStar(items) ==> Atoms(items) == {} && forall i | 0 <= i < |items| :: items[i].Item? && HasAggregate(items[i].expr)
  {
    hide HasAggregate;
    if items != [] {
      GroupExprsAre(items[1..]);
      assert items[0] in items;
      assert forall i | 0 <= i < |items| - 1 :: items[1..][i] == items[i + 1];
      forall e | e in GroupExprs(items) ensures exists i :: 0 <= i < |items| && items[i].Item? && items[i].expr == e && !HasAggregate(e) {
        if e in GroupExprs(items[1..]) {
          var i :| 0 <= i < |items[1..]| && items[1..][i].Item? && items[1..][i].expr == e && !HasAggregate(e);
          assert items[i + 1].expr == e;
        } else {
          assert items[0].expr == e;
        }
      }
    }
  }

  ghost predicate GroupsHave(groups: seq<Group>, scope: set<Name>) {
    forall g | g in groups :: g.rows != [] && RowsHave(g.rows, scope)
  }

  lemma {:induction false} AddedGroup(groups: seq<Group>, key: string, row: Row, scope: set<Name>)
    requires GroupsHave(groups, scope) && row.Keys == scope
    ensures GroupsHave(AddTo(groups, key, row), scope)
  {
    if groups != [] {
      assert groups[0] in groups;
      AddedGroup(groups[1..], key, row, scope);
    }
  }

  lemma {:induction false} GroupingDefined(w: World, items: seq<Item>, rows: seq<Row>, scope: set<Name>)
    requires RowsHave(rows, scope) && forall e | e in GroupExprs(items) :: Reads(e) <= scope
    ensures IsDefined(Grouping(w, items, rows))
    ensures Grouping(w, items, rows).Done? ==> GroupsHave(Grouping(w, items, rows).value, scope)
  {
    hide Reads, Eval, EvalAll, AddTo, GroupExprs, HasStar, GroupsHave;
    if rows != [] {
      var (n, row) := (|rows| - 1, rows[|rows| - 1]);
      assert row in rows;
      GroupingDefined(w, items, rows[..n], scope);
      EvalAllDefined(w, GroupExprs(items), row, None);
      var (before, values) := (Grouping(w, items, rows[..n]), EvalAll(w, GroupExprs(items), row, None));
      if before.Done? && values.Done? {
        AddedGroup(before.value, w.valueKey(if HasStar(items) then Some(row) else None, values.value), row, scope);
      }
    } else {
      assert GroupsHave([], scope) by { NoGroups(scope); }
    }
  }

  lemma NoGroups(scope: set<Name>)
    ensures GroupsHave([], scope)
  {
  }

  // ---- the lines of an accepted projection ----

  /** What every line of a projection has: its columns, and the names that WHERE and
      ORDER BY may read from it. */
  ghost predicate Good(p: Projection, scope: set<Name>, columns: seq<Name>, l: Line) {
    && l.row.Keys == (set c | c in columns) && |l.values| == |columns|
    && if Aggregates(p.items) then
         && l.filterRow == l.row && l.group.Some? && RowsHave(l.group.value, scope)
         && (l.group.value == [] ==> OneGroup(p.items))
         && l.sortRow.Keys == (if l.group.value == [] then {} else scope) + l.row.Keys
       else l.filterRow.Keys == scope + l.row.Keys && l.sortRow.Keys == scope + l.row.Keys && l.group.None?
  }

  ghost predicate AllGood(p: Projection, scope: set<Name>, columns: seq<Name>, lines: seq<Line>) {
    forall l | l in lines :: Good(p, scope, columns, l)
  }

  lemma MappedDefined(columns: seq<Name>, values: seq<Value>)
    requires |values| == |columns|
    ensures Mapped(columns, values).Done? && Mapped(columns, values).value.Keys == set c | c in columns
  {
    assert columns[..|columns|] == columns;
  }

  lemma {:induction false} RowLinesDefined(w: World, p: Projection, with: bool, scope: set<Name>, columns: seq<Name>,
          rows: seq<Row>)
    requires !Aggregates(p.items) && Accepted(p, with, scope) && Safe(p, scope)
    requires |columns| == Width(p.items, scope) && RowsHave(rows, scope)
    ensures IsDefined(RowLines(w, p.items, columns, rows))
    ensures RowLines(w, p.items, columns, rows).Done? ==> AllGood(p, scope, columns, RowLines(w, p.items, columns, rows).value)
  {
    hide Values, Mapped, Width, Accepted, Safe;
    if rows != [] {
      assert rows[0] in rows;
      ItemsRead(p, with, scope, rows[0], None);
      ValuesAre(w, p.items, scope, rows[0], None);
      var values := Values(w, p.items, rows[0], None);
      if values.Done? { MappedDefined(columns, values.value); }
      RowLinesDefined(w, p, with, scope, columns, rows[1..]);
    }
  }

  /** The items of an accepted projection can be evaluated on an input row, alone or
      with its group, and on no row at all when there is just one empty group. */
  lemma ItemsRead(p: Projection, with: bool, scope: set<Name>, row: Row, group: Option<seq<Row>>)
    requires Accepted(p, with, scope) && Safe(p, scope)
    requires group.Some? ==> RowsHave(group.value, scope)
    requires row.Keys == scope || OneGroup(p.items)
    ensures forall i | 0 <= i < |p.items| :: ItemReads(p.items[i], row, group)
  {
    hide Reads, GroupReads, Accepts, Shaped, InOrder, Unchecked, Grouped, Aggregates, GroupExprs;
    forall i | 0 <= i < |p.items| ensures ItemReads(p.items[i], row, group) {
      var item := p.items[i];
      assert ItemAccepted(item, p.items, scope) && ItemSafe(item, p.items, scope);
      if item.Item? {
        AcceptedReads(item.expr, scope);
        AcceptedGroupReads(item.expr, scope);
        if row.Keys != scope {
          GroupExprsAre(p.items);
          GroupedReads(item.expr, ScopeOf(p.items, false), false, true, {});
        }
      }
    }
  }

  lemma {:induction false} GroupLinesDefined(w: World, p: Projection, with: bool, scope: set<Name>,
          columns: seq<Name>, groups: seq<seq<Row>>)
    requires Aggregates(p.items) && Accepted(p, with, scope) && Safe(p, scope)
    requires |columns| == Width(p.items, scope)
    requires forall g | g in groups :: RowsHave(g, scope) && (g == [] ==> OneGroup(p.items))
    ensures IsDefined(GroupLines(w, p.items, columns, groups))
    ensures GroupLines(w, p.items, columns, groups).Done? ==> AllGood(p, scope, columns, GroupLines(w, p.items, columns, groups).value)
  {
    hide Values, Mapped, Width, Accepted, Safe, Aggregates, GroupExprs;
    if groups != [] {
      assert groups[0] in groups;
      var g := groups[0];
      var first := if g == [] then map[] else g[0];
      assert g != [] ==> g[0] in g;
      ItemsRead(p, with, scope, first, Some(g));
      ValuesAre(w, p.items, scope, first, Some(g));
      var values := Values(w, p.items, first, Some(g));
      if values.Done? { MappedDefined(columns, values.value); }
      GroupLinesDefined(w, p, with, scope, columns, groups[1..]);
    }
  }

  lemma LinesDefined(w: World, p: Projection, with: bool, scope: set<Name>, columns: seq<Name>, rows: seq<Row>)
    requires Accepted(p, with, scope) && Safe(p, scope)
    requires |columns| == Width(p.items, scope) && RowsHave(rows, scope)
    ensures IsDefined(Lines(w, p.items, columns, rows))
    ensures Lines(w, p.items, columns, rows).Done? ==> AllGood(p, scope, columns, Lines(w, p.items, columns, rows).value)
  {
    hide RowLines, GroupLines, Grouping, Width, Accepted, Safe, Aggregates, GroupExprs, Reads;
    if !Aggregates(p.items) {
      RowLinesDefined(w, p, with, scope, columns, rows);
    } else {
      if GroupExprs(p.items) != [] || HasStar(p.items) {
        GroupKeysRead(p, with, scope);
        GroupingDefined(w, p.items, rows, scope);
      }
      var groups := Groups(w, p.items, rows);
      if groups.Done? { GroupLinesDefined(w, p, with, scope, columns, groups.value); }
    }
  }

  lemma GroupKeysRead(p: Projection, with: bool, scope: set<Name>)
    requires Accepted(p, with, scope) && Safe(p, scope)
    ensures forall e | e in GroupExprs(p.items) :: Reads(e) <= scope
  {
    hide Reads, GroupReads, Accepts, Shaped, InOrder, Unchecked, Grouped, Aggregates, GroupExprs;
    GroupExprsAre(p.items);
    forall e | e in GroupExprs(p.items) ensures Reads(e) <= scope {
      var i :| 0 <= i < |p.items| && p.items[i].Item? && p.items[i].expr == e && !HasAggregate(e);
      assert ItemAccepted(p.items[i], p.items, scope) && ItemSafe(p.items[i], p.items, scope);
      AcceptedReads(e, scope);
    }
  }

  // ---- filtering, sorting and paging keep good lines ----

  lemma {:induction false} FilteredDefined(w: World, p: Projection, with: bool, scope: set<Name>, columns: seq<Name>,
          lines: seq<Line>)
    requires Accepted(p, with, scope) && Safe(p, scope) && Output(p.items, scope) <= (set c | c in columns) && AllGood(p, scope, columns, lines)
    ensures IsDefined(Filtered(w, p.where, lines))
    ensures Filtered(w, p.where, lines).Done? ==> AllGood(p, scope, columns, Filtered(w, p.where, lines).value)
  {
    hide Aggregates, Reads, Test, Output;
    if lines != [] {
      assert lines[0] in lines;
      WhereReads(p, with, scope);
      hide Accepted, Safe;
      TestDefined(w, p.where, lines[0].filterRow, None);
      FilteredDefined(w, p, with, scope, columns, lines[1..]);
    }
  }

  lemma WhereReads(p: Projection, with: bool, scope: set<Name>)
    requires Accepted(p, with, scope) && Safe(p, scope)
    ensures Reads(p.where) <= WhereScope(p, scope)
  {
    hide Reads, Accepts, InOrder, WhereScope;
    AcceptedReads(p.where, WhereScope(p, scope));
  }

  lemma {:induction false} DistinctGood(w: World, p: Projection, scope: set<Name>, columns: seq<Name>,
          lines: seq<Line>, seen: set<string>)
    requires AllGood(p, scope, columns, lines)
    ensures AllGood(p, scope, columns, Distinct(w, lines, seen))
  {
    hide Good;
    if lines != [] {
      var key := w.valueKey(None, lines[0].values);
      DistinctGood(w, p, scope, columns, lines[1..], seen);
      DistinctGood(w, p, scope, columns, lines[1..], seen + {key});
    }
  }

  /** An accepted and safe ORDER BY expression reads what a line offers. */
  lemma SortReads(p: Projection, with: bool, scope: set<Name>, columns: seq<Name>, l: Line, i: nat)
    requires Accepted(p, with, scope) && Safe(p, scope) && Output(p.items, scope) <= (set c | c in columns) && Good(p, scope, columns, l)
    requires i < |p.order|
    ensures Reads(p.order[i].expr) <= l.sortRow.Keys && GroupCovers(l.group, GroupReads(p.order[i].expr))
  {
    hide Reads, GroupReads, Accepts, Shaped, InOrder, Unchecked, Grouped, Aggregates, GroupExprs, Output, HasAggregate, NoDup;
    var s := p.order[i];
    assert SortAccepted(s, p, scope) && SortSafe(s, p, scope);
    AcceptedReads(s.expr, SortScope(s, p, scope));
    if OneGroup(p.items) {
      GroupExprsAre(p.items);
      GroupedReads(s.expr, ScopeOf(p.items, true), false, false, {});
      AliasesAreOutput(p.items, scope);
    }
  }

  lemma {:induction false} AliasesAreOutput(items: seq<Item>, scope: set<Name>)
    ensures Aliases(items) <= Output(items, scope)
  {
    if items != [] { AliasesAreOutput(items[1..], scope); }
  }

  lemma {:induction false} SortKeysDefined(w: World, p: Projection, with: bool, scope: set<Name>, columns: seq<Name>,
          lines: seq<Line>)
    requires Accepted(p, with, scope) && Safe(p, scope) && Output(p.items, scope) <= (set c | c in columns) && AllGood(p, scope, columns, lines)
    ensures IsDefined(SortKeys(w, p.order, lines))
  {
    hide Accepted, Safe, Output, Good, Reads, GroupReads, EvalAll, GroupCovers;
    if lines != [] {
      var l := lines[0];
      assert l in lines;
      forall e | e in Exprs(p.order) ensures Reads(e) <= l.sortRow.Keys && GroupCovers(l.group, GroupReads(e)) {
        var i :| 0 <= i < |p.order| && Exprs(p.order)[i] == e;
        SortReads(p, with, scope, columns, l, i);
      }
      EvalAllDefined(w, Exprs(p.order), l.sortRow, l.group);
      SortKeysDefined(w, p, with, scope, columns, lines[1..]);
    }
  }

  lemma {:induction false} PickGood(p: Projection, scope: set<Name>, columns: seq<Name>, lines: seq<Line>,
          indices: seq<nat>)
    requires AllGood(p, scope, columns, lines)
    ensures AllGood(p, scope, columns, Pick(lines, indices))
  {
    hide Good;
    if indices != [] { PickGood(p, scope, columns, lines, indices[1..]); }
  }

  lemma PagedDefined(w: World, p: Projection, with: bool, scope: set<Name>, columns: seq<Name>, lines: seq<Line>)
    requires Accepted(p, with, scope) && Safe(p, scope) && AllGood(p, scope, columns, lines)
    ensures IsDefined(Paged(w, p.skip, p.limit, lines))
    ensures Paged(w, p.skip, p.limit, lines).Done? ==> AllGood(p, scope, columns, Paged(w, p.skip, p.limit, lines).value)
  {
    hide Good, Reads, Accepts, InOrder, Eval;
    AcceptedReads(p.skip, {});
    AcceptedReads(p.limit, {});
    EvalDefined(w, p.skip, map[], None);
    EvalDefined(w, p.limit, map[], None);
  }

  /** An accepted projection that the checks cover is carried out without a missing
      variable or column: its columns follow from the static scope alone, and every
      line has a value for each of them. */
  lemma ProjectDefined(w: World, p: Projection, with: bool, scope: set<Name>, rows: seq<Row>)
    requires Accepted(p, with, scope) && Safe(p, scope) && RowsHave(rows, scope)
    ensures IsDefined(Project(w, p, scope, rows))
    ensures Project(w, p, scope, rows).Done? ==>
              var t := Project(w, p, scope, rows).value;
              t.columns == Columns(p.items, scope, rows) && AllGood(p, scope, t.columns, t.lines)
  {
    hide Accepted, Safe, Output, Columns, Lines, Filtered, Distinct, Pick, SortKeys, Paged, Good;
    var columns := Columns(p.items, scope, rows);
    ColumnsAre(p.items, scope, rows);
    LinesDefined(w, p, with, scope, columns, rows);
    var lines := Lines(w, p.items, columns, rows);
    if lines.Done? {
      FilteredDefined(w, p, with, scope, columns, lines.value);
      var kept := Filtered(w, p.where, lines.value);
      if kept.Done? {
        DistinctGood(w, p, scope, columns, kept.value, {});
        var distinct := if p.distinct then Distinct(w, kept.value, {}) else kept.value;
        SortKeysDefined(w, p, with, scope, columns, distinct);
        OrderedGood(w, p, scope, columns, distinct);
        var sorted := Ordered(w, p.order, distinct);
        if sorted.Done? { PagedDefined(w, p, with, scope, columns, sorted.value); }
      }
    }
  }

  lemma OrderedGood(w: World, p: Projection, scope: set<Name>, columns: seq<Name>, lines: seq<Line>)
    requires AllGood(p, scope, columns, lines) && IsDefined(SortKeys(w, p.order, lines))
    ensures IsDefined(Ordered(w, p.order, lines))
    ensures Ordered(w, p.order, lines).Done? ==> AllGood(p, scope, columns, Ordered(w, p.order, lines).value)
  {
    hide AllGood, Pick, SortKeys;
    var keys := SortKeys(w, p.order, lines);
    if keys.Done? {
      PickGood(p, scope, columns, lines, w.order(keys.value, Directions(p.order)));
    }
  }
}
