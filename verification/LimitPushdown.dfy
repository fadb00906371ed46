/** UNWIND in front of a WITH that only projects and limits: it may stop as soon
    as it has as many rows as the limit lets through. */
module LimitPushdown {
  import opened Base
  import opened Syntax
  import opened Evaluation
  import opened Projecting
  import opened ReadQuery

  /** safeImmediateProjectionLimit: the projections a limit can be moved across. */
  predicate Pushable(p: Projection) {
    !p.limit.Absent? && p.skip.Absent? && !p.distinct && p.where.Absent? && p.order == [] && !Aggregates(p.items)
  }

  /** The rows of UNWIND up to a limit: a list longer than what is missing ends it. */
  function UnwindAtMost(w: World, list: Expr, alias: Name, rows: seq<Row>, limit: nat): Outcome<seq<Row>> {
    if rows == [] then Done([])
    else
      var v :- Eval(w, list, rows[0], None);
      if v.Null? then UnwindAtMost(w, list, alias, rows[1..], limit)
      else if !v.List? then Bad(Failed)
      else if |v.items| > limit then Done(Unwound(rows[0], alias, v.items[..limit]))
      else
        var rest :- UnwindAtMost(w, list, alias, rows[1..], limit - |v.items|);
        Done(Unwound(rows[0], alias, v.items) + rest)
  }

  /** The inner loop: the limit is looked at before each item. */
  method AppendItems(row: Row, alias: Name, items: seq<Value>, before: seq<Row>,
          limit: nat) returns (result: seq<Row>, full: bool)
    requires |before| <= limit
    ensures full <==> |items| > limit - |before|
    ensures result == before + Unwound(row, alias, if full then items[..limit - |before|] else items)
  {
    result, full := before, false;
    for j := 0 to |items|
      invariant result == before + Unwound(row, alias, items[..j]) && |result| <= limit
    {
      if |result| >= limit { return result, true; }
      assert Unwound(row, alias, items[..j + 1]) == Unwound(row, alias, items[..j]) + [row[alias := items[j]]];
      result := result + [row[alias := items[j]]];
    }
    assert items[..|items|] == items;
  }

  /** unwind, with a limit. */
  method UnwindLimited(w: World, list: Expr, alias: Name, input: seq<Row>, limit: nat) returns (r: Outcome<seq<Row>>)
    ensures r == UnwindAtMost(w, list, alias, input, limit)
  {
    hide *;
    var result: seq<Row> := [];
    ghost var all := UnwindAtMost(w, list, alias, input, limit);
    PrependNothing(all);
    assert input[0..] == input;
    for i := 0 to |input|
      invariant |result| <= limit
      invariant all == Prepend(result, UnwindAtMost(w, list, alias, input[i..], limit - |result|))
    {
      OneInput(w, list, alias, input, i, result, limit - |result|);
      var v := Eval(w, list, input[i], None);
      if v.Bad? { return Bad(v.reason); }
      if v.value.Null? { continue; }
      if !v.value.List? { return Bad(Failed); }
      var full: bool;
      UnwoundSize(input[i], alias, v.value.items);
      result, full := AppendItems(input[i], alias, v.value.items, result, limit);
      if full { return Done(result); }
    }
    NoInput(w, list, alias, input, limit - |result|, result);
    return Done(result);
  }

  lemma UnwoundSize(row: Row, alias: Name, items: seq<Value>)
    ensures |Unwound(row, alias, items)| == |items|
  {
  }

  lemma NoInput(w: World, list: Expr, alias: Name, input: seq<Row>, left: nat, result: seq<Row>)
    ensures Prepend(result, UnwindAtMost(w, list, alias, input[|input|..], left)) == Done(result)
  {
    assert result + [] == result;
  }

  /** What one more input row adds to the result so far. */
  lemma OneInput(w: World, list: Expr, alias: Name, input: seq<Row>, i: nat, result: seq<Row>, left: nat)
    requires i < |input|
    ensures var v := Eval(w, list, input[i], None);
            Prepend(result, UnwindAtMost(w, list, alias, input[i..], left)) ==
            if v.Bad? then Bad(v.reason)
            else if v.value.Null? then Prepend(result, UnwindAtMost(w, list, alias, input[i + 1..], left))
            else if !v.value.List? then Bad(Failed)
            else if |v.value.items| > left then Done(result + Unwound(input[i], alias, v.value.items[..left]))
            else Prepend(result + Unwound(input[i], alias, v.value.items), UnwindAtMost(w, list, alias, input[i + 1..], left - |v.value.items|))
  {
    hide Eval, Unwound;
    assert input[i..][0] == input[i] && input[i..][1..] == input[i + 1..];
    var v := Eval(w, list, input[i], None);
    if v.Done? && v.value.List? && |v.value.items| <= left {
      Regroup(result, Unwound(input[i], alias, v.value.items), UnwindAtMost(w, list, alias, input[i + 1..], left - |v.value.items|));
    }
  }

  function Prepend(before: seq<Row>, o: Outcome<seq<Row>>): Outcome<seq<Row>> {
    var rest :- o;
    Done(before + rest)
  }

  lemma PrependNothing(o: Outcome<seq<Row>>)
    ensures Prepend([], o) == o
  {
    if o.Done? { assert [] + o.value == o.value; }
  }

  lemma Regroup(a: seq<Row>, b: seq<Row>, o: Outcome<seq<Row>>)
    ensures Prepend(a, Prepend(b, o)) == Prepend(a + b, o)
  {
    if o.Done? { assert a + (b + o.value) == a + b + o.value; }
  }

  function First<T>(s: seq<T>, n: nat): seq<T> {
    if n <= |s| then s[..n] else s
  }

  lemma FirstOnce<T>(s: seq<T>, n: nat)
    ensures First(First(s, n), n) == First(s, n)
  {
  }

  /** Stopping early gives the first rows, whenever going on gives rows at all. */
  lemma {:induction false} StoppingGivesFirst(w: World, list: Expr, alias: Name, rows: seq<Row>, limit: nat)
    requires UnwindRows(w, list, alias, rows).Done?
    ensures UnwindAtMost(w, list, alias, rows, limit) == Done(First(UnwindRows(w, list, alias, rows).value, limit))
  {
    hide Eval, Unwound, First;
    if rows == [] {
      assert First<Row>([], limit) == [] by { FirstOfNone(limit); }
    } else {
      var v := Eval(w, list, rows[0], None).value;
      var rest := UnwindRows(w, list, alias, rows[1..]).value;
      if v.Null? {
        StoppingGivesFirst(w, list, alias, rows[1..], limit);
        assert [] + rest == rest;
      } else {
        FirstOfBoth(rows[0], alias, v.items, rest, limit);
        if |v.items| <= limit { StoppingGivesFirst(w, list, alias, rows[1..], limit - |v.items|); }
      }
    }
  }

  lemma FirstOfNone(n: nat)
    ensures First<Row>([], n) == []
  {
  }

  lemma FirstOfBoth(row: Row, alias: Name, items: seq<Value>, rest: seq<Row>, limit: nat)
    ensures First(Unwound(row, alias, items) + rest, limit) ==
            if |items| > limit then Unwound(row, alias, items[..limit]) else Unwound(row, alias, items) + First(rest, limit - |items|)
  {
  }

  lemma {:induction false} UnwoundHave(w: World, list: Expr, alias: Name, rows: seq<Row>, scope: set<Name>)
    requires RowsHave(rows, scope) && UnwindRows(w, list, alias, rows).Done?
    ensures RowsHave(UnwindRows(w, list, alias, rows).value, scope + {alias})
  {
    hide Eval;
    if rows != [] {
      assert rows[0] in rows;
      UnwoundHave(w, list, alias, rows[1..], scope);
    }
  }

  /** A projection of the first rows gives the first lines. */
  lemma {:induction false} FirstLines(w: World, items: seq<Item>, columns: seq<Name>, rows: seq<Row>, n: nat)
    requires RowLines(w, items, columns, rows).Done?
    ensures RowLines(w, items, columns, First(rows, n)).Done?
    ensures var lines := RowLines(w, items, columns, rows).value;
            |lines| == |rows| && RowLines(w, items, columns, First(rows, n)).value == First(lines, n)
  {
    hide Values, Mapped;
    if rows != [] && n > 0 {
      FirstLines(w, items, columns, rows[1..], n - 1);
      assert First(rows, n)[1..] == First(rows[1..], n - 1) && First(rows, n)[0] == rows[0];
    } else if rows != [] {
      FirstLines(w, items, columns, rows[1..], 0);
    }
  }

  lemma {:induction false} NothingFiltered(w: World, lines: seq<Line>)
    ensures Filtered(w, Absent, lines) == Done(lines)
  {
    if lines != [] {
      NothingFiltered(w, lines[1..]);
      assert [lines[0]] + lines[1..] == lines;
    }
  }

  /** The lines a pushable projection lets through are the first ones. */
  lemma PushableProject(w: World, p: Projection, known: set<Name>, rows: seq<Row>, n: nat)
    requires Pushable(p) && Count(w, p.limit, 0) == Done(n)
    ensures var columns := Columns(p.items, known, rows);
            var lines := RowLines(w, p.items, columns, rows);
            Project(w, p, known, rows) ==
            if lines.Bad? then Bad(lines.reason) else Done(Table(columns, First(lines.value, n)))
  {
    hide RowLines, Columns, Aggregates, Eval;
    var lines := RowLines(w, p.items, Columns(p.items, known, rows), rows);
    if lines.Done? {
      NothingFiltered(w, lines.value);
      assert lines.value[0..] == lines.value && lines.value[..|lines.value|] == lines.value;
    }
  }

  /** All rows or the first ones: the projection is the same. */
  lemma SameProjection(w: World, p: Projection, known: set<Name>, rows: seq<Row>, n: nat)
    requires RowsHave(rows, known) && Pushable(p) && Count(w, p.limit, 0) == Done(n) && Project(w, p, known, rows).Done?
    ensures Project(w, p, known, First(rows, n)) == Project(w, p, known, rows)
  {
    hide Project, RowLines, Columns, Pushable, Count;
    var first := First(rows, n);
    ColumnsIgnoreRows(p.items, known, rows);
    ColumnsIgnoreRows(p.items, known, first);
    PushableProject(w, p, known, rows, n);
    PushableProject(w, p, known, first, n);
    var columns := Columns(p.items, known, []);
    FirstLines(w, p.items, columns, rows, n);
    FirstOnce(RowLines(w, p.items, columns, rows).value, n);
  }

  /** With the limit moved into UNWIND, the two clauses together do what they did,
      whenever they did not fail. */
  lemma LimitPushdownIsSafe(w: World, list: Expr, alias: Name, p: Projection, s: State, scope: set<Name>, n: nat)
    requires InStep(s, scope) && Pushable(p) && Count(w, p.limit, 0) == Done(n)
    requires Steps(w, [Unwind(list, alias), With(p)], s).Done?
    ensures var rows := UnwindAtMost(w, list, alias, s.rows, n);
            rows.Done? && Step(w, With(p), s.(rows := rows.value, known := s.known + {alias})) == Steps(w, [Unwind(list, alias), With(p)], s)
  {
    hide UnwindRows, UnwindAtMost, Project, Pushable, Count, StaticColumns, RowsNames, NameSet, RowsHave, First, Steps;
    TwoSteps(w, Unwind(list, alias), With(p), s);
    var all := UnwindRows(w, list, alias, s.rows).value;
    StoppingGivesFirst(w, list, alias, s.rows, n);
    UnwoundHave(w, list, alias, s.rows, scope);
    SameProjection(w, p, scope + {alias}, all, n);
  }

  lemma TwoSteps(w: World, a: Clause, b: Clause, s: State)
    ensures Steps(w, [a, b], s) == if Step(w, a, s).Bad? then Bad(Step(w, a, s).reason) else Step(w, b, Step(w, a, s).value)
  {
    hide Step;
    assert [a, b][1..] == [b];
    if Step(w, a, s).Done? { OneStep(w, b, Step(w, a, s).value); }
  }

  lemma OneStep(w: World, c: Clause, s: State)
    ensures Steps(w, [c], s) == Step(w, c, s)
  {
    hide Step;
    assert [c][1..] == [];
    var next := Step(w, c, s);
    if next.Done? { assert Steps(w, [], next.value) == next; } else { assert next == Bad(next.reason); }
  }
}
