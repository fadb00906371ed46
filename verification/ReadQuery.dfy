/** Read queries: the static validation of a pipeline of clauses, its execution,
    and the soundness of the one for the other. */
module ReadQuery {
  import opened Base
  import opened Sorted
  import opened Syntax
  import opened ScopeCheck
  import opened Evaluation
  import opened Projecting

  // ---- validation ----

  /** bindPatternVariables over a list of patterns. */
  predicate FreshParts(parts: seq<Part>, scope: set<Name>) {
    parts == [] || (Fresh(parts[0], scope) && FreshParts(parts[1..], scope + PartNames(parts[0])))
  }

  predicate AcceptsParts(parts: seq<Part>, scope: set<Name>) {
    parts == [] || (AcceptsPart(parts[0], scope) && AcceptsParts(parts[1..], scope))
  }

  predicate ClauseAccepted(c: Clause, scope: set<Name>) {
    match c
    case Match(_, parts, where) =>
      var next := scope + PartsNames(parts);
      FreshParts(parts, scope) && AcceptsParts(parts, next) && Plain(where, next)
    case Unwind(list, _) => Plain(list, scope)
    case With(p) => Accepted(p, true, scope)
    case Return(p) => Accepted(p, false, scope)
  }

  function ScopeAfter(c: Clause, scope: set<Name>): set<Name> {
    match c
    case Match(_, parts, _) => scope + PartsNames(parts)
    case Unwind(_, alias) => scope + {alias}
    case With(p) => Output(p.items, scope)
    case Return(p) => Output(p.items, scope)
  }

  function ColumnsAfter(c: Clause, scope: set<Name>, columns: seq<Name>): seq<Name> {
    if c.With? || c.Return? then StaticColumns(c.projection.items, scope) else columns
  }

  /** The scope and the columns a pipeline ends with, if it is accepted. */
  function Validated(clauses: seq<Clause>, scope: set<Name>, columns: seq<Name>): Option<(set<Name>, seq<Name>)> {
    if clauses == [] then Some((scope, columns))
    else if !ClauseAccepted(clauses[0], scope) then None
    else Validated(clauses[1..], ScopeAfter(clauses[0], scope), ColumnsAfter(clauses[0], scope, columns))
  }

  /** validateClauses. */
  method ValidateClauses(clauses: seq<Clause>, scope: set<Name>) returns (r: Option<(set<Name>, seq<Name>)>)
    ensures r == Validated(clauses, scope, [])
  {
    hide ClauseAccepted, ScopeAfter, ColumnsAfter;
    var current, columns := scope, [];
    for i := 0 to |clauses|
      invariant Validated(clauses, scope, []) == Validated(clauses[i..], current, columns)
    {
      assert clauses[i..][1..] == clauses[i + 1..];
      if !ClauseAccepted(clauses[i], current) { return None; }
      current, columns := ScopeAfter(clauses[i], current), ColumnsAfter(clauses[i], current, columns);
    }
    return Some((current, columns));
  }

  /** The scope each clause is checked in is what the clauses before it leave; a pipeline is
      rejected exactly if one of its clauses is, there. */
  lemma {:induction false} ValidatedIff(clauses: seq<Clause>, scope: set<Name>, columns: seq<Name>) returns (scopes: seq<set<Name>>)
    ensures |scopes| == |clauses| + 1 && scopes[0] == scope
    ensures forall i | 0 <= i < |clauses| :: scopes[i + 1] == ScopeAfter(clauses[i], scopes[i])
    ensures var r := Validated(clauses, scope, columns);
            && (r.Some? <==> forall i | 0 <= i < |clauses| :: ClauseAccepted(clauses[i], scopes[i]))
            && (r.Some? ==> r.value.0 == scopes[|clauses|])
    decreases |clauses|
  {
    hide ClauseAccepted, ScopeAfter, ColumnsAfter;
    scopes := [scope];
    if clauses != [] {
      var rest := clauses[1..];
      var later := ValidatedIff(rest, ScopeAfter(clauses[0], scope), ColumnsAfter(clauses[0], scope, columns));
      scopes := [scope] + later;
      forall i | 0 < i < |clauses| ensures clauses[i] == rest[i - 1] && scopes[i] == later[i - 1] && scopes[i + 1] == later[i] { }
      assert forall j | 0 <= j < |rest| :: clauses[j + 1] == rest[j] && scopes[j + 1] == later[j];
    }
  }

  // ---- execution ----

  function MatchEach(w: World, p: Part, rows: seq<Row>): Outcome<seq<Row>> {
    if rows == [] then Done([])
    else
      var here :- MatchPart(w, p, rows[0]);
      var rest :- MatchEach(w, p, rows[1..]);
      Done(here + rest)
  }

  function MatchAll(w: World, parts: seq<Part>, rows: seq<Row>): Outcome<seq<Row>> {
    if parts == [] || rows == [] then Done(rows)
    else
      var next :- MatchEach(w, parts[0], rows);
      MatchAll(w, parts[1..], next)
  }

  /** filterRows. */
  function FilterRows(w: World, where: Expr, rows: seq<Row>): Outcome<seq<Row>> {
    if rows == [] then Done([])
    else
      var keep :- Test(w, where, rows[0], None);
      var rest :- FilterRows(w, where, rows[1..]);
      Done((if keep then [rows[0]] else []) + rest)
  }

  function WithNulls(row: Row, names: set<Name>): Row {
    map x | x in row.Keys + names :: if x in row then row[x] else Null
  }

  /** matchClauseRows. */
  function MatchRows(w: World, optional: bool, parts: seq<Part>, where: Expr, rows: seq<Row>): Outcome<seq<Row>> {
    if rows == [] then Done([])
    else
      var found :- MatchAll(w, parts, [rows[0]]);
      var kept :- FilterRows(w, where, found);
      var rest :- MatchRows(w, optional, parts, where, rows[1..]);
      Done((if kept == [] && optional then [WithNulls(rows[0], PartsNames(parts))] else kept) + rest)
  }

  function Unwound(row: Row, alias: Name, items: seq<Value>): seq<Row> {
    seq(|items|, i requires 0 <= i < |items| => row[alias := items[i]])
  }

  function UnwindRows(w: World, list: Expr, alias: Name, rows: seq<Row>): Outcome<seq<Row>> {
    if rows == [] then Done([])
    else
      var v :- Eval(w, list, rows[0], None);
      var here :- if v.Null? then Done([]) else if v.List? then Done(Unwound(rows[0], alias, v.items)) else Bad(Failed);
      var rest :- UnwindRows(w, list, alias, rows[1..]);
      Done(here + rest)
  }

  function LineRows(lines: seq<Line>): seq<Row> {
    seq(|lines|, i requires 0 <= i < |lines| => lines[i].row)
  }

  function NameSet(names: seq<Name>): set<Name> {
    set x | x in names
  }

  /** The rows, the names execution takes to be in scope, and the last result. */
  datatype State = State(rows: seq<Row>, known: set<Name>, result: Table)

  function Step(w: World, c: Clause, s: State): Outcome<State> {
    match c
    case Match(optional, parts, where) =>
      var rows :- MatchRows(w, optional, parts, where, s.rows);
      Done(s.(rows := rows, known := s.known + PartsNames(parts)))
    case Unwind(list, alias) =>
      var rows :- UnwindRows(w, list, alias, s.rows);
      Done(s.(rows := rows, known := s.known + {alias}))
    case With(p) =>
      var t :- Project(w, p, s.known, s.rows);
      var rows := LineRows(t.lines);
      Done(State(rows, NameSet(StaticColumns(p.items, s.known)) + RowsNames(rows), Table([], [])))
    case Return(p) =>
      var t :- Project(w, p, s.known, s.rows);
      Done(State(LineRows(t.lines), NameSet(t.columns), t))
  }

  function Steps(w: World, clauses: seq<Clause>, s: State): Outcome<State> {
    if clauses == [] then Done(s)
    else
      var next :- Step(w, clauses[0], s);
      Steps(w, clauses[1..], next)
  }

  /** queryExecution.clauses. */
  method RunClauses(w: World, clauses: seq<Clause>, rows: seq<Row>) returns (r: Outcome<State>)
    ensures r == Steps(w, clauses, State(rows, RowsNames(rows), Table([], [])))
  {
    hide Step;
    var s := State(rows, RowsNames(rows), Table([], []));
    ghost var start := s;
    for i := 0 to |clauses|
      invariant Steps(w, clauses, start) == Steps(w, clauses[i..], s)
    {
      assert clauses[i..][1..] == clauses[i + 1..];
      var next := Step(w, clauses[i], s);
      if next.Bad? { return next; }
      s := next.value;
    }
    return Done(s);
  }

  // ---- what the validator leaves open ----

  /** Every unaliased item of a WITH is written as the plain name of a variable. */
  predicate Spelled(items: seq<Item>, scope: set<Name>) {
    forall i | 0 <= i < |items| && items[i].Item? && items[i].alias == "" :: items[i].text in Output(items, scope)
  }

  predicate ClauseSafe(c: Clause, scope: set<Name>) {
    match c
    case Match(_, parts, where) =>
      var next := scope + PartsNames(parts);
      PartsInOrder(parts, next, PartsNames(parts) - scope, {}) && InOrder(where, next)
    case Unwind(list, _) => InOrder(list, scope)
    case With(p) => Safe(p, scope) && Spelled(p.items, scope)
    case Return(p) => Safe(p, scope)
  }

  predicate AllSafe(clauses: seq<Clause>, scope: set<Name>) {
    clauses == [] || (ClauseSafe(clauses[0], scope) && AllSafe(clauses[1..], ScopeAfter(clauses[0], scope)))
  }

  /** RETURN comes last, as the grammar has it. */
  predicate ReturnsLast(clauses: seq<Clause>) {
    forall i | 0 <= i < |clauses| - 1 :: !clauses[i].Return?
  }

  // ---- MATCH ----

  lemma {:induction false} PartsRead(parts: seq<Part>, scope: set<Name>, outer: set<Name>, binds: set<Name>,
          bound: set<Name>)
    requires AcceptsParts(parts, scope) && PartsInOrder(parts, scope, binds, bound) && scope <= outer + binds
    ensures PartsReads(parts) <= outer + bound
  {
    hide PartReads, AcceptsPart, PartInOrder, PartNames;
    if parts != [] {
      AcceptedPart(parts[0], scope, outer, binds, bound);
      PartsRead(parts[1..], scope, outer, binds, bound + PartNames(parts[0]));
    }
  }

  lemma {:induction false} MatchEachDefined(w: World, p: Part, rows: seq<Row>, scope: set<Name>)
    requires PartReads(p) <= scope && RowsHave(rows, scope)
    ensures IsDefined(MatchEach(w, p, rows))
    ensures MatchEach(w, p, rows).Done? ==> RowsHave(MatchEach(w, p, rows).value, scope + PartNames(p))
  {
    hide PartReads, PartNames, MatchPart;
    if rows != [] {
      assert rows[0] in rows;
      PartDefined(w, p, rows[0]);
      MatchEachDefined(w, p, rows[1..], scope);
    }
  }

  lemma {:induction false} MatchAllDefined(w: World, parts: seq<Part>, rows: seq<Row>, scope: set<Name>)
    requires PartsReads(parts) <= scope && RowsHave(rows, scope)
    ensures IsDefined(MatchAll(w, parts, rows))
    ensures MatchAll(w, parts, rows).Done? ==> RowsHave(MatchAll(w, parts, rows).value, scope + PartsNames(parts))
  {
    hide PartReads, PartNames, MatchEach;
    if parts != [] && rows != [] {
      MatchEachDefined(w, parts[0], rows, scope);
      var next := MatchEach(w, parts[0], rows);
      if next.Done? { MatchAllDefined(w, parts[1..], next.value, scope + PartNames(parts[0])); }
    }
  }

  lemma {:induction false} FilterRowsDefined(w: World, where: Expr, rows: seq<Row>, scope: set<Name>)
    requires Reads(where) <= scope && RowsHave(rows, scope)
    ensures IsDefined(FilterRows(w, where, rows))
    ensures FilterRows(w, where, rows).Done? ==> RowsHave(FilterRows(w, where, rows).value, scope)
  {
    hide Reads, Test;
    if rows != [] {
      assert rows[0] in rows;
      TestDefined(w, where, rows[0], None);
      FilterRowsDefined(w, where, rows[1..], scope);
    }
  }

  lemma {:induction false} MatchRowsDefined(w: World, optional: bool, parts: seq<Part>, where: Expr, rows: seq<Row>,
          scope: set<Name>)
    requires PartsReads(parts) <= scope && Reads(where) <= scope + PartsNames(parts) && RowsHave(rows, scope)
    ensures IsDefined(MatchRows(w, optional, parts, where, rows))
    ensures MatchRows(w, optional, parts, where, rows).Done? ==>
              RowsHave(MatchRows(w, optional, parts, where, rows).value, scope + PartsNames(parts))
  {
    hide Reads, MatchAll, FilterRows;
    if rows != [] {
      assert rows[0] in rows;
      MatchAllDefined(w, parts, [rows[0]], scope);
      var found := MatchAll(w, parts, [rows[0]]);
      if found.Done? { FilterRowsDefined(w, where, found.value, scope + PartsNames(parts)); }
      MatchRowsDefined(w, optional, parts, where, rows[1..], scope);
    }
  }

  // ---- UNWIND ----

  lemma {:induction false} UnwindDefined(w: World, list: Expr, alias: Name, rows: seq<Row>, scope: set<Name>)
    requires Reads(list) <= scope && RowsHave(rows, scope)
    ensures IsDefined(UnwindRows(w, list, alias, rows))
    ensures UnwindRows(w, list, alias, rows).Done? ==> RowsHave(UnwindRows(w, list, alias, rows).value, scope + {alias})
  {
    hide Reads, Eval;
    if rows != [] {
      assert rows[0] in rows;
      EvalDefined(w, list, rows[0], None);
      UnwindDefined(w, list, alias, rows[1..], scope);
    }
  }

  // ---- WITH ----

  lemma {:induction false} StaticWidth(items: seq<Item>, scope: set<Name>)
    ensures |StaticColumns(items, scope)| == Width(items, scope)
  {
    if items != [] { StaticWidth(items[1..], scope); }
  }

  lemma {:induction false} StaticNames(items: seq<Item>, all: seq<Item>, scope: set<Name>)
    requires forall i | 0 <= i < |items| && items[i].Item? && items[i].alias == "" :: items[i].text in Output(all, scope)
    requires Output(items, scope) <= Output(all, scope)
    ensures NameSet(StaticColumns(items, scope)) <= Output(all, scope)
  {
    if items != [] {
      assert items[0].Item? && items[0].alias == "" ==> items[0].text in Output(all, scope);
      SortedHolds(scope);
      hide SortedIds;
      assert Output(items[1..], scope) <= Output(items, scope);
      assert forall i | 0 <= i < |items| - 1 :: items[1..][i] == items[i + 1];
      StaticNames(items[1..], all, scope);
    }
  }

  lemma SameSize<T>(a: set<T>, b: set<T>)
    requires a <= b && |a| >= |b|
    ensures a == b
  {
    if x :| x in b && x !in a { SubsetSize(a + {x}, b); }
  }

  /** Spelled as names, the static columns of a WITH are its output scope. */
  lemma SpelledColumns(p: Projection, scope: set<Name>, rows: seq<Row>)
    requires Accepted(p, true, scope) && Spelled(p.items, scope) && RowsHave(rows, scope)
    ensures NameSet(StaticColumns(p.items, scope)) == Output(p.items, scope)
    ensures Output(p.items, scope) == set c | c in Columns(p.items, scope, rows)
  {
    hide Accepts, Columns, StaticColumns, Output, Grouped, Shaped, ItemAccepted, SortAccepted, Plain;
    StaticNames(p.items, p.items, scope);
    ColumnsAre(p.items, scope, rows);
    StaticWidth(p.items, scope);
    SizeOfDistinct(StaticColumns(p.items, scope));
    SizeAtMost(Columns(p.items, scope, rows));
    SameSize(NameSet(StaticColumns(p.items, scope)), Output(p.items, scope));
  }

  lemma {:induction false} SizeOfDistinct(names: seq<Name>)
    requires NoDup(names)
    ensures |NameSet(names)| == |names|
  {
    if names != [] {
      var n := |names| - 1;
      SizeOfDistinct(names[..n]);
      assert names[..n] + [names[n]] == names;
      assert NameSet(names) == NameSet(names[..n]) + {names[n]};
      assert forall i | 0 <= i < n :: names[..n][i] != names[n];
    }
  }

  lemma {:induction false} SizeAtMost(names: seq<Name>)
    ensures |NameSet(names)| <= |names|
  {
    if names != [] {
      var n := |names| - 1;
      SizeAtMost(names[..n]);
      assert names[..n] + [names[n]] == names;
      assert NameSet(names) == NameSet(names[..n]) + {names[n]};
    }
  }

  lemma LinesHave(p: Projection, scope: set<Name>, columns: seq<Name>, lines: seq<Line>)
    requires AllGood(p, scope, columns, lines)
    ensures RowsHave(LineRows(lines), set c | c in columns)
  {
    forall r | r in LineRows(lines) ensures r.Keys == set c | c in columns {
      var i :| 0 <= i < |LineRows(lines)| && LineRows(lines)[i] == r;
      assert lines[i] in lines && Good(p, scope, columns, lines[i]);
    }
  }

  // ---- soundness ----

  /** Execution in step with the static scope. */
  ghost predicate InStep(s: State, scope: set<Name>) {
    s.known == scope && RowsHave(s.rows, scope)
  }

  lemma StepDefined(w: World, c: Clause, s: State, scope: set<Name>)
    requires ClauseAccepted(c, scope) && ClauseSafe(c, scope) && InStep(s, scope)
    ensures IsDefined(Step(w, c, s))
    ensures Step(w, c, s).Done? && !c.Return? ==> InStep(Step(w, c, s).value, ScopeAfter(c, scope))
  {
    hide Project, MatchRows, UnwindRows, Accepted, Safe, Spelled, Reads, PartsReads, PartsInOrder, AcceptsParts, FreshParts, InOrder, Accepts;
    match c
    case Match(optional, parts, where) =>
      var next := scope + PartsNames(parts);
      PartsRead(parts, next, scope, PartsNames(parts) - scope, {});
      AcceptedReads(where, next);
      MatchRowsDefined(w, optional, parts, where, s.rows, scope);
    case Unwind(list, alias) =>
      AcceptedReads(list, scope);
      UnwindDefined(w, list, alias, s.rows, scope);
    case With(p) => WithDefined(w, p, s, scope);
    case Return(p) => ProjectDefined(w, p, false, scope, s.rows);
  }

  lemma WithDefined(w: World, p: Projection, s: State, scope: set<Name>)
    requires Accepted(p, true, scope) && Safe(p, scope) && Spelled(p.items, scope) && InStep(s, scope)
    ensures IsDefined(Step(w, With(p), s))
    ensures Step(w, With(p), s).Done? ==> InStep(Step(w, With(p), s).value, Output(p.items, scope))
  {
    hide Project, Accepted, Safe, Spelled, AllGood, Output, Columns, StaticColumns;
    ProjectDefined(w, p, true, scope, s.rows);
    var t := Project(w, p, scope, s.rows);
    if t.Done? {
      LinesHave(p, scope, t.value.columns, t.value.lines);
      SpelledColumns(p, scope, s.rows);
      KnownNames(LineRows(t.value.lines), Output(p.items, scope));
    }
  }

  /** An accepted pipeline whose clauses are covered by the checks never meets a
      missing variable or column, and its rows always have exactly the names of the
      static scope. */
  lemma {:induction false} PipelineDefined(w: World, clauses: seq<Clause>, s: State, scope: set<Name>, columns: seq<Name>)
    requires Validated(clauses, scope, columns).Some? && AllSafe(clauses, scope) && ReturnsLast(clauses) && InStep(s, scope)
    ensures IsDefined(Steps(w, clauses, s))
    ensures Steps(w, clauses, s).Done? && (clauses == [] || !clauses[|clauses| - 1].Return?) ==>
              InStep(Steps(w, clauses, s).value, Validated(clauses, scope, columns).value.0)
    decreases |clauses|
  {
    hide Step, ClauseAccepted, ClauseSafe, ScopeAfter, ColumnsAfter, InStep;
    if clauses != [] {
      var c := clauses[0];
      StepDefined(w, c, s, scope);
      var next := Step(w, c, s);
      if next.Done? {
        if |clauses| > 1 {
          assert !c.Return?;
          assert forall i | 0 <= i < |clauses| - 2 :: clauses[1..][i] == clauses[i + 1];
          PipelineDefined(w, clauses[1..], next.value, ScopeAfter(c, scope), ColumnsAfter(c, scope, columns));
        } else {
          assert clauses[1..] == [];
        }
      }
    }
  }

  /** And the result of its RETURN has the columns the scope determines, with one
      value for each in every row. */
  lemma ReturnIsAligned(w: World, p: Projection, s: State, scope: set<Name>)
    requires Accepted(p, false, scope) && Safe(p, scope) && InStep(s, scope) && Step(w, Return(p), s).Done?
    ensures var t := Step(w, Return(p), s).value.result;
            t.columns == Columns(p.items, scope, []) && forall l | l in t.lines :: |l.values| == |t.columns|
  {
    hide Project, Accepted, Safe;
    ProjectDefined(w, p, false, scope, s.rows);
    ColumnsIgnoreRows(p.items, scope, s.rows);
    var t := Project(w, p, scope, s.rows).value;
    forall l | l in t.lines ensures |l.values| == |t.columns| { assert Good(p, scope, t.columns, l); }
  }

  lemma {:induction false} ColumnsIgnoreRows(items: seq<Item>, scope: set<Name>, rows: seq<Row>)
    requires RowsHave(rows, scope)
    ensures Columns(items, scope, rows) == Columns(items, scope, [])
  {
    if items != [] {
      KnownNames(rows, scope);
      hide SortedIds;
      assert scope + RowsNames([]) == scope;
      ColumnsIgnoreRows(items[1..], scope, rows);
    }
  }
}
