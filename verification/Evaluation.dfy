/** The expression evaluator, down to what it reads from rows.  What operators,
    functions and the graph answer is given by a World, for every one of which the
    results hold. */
module Evaluation {
  import opened Base
  import opened Syntax

  datatype Value = Null | Bool(b: bool) | List(items: seq<Value>) | Other(id: int)

  type Row = map<Name, Value>

  datatype Reason = Undefined(name: Name) | Failed | Panic

  datatype Outcome<+T> = Done(value: T) | Bad(reason: Reason) {
    predicate IsFailure() { Bad? }
    function PropagateFailure<U>(): Outcome<U>
      requires Bad?
    {
      Bad(reason)
    }
    function Extract(): T
      requires Done?
    {
      value
    }
  }

  /** No variable and no column was missing. */
  predicate IsDefined<T>(o: Outcome<T>) {
    o.Done? || o.reason == Failed
  }

  function Lift(v: Option<Value>): Outcome<Value> {
    if v.Some? then Done(v.value) else Bad(Failed)
  }

  /** What is evaluated after the rows: constants and parameters, short circuits,
      operators, properties, CASE equality, list predicates, aggregates; and the
      graph: candidate nodes, whether a hop tests an edge or a node, where it leads;
      then the keys of rows, their order, and what counts as an integer. */
  datatype World = World(
    constant: string -> Option<Value>,
    early: (string, seq<Value>) -> Option<Value>,
    apply: (string, seq<Value>) -> Option<Value>,
    property: (Value, string) -> Option<Value>,
    equal: (Value, Value) -> bool,
    quantify: (string, seq<Value>) -> Option<Value>,
    aggregate: (string, seq<Value>, Value) -> Option<Value>,
    count: nat -> Value,
    starts: (Part, Option<Value>, Value) -> seq<Value>,
    tests: (Hop, seq<Value>) -> (bool, bool),
    ends: (Hop, seq<Value>, seq<Value>) -> Option<seq<End>>,
    path: seq<Value> -> Value,
    same: (Value, Value) -> bool,
    valueKey: (Option<Row>, seq<Value>) -> string,
    order: (seq<seq<Value>>, seq<bool>) -> seq<nat>,
    integer: Value -> Option<int>)

  /** Where a hop leads: the node, the value of the relationship variable, and the
      trail walked so far. */
  datatype End = End(node: Value, rel: Value, trail: seq<Value>)

  // ---- expressions ----

  function Eval(w: World, e: Expr, row: Row, group: Option<seq<Row>>): Outcome<Value>
    decreases e, 1, 0
  {
    match e
    case Absent => Done(Null)
    case Constant(text) => Lift(w.constant(text))
    case Variable(name, _) => if name in row then Done(row[name]) else Bad(Undefined(name))
    case Property(base, property, _) =>
      var v :- Eval(w, base, row, group);
      Lift(w.property(v, property))
    case Apply(op, args) => EvalArgs(w, op, args, [], row, group)
    case Case(operand, branches, otherwise) =>
      var v :- Eval(w, operand, row, group);
      var chosen :- EvalBranches(w, operand.Absent?, v, branches, row, group);
      if chosen.Some? then Done(chosen.value) else Eval(w, otherwise, row, group)
    case ListComprehension(_, list, _, _) =>
      var c :- Eval(w, list, row, group);
      if c.Null? then Done(Null)
      else if !c.List? then Bad(Failed)
      else
        var items :- Comprehended(w, e, c.items, row, group);
        Done(List(items))
    case Quantifier(op, _, list, _) =>
      var c :- Eval(w, list, row, group);
      if c.Null? then Done(Null)
      else if !c.List? then Bad(Failed)
      else
        var truths :- Quantified(w, e, c.items, row, group);
        Lift(w.quantify(op, truths))
    case Reduce(_, initial, _, list, _) =>
      var start :- Eval(w, initial, row, group);
      var c :- Eval(w, list, row, group);
      if c.Null? then Done(Null)
      else if !c.List? then Bad(Failed)
      else Reduced(w, e, start, c.items, row, group)
    case Aggregate(name, args, _) =>
      if group.None? then Bad(Failed)
      else if name == "count" && args == [] then Done(w.count(|group.value|))
      else if args == [] then Bad(Failed)
      else
        var values :- GroupValues(w, args, group.value);
        if !IsPercentile(name) then Lift(w.aggregate(name, values, Null))
        else if |args| != 2 then Bad(Failed)
        else
          var extra :- Eval(w, args[1], row, None);
          Lift(w.aggregate(name, values, extra))
    case PatternComprehension(p, _, _) =>
      var rows :- MatchPart(w, p, row);
      var items :- Projected(w, e, rows, group);
      Done(List(items))
    case PatternPredicate(p) =>
      var rows :- MatchPart(w, p, row);
      Done(Bool(rows != []))
  }

  /** Arguments from left to right, until one decides the result. */
  function EvalArgs(w: World, op: string, args: seq<Expr>, done: seq<Value>, row: Row,
          group: Option<seq<Row>>): Outcome<Value>
    decreases args, 1, 0
  {
    if args == [] then Lift(w.apply(op, done))
    else if done != [] && w.early(op, done).Some? then Done(w.early(op, done).value)
    else
      var v :- Eval(w, args[0], row, group);
      EvalArgs(w, op, args[1..], done + [v], row, group)
  }

  function EvalBranches(w: World, plain: bool, operand: Value, branches: seq<Expr>, row: Row,
          group: Option<seq<Row>>): Outcome<Option<Value>>
    decreases branches, 1, 0
  {
    if |branches| < 2 then Done(None)
    else
      var condition :- Eval(w, branches[0], row, group);
      if (if plain then condition == Bool(true) else w.equal(operand, condition)) then
        var v :- Eval(w, branches[1], row, group);
        Done(Some(v))
      else EvalBranches(w, plain, operand, branches[2..], row, group)
  }

  /** A filter: an absent one passes everything, and neither null nor false passes. */
  function Test(w: World, where: Expr, row: Row, group: Option<seq<Row>>): Outcome<bool>
    decreases where, 2, 0
  {
    if where.Absent? then Done(true)
    else
      var v :- Eval(w, where, row, group);
      if v.Null? then Done(false) else if v.Bool? then Done(v.b) else Bad(Failed)
  }

  function Comprehended(w: World, e: Expr, items: seq<Value>, row: Row, group: Option<seq<Row>>): Outcome<seq<Value>>
    requires e.ListComprehension?
    decreases e, 0, |items|
  {
    if items == [] then Done([])
    else
      var next := row[e.variable := items[0]];
      var keep :- Test(w, e.where, next, group);
      var value :- if keep && !e.projection.Absent? then Eval(w, e.projection, next, group) else Done(items[0]);
      var rest :- Comprehended(w, e, items[1..], row, group);
      Done((if keep then [value] else []) + rest)
  }

  function Quantified(w: World, e: Expr, items: seq<Value>, row: Row, group: Option<seq<Row>>): Outcome<seq<Value>>
    requires e.Quantifier?
    decreases e, 0, |items|
  {
    if items == [] then Done([])
    else
      var v :- Eval(w, e.where, row[e.variable := items[0]], group);
      if !v.Null? && !v.Bool? then Bad(Failed)
      else
        var rest :- Quantified(w, e, items[1..], row, group);
        Done([v] + rest)
  }

  function Reduced(w: World, e: Expr, value: Value, items: seq<Value>, row: Row, group: Option<seq<Row>>): Outcome<Value>
    requires e.Reduce?
    decreases e, 0, |items|
  {
    if items == [] then Done(value)
    else
      var v :- Eval(w, e.body, row[e.accumulator := value][e.variable := items[0]], group);
      Reduced(w, e, v, items[1..], row, group)
  }

  /** An aggregate's argument on each row of the group; nulls are dropped. */
  function GroupValues(w: World, args: seq<Expr>, rows: seq<Row>): Outcome<seq<Value>>
    requires args != []
    decreases args, 0, |rows|
  {
    if rows == [] then Done([])
    else
      var v :- Eval(w, args[0], rows[0], None);
      var rest :- GroupValues(w, args, rows[1..]);
      Done((if v.Null? then [] else [v]) + rest)
  }

  function Projected(w: World, e: Expr, rows: seq<Row>, group: Option<seq<Row>>): Outcome<seq<Value>>
    requires e.PatternComprehension?
    decreases e, 0, |rows|
  {
    if rows == [] then Done([])
    else
      var keep :- Test(w, e.where, rows[0], group);
      var value :- if keep then Eval(w, e.projection, rows[0], group) else Done(Null);
      var rest :- Projected(w, e, rows[1..], group);
      Done((if keep then [value] else []) + rest)
  }

  // ---- patterns ----

  /** bindValue: a name not yet bound is bound; a bound one must agree. */
  function Bind(w: World, row: Row, name: Name, v: Value): Option<Row> {
    if name == "" then Some(row)
    else if name !in row then Some(row[name := v])
    else if w.same(row[name], v) then Some(row)
    else None
  }

  function Bound(row: Row, name: Name): Option<Value> {
    if name in row then Some(row[name]) else None
  }

  /** matchPattern, on one row. */
  function MatchPart(w: World, p: Part, row: Row): Outcome<seq<Row>>
    decreases p, 1, 0
  {
    var expected :- Eval(w, p.nodeMap, row, None);
    StartEach(w, p, row, w.starts(p, Bound(row, p.nodeName), expected))
  }

  function StartEach(w: World, p: Part, row: Row, candidates: seq<Value>): Outcome<seq<Row>>
    decreases p, 0, |candidates|
  {
    if candidates == [] then Done([])
    else
      var next := Bind(w, row, p.nodeName, candidates[0]);
      var found :- if next.None? then Done([]) else Extend(w, p.hops, next.value, [candidates[0]]);
      var rest :- StartEach(w, p, row, candidates[1..]);
      Done(WithPaths(w, p.name, found) + rest)
  }

  function WithPaths(w: World, name: Name, found: seq<(Row, seq<Value>)>): seq<Row> {
    if found == [] then []
    else
      var bound := Bind(w, found[0].0, name, w.path(found[0].1));
      (if bound.Some? then [bound.value] else []) + WithPaths(w, name, found[1..])
  }

  /** extendPattern: bounds and maps are read on the row as bound so far. */
  function Extend(w: World, hops: seq<Hop>, row: Row, trail: seq<Value>): Outcome<seq<(Row, seq<Value>)>>
    decreases hops, 1, 0
  {
    if hops == [] then Done([(row, trail)])
    else
      var h := hops[0];
      var lower :- Eval(w, h.lower, row, None);
      var upper :- Eval(w, h.upper, row, None);
      var (edges, nodes) := w.tests(h, trail);
      var edgeMap :- if edges then Eval(w, h.edgeMap, row, None) else Done(Null);
      var nodeMap :- if nodes then Eval(w, h.nodeMap, row, None) else Done(Null);
      var ends := w.ends(h, trail, [lower, upper, edgeMap, nodeMap]);
      if ends.None? then Bad(Failed) else ExtendEach(w, hops, row, ends.value)
  }

  function ExtendEach(w: World, hops: seq<Hop>, row: Row, ends: seq<End>): Outcome<seq<(Row, seq<Value>)>>
    requires hops != []
    decreases hops, 0, |ends|
  {
    if ends == [] then Done([])
    else
      var next := BindBoth(w, row, hops[0], ends[0]);
      var found :- if next.None? then Done([]) else Extend(w, hops[1..], next.value, ends[0].trail);
      var rest :- ExtendEach(w, hops, row, ends[1..]);
      Done(found + rest)
  }

  function BindBoth(w: World, row: Row, h: Hop, end: End): Option<Row> {
    var next := Bind(w, row, h.nodeName, end.node);
    if next.None? then None else Bind(w, next.value, h.relName, end.rel)
  }

  // ---- what evaluation reads ----

  ghost predicate GroupCovers(group: Option<seq<Row>>, names: set<Name>) {
    group.Some? ==> forall r | r in group.value :: names <= r.Keys
  }

  /** An expression whose reads are there is evaluated without a missing variable. */
  lemma {:induction false} EvalDefined(w: World, e: Expr, row: Row, group: Option<seq<Row>>)
    requires Reads(e) <= row.Keys && GroupCovers(group, GroupReads(e))
    ensures IsDefined(Eval(w, e, row, group))
    decreases e, 2, 0
  {
    hide EvalArgs, EvalBranches, Comprehended, Quantified, Reduced, GroupValues, Projected, MatchPart, AllReads, AllGroupReads, PartReads;
    match e
    case Absent =>
    case Constant(_) =>
    case Variable(_, _) =>
    case Property(base, _, _) => EvalDefined(w, base, row, group);
    case Apply(op, args) => ArgsDefined(w, op, args, [], row, group);
    case Case(operand, branches, otherwise) =>
      EvalDefined(w, operand, row, group);
      EvalDefined(w, otherwise, row, group);
      var v := Eval(w, operand, row, group);
      if v.Done? { BranchesDefined(w, operand.Absent?, v.value, branches, row, group); }
    case ListComprehension(_, _, _, _) => ListFormDefined(w, e, row, group);
    case Quantifier(_, _, _, _) => ListFormDefined(w, e, row, group);
    case Reduce(_, _, _, _, _) => ListFormDefined(w, e, row, group);
    case Aggregate(name, args, _) =>
      if group.Some? && args != [] {
        GroupDefined(w, args, group.value);
        if IsPercentile(name) && |args| == 2 { EvalDefined(w, args[1], row, None); }
      }
    case PatternComprehension(p, _, _) =>
      PartDefined(w, p, row);
      var rows := MatchPart(w, p, row);
      if rows.Done? { ProjectedDefined(w, e, rows.value, row, group); }
    case PatternPredicate(p) => PartDefined(w, p, row);
  }

  lemma {:induction false} ListFormDefined(w: World, e: Expr, row: Row, group: Option<seq<Row>>)
    requires e.ListComprehension? || e.Quantifier? || e.Reduce?
    requires Reads(e) <= row.Keys && GroupCovers(group, GroupReads(e))
    ensures IsDefined(Eval(w, e, row, group))
    decreases e, 1, 0
  {
    hide Comprehended, Quantified, Reduced, AllReads, AllGroupReads, PartReads;
    match e
    case ListComprehension(_, list, _, _) =>
      EvalDefined(w, list, row, group);
      var c := Eval(w, list, row, group);
      if c.Done? && c.value.List? { ComprehendedDefined(w, e, c.value.items, row, group); }
    case Quantifier(_, _, list, _) =>
      EvalDefined(w, list, row, group);
      var c := Eval(w, list, row, group);
      if c.Done? && c.value.List? { QuantifiedDefined(w, e, c.value.items, row, group); }
    case Reduce(_, initial, _, list, _) =>
      EvalDefined(w, initial, row, group);
      EvalDefined(w, list, row, group);
      var (start, c) := (Eval(w, initial, row, group), Eval(w, list, row, group));
      if start.Done? && c.Done? && c.value.List? { ReducedDefined(w, e, start.value, c.value.items, row, group); }
  }

  lemma {:induction false} ArgsDefined(w: World, op: string, args: seq<Expr>, done: seq<Value>, row: Row,
          group: Option<seq<Row>>)
    requires AllReads(args) <= row.Keys && GroupCovers(group, AllGroupReads(args))
    ensures IsDefined(EvalArgs(w, op, args, done, row, group))
    decreases args, 1, 0
  {
    if args != [] {
      EvalDefined(w, args[0], row, group);
      var v := Eval(w, args[0], row, group);
      if v.Done? { ArgsDefined(w, op, args[1..], done + [v.value], row, group); }
    }
  }

  lemma TwoReads(es: seq<Expr>)
    requires |es| >= 2
    ensures AllReads(es) == Reads(es[0]) + Reads(es[1]) + AllReads(es[2..])
    ensures AllGroupReads(es) == GroupReads(es[0]) + GroupReads(es[1]) + AllGroupReads(es[2..])
  {
    hide Reads, GroupReads;
    assert es[1..][1..] == es[2..];
  }

  lemma {:induction false} BranchesDefined(w: World, plain: bool, operand: Value, branches: seq<Expr>, row: Row,
          group: Option<seq<Row>>)
    requires AllReads(branches) <= row.Keys && GroupCovers(group, AllGroupReads(branches))
    ensures IsDefined(EvalBranches(w, plain, operand, branches, row, group))
    decreases branches, 1, 0
  {
    if |branches| >= 2 {
      TwoReads(branches);
      hide Reads, GroupReads, AllReads, AllGroupReads;
      EvalDefined(w, branches[0], row, group);
      EvalDefined(w, branches[1], row, group);
      BranchesDefined(w, plain, operand, branches[2..], row, group);
    }
  }

  lemma {:induction false} TestDefined(w: World, where: Expr, row: Row, group: Option<seq<Row>>)
    requires Reads(where) <= row.Keys && GroupCovers(group, GroupReads(where))
    ensures IsDefined(Test(w, where, row, group))
    decreases where, 3, 0
  {
    EvalDefined(w, where, row, group);
  }

  lemma {:induction false} ComprehendedDefined(w: World, e: Expr, items: seq<Value>, row: Row, group: Option<seq<Row>>)
    requires e.ListComprehension? && Reads(e) <= row.Keys && GroupCovers(group, GroupReads(e))
    ensures IsDefined(Comprehended(w, e, items, row, group))
    decreases e, 0, |items|
  {
    if items != [] {
      var next := row[e.variable := items[0]];
      TestDefined(w, e.where, next, group);
      EvalDefined(w, e.projection, next, group);
      ComprehendedDefined(w, e, items[1..], row, group);
    }
  }

  lemma {:induction false} QuantifiedDefined(w: World, e: Expr, items: seq<Value>, row: Row, group: Option<seq<Row>>)
    requires e.Quantifier? && Reads(e) <= row.Keys && GroupCovers(group, GroupReads(e))
    ensures IsDefined(Quantified(w, e, items, row, group))
    decreases e, 0, |items|
  {
    if items != [] {
      EvalDefined(w, e.where, row[e.variable := items[0]], group);
      QuantifiedDefined(w, e, items[1..], row, group);
    }
  }

  lemma {:induction false} ReducedDefined(w: World, e: Expr, value: Value, items: seq<Value>, row: Row,
          group: Option<seq<Row>>)
    requires e.Reduce? && Reads(e) <= row.Keys && GroupCovers(group, GroupReads(e))
    ensures IsDefined(Reduced(w, e, value, items, row, group))
    decreases e, 0, |items|
  {
    if items != [] {
      var next := row[e.accumulator := value][e.variable := items[0]];
      EvalDefined(w, e.body, next, group);
      var v := Eval(w, e.body, next, group);
      if v.Done? { ReducedDefined(w, e, v.value, items[1..], row, group); }
    }
  }

  lemma {:induction false} GroupDefined(w: World, args: seq<Expr>, rows: seq<Row>)
    requires args != [] && forall r | r in rows :: Reads(args[0]) <= r.Keys
    ensures IsDefined(GroupValues(w, args, rows))
    decreases args, 0, |rows|
  {
    if rows != [] {
      assert rows[0] in rows;
      EvalDefined(w, args[0], rows[0], None);
      GroupDefined(w, args, rows[1..]);
    }
  }

  lemma {:induction false} ProjectedDefined(w: World, e: Expr, rows: seq<Row>, row: Row, group: Option<seq<Row>>)
    requires e.PatternComprehension? && Reads(e) <= row.Keys && GroupCovers(group, GroupReads(e))
    requires forall r | r in rows :: r.Keys == row.Keys + PartNames(e.part)
    ensures IsDefined(Projected(w, e, rows, group))
    decreases e, 0, |rows|
  {
    if rows != [] {
      assert rows[0] in rows;
      TestDefined(w, e.where, rows[0], group);
      EvalDefined(w, e.projection, rows[0], group);
      ProjectedDefined(w, e, rows[1..], row, group);
    }
  }

  /** A pattern matched on a row binds exactly its names. */
  lemma {:induction false} PartDefined(w: World, p: Part, row: Row)
    requires PartReads(p) <= row.Keys
    ensures IsDefined(MatchPart(w, p, row))
    ensures MatchPart(w, p, row).Done? ==> forall r | r in MatchPart(w, p, row).value :: r.Keys == row.Keys + PartNames(p)
    decreases p, 1, 0
  {
    EvalDefined(w, p.nodeMap, row, None);
    var expected := Eval(w, p.nodeMap, row, None);
    if expected.Done? { StartDefined(w, p, row, w.starts(p, Bound(row, p.nodeName), expected.value)); }
  }

  lemma BindKeys(w: World, row: Row, name: Name, v: Value)
    ensures Bind(w, row, name, v).Some? ==> Bind(w, row, name, v).value.Keys == row.Keys + Named(name)
  {
  }

  lemma {:induction false} StartDefined(w: World, p: Part, row: Row, candidates: seq<Value>)
    requires HopsReads(p.hops, Named(p.nodeName)) <= row.Keys
    ensures IsDefined(StartEach(w, p, row, candidates))
    ensures StartEach(w, p, row, candidates).Done? ==> forall r | r in StartEach(w, p, row, candidates).value :: r.Keys == row.Keys + PartNames(p)
    decreases p, 0, |candidates|
  {
    hide Reads, HopsReads;
    if candidates != [] {
      BindKeys(w, row, p.nodeName, candidates[0]);
      var next := Bind(w, row, p.nodeName, candidates[0]);
      if next.Some? {
        ExtendDefined(w, p.hops, next.value, [candidates[0]], Named(p.nodeName));
        var found := Extend(w, p.hops, next.value, [candidates[0]]);
        if found.Done? { PathsKeys(w, p.name, found.value, row.Keys + ElementNames(p)); }
      }
      StartDefined(w, p, row, candidates[1..]);
    }
  }

  lemma {:induction false} PathsKeys(w: World, name: Name, found: seq<(Row, seq<Value>)>, names: set<Name>)
    requires forall x | x in found :: x.0.Keys == names
    ensures forall r | r in WithPaths(w, name, found) :: r.Keys == names + Named(name)
  {
    if found != [] {
      assert found[0] in found;
      BindKeys(w, found[0].0, name, w.path(found[0].1));
      PathsKeys(w, name, found[1..], names);
    }
  }

  lemma {:induction false} ExtendDefined(w: World, hops: seq<Hop>, row: Row, trail: seq<Value>, bound: set<Name>)
    requires HopsReads(hops, bound) <= row.Keys && bound <= row.Keys
    ensures IsDefined(Extend(w, hops, row, trail))
    ensures Extend(w, hops, row, trail).Done? ==> forall x | x in Extend(w, hops, row, trail).value :: x.0.Keys == row.Keys + HopsNames(hops)
    decreases hops, 1, 0
  {
    hide Reads, ExtendEach;
    if hops != [] {
      var h := hops[0];
      assert HopReads(h) <= row.Keys;
      EvalDefined(w, h.lower, row, None);
      EvalDefined(w, h.upper, row, None);
      EvalDefined(w, h.edgeMap, row, None);
      EvalDefined(w, h.nodeMap, row, None);
      forall ends ensures IsDefined(ExtendEach(w, hops, row, ends))
        ensures ExtendEach(w, hops, row, ends).Done? ==> forall x | x in ExtendEach(w, hops, row, ends).value :: x.0.Keys == row.Keys + HopsNames(hops)
      {
        ExtendEachDefined(w, hops, row, ends, bound);
      }
    }
  }

  lemma {:induction false} ExtendEachDefined(w: World, hops: seq<Hop>, row: Row, ends: seq<End>, bound: set<Name>)
    requires hops != [] && HopsReads(hops, bound) <= row.Keys && bound <= row.Keys
    ensures IsDefined(ExtendEach(w, hops, row, ends))
    ensures ExtendEach(w, hops, row, ends).Done? ==> forall x | x in ExtendEach(w, hops, row, ends).value :: x.0.Keys == row.Keys + HopsNames(hops)
    decreases hops, 0, |ends|
  {
    if ends != [] {
      var next := BindBoth(w, row, hops[0], ends[0]);
      if next.Some? {
        BindKeys(w, row, hops[0].nodeName, ends[0].node);
        BindKeys(w, Bind(w, row, hops[0].nodeName, ends[0].node).value, hops[0].relName, ends[0].rel);
        assert next.value.Keys == row.Keys + HopNames(hops[0]);
        ExtendDefined(w, hops[1..], next.value, ends[0].trail, bound + HopNames(hops[0]));
      }
      ExtendEachDefined(w, hops, row, ends[1..], bound);
    }
  }
}
