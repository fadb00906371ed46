/** What the expression forms with rows or lists inside give: CASE, comprehensions,
    quantifiers, reduce, aggregates, and patterns. */
module ExpressionMeaning {
  import opened Base
  import opened Selections
  import opened Syntax
  import opened Evaluation

  // ---- operators ----

  /** The arguments up to the n-th have these values. */
  ghost predicate ArgsAre(w: World, args: seq<Expr>, row: Row, group: Option<seq<Row>>, values: seq<Value>) {
    |values| <= |args| && forall i | 0 <= i < |values| :: Eval(w, args[i], row, group) == Done(values[i])
  }

  /** The arguments are evaluated from left to right, until the first ones decide, or all
      are there to apply the operator to. */
  ghost predicate Applied(w: World, op: string, args: seq<Expr>, row: Row, group: Option<seq<Row>>, values: seq<Value>, r: Value) {
    && ArgsAre(w, args, row, group, values)
    && (forall k | 0 < k < |values| :: w.early(op, values[..k]).None?)
    && if |values| == |args| then w.apply(op, values) == Some(r) else values != [] && w.early(op, values) == Some(r)
  }

  lemma {:induction false} ArgsMean(w: World, op: string, args: seq<Expr>, done: seq<Value>, row: Row, group: Option<seq<Row>>) returns (more: seq<Value>)
    requires EvalArgs(w, op, args, done, row, group).Done?
    ensures var r := EvalArgs(w, op, args, done, row, group).value;
            && ArgsAre(w, args, row, group, more)
            && (forall k | 0 <= k < |more| && done + more[..k] != [] :: w.early(op, done + more[..k]).None?)
            && if |more| == |args| then w.apply(op, done + more) == Some(r) else done + more != [] && w.early(op, done + more) == Some(r)
    decreases |args|
  {
    hide Eval;
    assert done + [] == done;
    if args == [] || (done != [] && w.early(op, done).Some?) { return []; }
    var v := Eval(w, args[0], row, group).value;
    var rest := ArgsMean(w, op, args[1..], done + [v], row, group);
    more := [v] + rest;
    assert done + more == done + [v] + rest;
    forall k | 0 <= k < |more| && done + more[..k] != [] ensures w.early(op, done + more[..k]).None? {
      if k > 0 { assert done + more[..k] == done + [v] + rest[..k - 1]; } else { assert done + more[..k] == done; }
    }
    forall i | 0 <= i < |more| ensures Eval(w, args[i], row, group) == Done(more[i]) { if i > 0 { assert more[i] == rest[i - 1] && args[i] == args[1..][i - 1]; } }
  }

  lemma ApplyMeans(w: World, op: string, args: seq<Expr>, row: Row, group: Option<seq<Row>>) returns (values: seq<Value>)
    requires Eval(w, Apply(op, args), row, group).Done?
    ensures Applied(w, op, args, row, group, values, Eval(w, Apply(op, args), row, group).value)
  {
    ApplyIs(w, op, args, row, group);
    hide Eval, EvalArgs;
    values := ArgsMean(w, op, args, [], row, group);
    assert [] + values == values && forall k | 0 <= k <= |values| :: [] + values[..k] == values[..k];
  }

  lemma ApplyIs(w: World, op: string, args: seq<Expr>, row: Row, group: Option<seq<Row>>)
    ensures Eval(w, Apply(op, args), row, group) == EvalArgs(w, op, args, [], row, group)
  {
  }

  /** A constant is what it denotes, a variable its value in the row, a property that of
      its base. */
  lemma AtomsMean(w: World, text: string, name: Name, spelled: string, base: Expr, property: string, key: string, row: Row, group: Option<seq<Row>>)
    ensures Eval(w, Constant(text), row, group) == (if w.constant(text).Some? then Done(w.constant(text).value) else Bad(Failed))
    ensures Eval(w, Variable(name, spelled), row, group) == if name in row then Done(row[name]) else Bad(Undefined(name))
    ensures Eval(w, base, row, group).Done? ==>
              Eval(w, Property(base, property, key), row, group)
              == var v := w.property(Eval(w, base, row, group).value, property); if v.Some? then Done(v.value) else Bad(Failed)
  {
  }

  // ---- CASE ----

  /** The k-th WHEN is the first that holds, and r the value of its THEN. */
  ghost predicate IsChosen(w: World, plain: bool, operand: Value, branches: seq<Expr>, row: Row, group: Option<seq<Row>>, k: nat, r: Value) {
    && 2 * k + 1 < |branches| && WhenHolds(w, plain, operand, branches[2 * k], row, group) && Eval(w, branches[2 * k + 1], row, group) == Done(r)
    && forall j: nat | j < k :: WhenFails(w, plain, operand, branches[2 * j], row, group)
  }

  /** Without an operand a condition must be true, with one it must be equal to it. */
  predicate WhenHolds(w: World, plain: bool, operand: Value, when: Expr, row: Row, group: Option<seq<Row>>) {
    var c := Eval(w, when, row, group);
    c.Done? && if plain then c.value == Bool(true) else w.equal(operand, c.value)
  }

  predicate WhenFails(w: World, plain: bool, operand: Value, when: Expr, row: Row, group: Option<seq<Row>>) {
    Eval(w, when, row, group).Done? && !WhenHolds(w, plain, operand, when, row, group)
  }

  lemma {:induction false} BranchesMean(w: World, plain: bool, operand: Value, branches: seq<Expr>, row: Row, group: Option<seq<Row>>) returns (k: nat)
    requires EvalBranches(w, plain, operand, branches, row, group).Done?
    ensures var r := EvalBranches(w, plain, operand, branches, row, group).value;
            if r.Some? then IsChosen(w, plain, operand, branches, row, group, k, r.value)
            else forall j: nat | 2 * j + 1 < |branches| :: WhenFails(w, plain, operand, branches[2 * j], row, group)
    decreases |branches|
  {
    k := 0;
    FirstWhen(w, plain, operand, branches, row, group);
    if |branches| >= 2 && !WhenHolds(w, plain, operand, branches[0], row, group) {
      hide Eval, WhenHolds, WhenFails, EvalBranches, IsChosen;
      var rest := branches[2..];
      var later := BranchesMean(w, plain, operand, rest, row, group);
      k := later + 1;
      if EvalBranches(w, plain, operand, branches, row, group).value.Some? {
        ChosenLater(w, plain, operand, branches, row, group, later, EvalBranches(w, plain, operand, branches, row, group).value.value);
      } else {
        forall j: nat | 2 * j + 1 < |branches| ensures WhenFails(w, plain, operand, branches[2 * j], row, group) {
          if j > 0 { assert branches[2 * j] == rest[2 * (j - 1)]; }
        }
      }
    }
  }

  lemma FirstWhen(w: World, plain: bool, operand: Value, branches: seq<Expr>, row: Row, group: Option<seq<Row>>)
    requires EvalBranches(w, plain, operand, branches, row, group).Done?
    ensures |branches| < 2 ==> EvalBranches(w, plain, operand, branches, row, group) == Done(None)
    ensures |branches| >= 2 && WhenHolds(w, plain, operand, branches[0], row, group) ==>
              EvalBranches(w, plain, operand, branches, row, group).value.Some?
              && IsChosen(w, plain, operand, branches, row, group, 0, EvalBranches(w, plain, operand, branches, row, group).value.value)
    ensures |branches| >= 2 && !WhenHolds(w, plain, operand, branches[0], row, group) ==>
              WhenFails(w, plain, operand, branches[0], row, group)
              && EvalBranches(w, plain, operand, branches, row, group) == EvalBranches(w, plain, operand, branches[2..], row, group)
  {
    hide Eval;
  }

  lemma ChosenLater(w: World, plain: bool, operand: Value, branches: seq<Expr>, row: Row, group: Option<seq<Row>>, k: nat, r: Value)
    requires |branches| >= 2 && WhenFails(w, plain, operand, branches[0], row, group)
    requires IsChosen(w, plain, operand, branches[2..], row, group, k, r)
    ensures IsChosen(w, plain, operand, branches, row, group, k + 1, r)
  {
    hide Eval, WhenHolds, WhenFails;
    var rest := branches[2..];
    assert rest[2 * k] == branches[2 * (k + 1)] && rest[2 * k + 1] == branches[2 * (k + 1) + 1];
    forall j: nat | j < k + 1 ensures WhenFails(w, plain, operand, branches[2 * j], row, group) {
      if j > 0 { assert branches[2 * j] == rest[2 * (j - 1)]; }
    }
  }

  /** CASE gives the value of the first WHEN that holds, or that of ELSE. */
  lemma CaseMeans(w: World, operand: Expr, branches: seq<Expr>, otherwise: Expr, row: Row, group: Option<seq<Row>>) returns (k: nat)
    requires Eval(w, Case(operand, branches, otherwise), row, group).Done?
    ensures var (v, r) := (Eval(w, operand, row, group), Eval(w, Case(operand, branches, otherwise), row, group));
            v.Done?
            && (IsChosen(w, operand.Absent?, v.value, branches, row, group, k, r.value)
                || (Eval(w, otherwise, row, group) == r
                    && forall j: nat | 2 * j + 1 < |branches| :: WhenFails(w, operand.Absent?, v.value, branches[2 * j], row, group)))
  {
    CaseIs(w, operand, branches, otherwise, row, group);
    hide Eval, EvalBranches, IsChosen, WhenFails;
    k := BranchesMean(w, operand.Absent?, Eval(w, operand, row, group).value, branches, row, group);
  }

  lemma CaseIs(w: World, operand: Expr, branches: seq<Expr>, otherwise: Expr, row: Row, group: Option<seq<Row>>)
    requires Eval(w, Case(operand, branches, otherwise), row, group).Done?
    ensures Eval(w, operand, row, group).Done?
    ensures var chosen := EvalBranches(w, operand.Absent?, Eval(w, operand, row, group).value, branches, row, group);
            chosen.Done? && Eval(w, Case(operand, branches, otherwise), row, group)
                            == if chosen.value.Some? then Done(chosen.value.value) else Eval(w, otherwise, row, group)
  {
    hide EvalBranches;
  }

  // ---- lists ----

  /** No condition, or one that is true. */
  predicate Passes(w: World, where: Expr, row: Row, group: Option<seq<Row>>) {
    where.Absent? || Eval(w, where, row, group) == Done(Bool(true))
  }

  lemma TestIs(w: World, where: Expr, row: Row, group: Option<seq<Row>>)
    requires Test(w, where, row, group).Done?
    ensures Test(w, where, row, group).value <==> Passes(w, where, row, group)
  {
    hide Eval;
  }

  /** The items that pass, each as it is or projected. */
  ghost predicate Comprehends(w: World, e: Expr, items: seq<Value>, row: Row, group: Option<seq<Row>>, result: seq<Value>)
    requires e.ListComprehension?
  {
    exists kept :: ItemsKept(w, e, items, row, group, kept) && ItemsProjected(w, e, kept, row, group, result)
  }

  ghost predicate ItemsKept(w: World, e: Expr, items: seq<Value>, row: Row, group: Option<seq<Row>>, kept: seq<Value>)
    requires e.ListComprehension?
  {
    Selects(items, kept, (x: Value) => Passes(w, e.where, row[e.variable := x], group))
  }

  ghost predicate ItemsProjected(w: World, e: Expr, kept: seq<Value>, row: Row, group: Option<seq<Row>>, result: seq<Value>)
    requires e.ListComprehension?
  {
    |result| == |kept|
    && forall i | 0 <= i < |kept| ::
         if e.projection.Absent? then result[i] == kept[i] else Eval(w, e.projection, row[e.variable := kept[i]], group) == Done(result[i])
  }

  lemma {:induction false} ComprehendedMeans(w: World, e: Expr, items: seq<Value>, row: Row, group: Option<seq<Row>>) returns (kept: seq<Value>)
    requires e.ListComprehension? && Comprehended(w, e, items, row, group).Done?
    ensures ItemsKept(w, e, items, row, group, kept)
    ensures ItemsProjected(w, e, kept, row, group, Comprehended(w, e, items, row, group).value)
    decreases |items|
  {
    hide Eval, Test, Selects, Passes;
    var keep := (x: Value) => Passes(w, e.where, row[e.variable := x], group);
    if items == [] {
      SelectsNothing(keep);
      return [];
    }
    var next := row[e.variable := items[0]];
    TestIs(w, e.where, next, group);
    var rest := ComprehendedMeans(w, e, items[1..], row, group);
    SelectsFirst(items[0], items[1..], rest, keep);
    assert [items[0]] + items[1..] == items;
    kept := (if keep(items[0]) then [items[0]] else []) + rest;
    var (result, later) := (Comprehended(w, e, items, row, group).value, Comprehended(w, e, items[1..], row, group).value);
    if keep(items[0]) {
      forall i | 0 < i < |kept| ensures kept[i] == rest[i - 1] && result[i] == later[i - 1] { }
    } else {
      assert kept == rest && result == later;
    }
  }

  lemma ComprehensionMeans(w: World, e: Expr, row: Row, group: Option<seq<Row>>)
    requires e.ListComprehension? && Eval(w, e, row, group).Done?
    ensures var (list, r) := (Eval(w, e.list, row, group), Eval(w, e, row, group).value);
            list.Done? && if list.value.Null? then r == Null else list.value.List? && r.List? && Comprehends(w, e, list.value.items, row, group, r.items)
  {
    var list := Eval(w, e.list, row, group);
    assert list.Done? && (list.value.List? ==> Eval(w, e, row, group) == Done(List(Comprehended(w, e, list.value.items, row, group).value)));
    hide Comprehended, ItemsKept, ItemsProjected;
    if list.value.List? { var kept := ComprehendedMeans(w, e, list.value.items, row, group); }
  }

  /** A quantifier is decided by the values of its condition, item by item. */
  lemma {:induction false} QuantifiedMeans(w: World, e: Expr, items: seq<Value>, row: Row, group: Option<seq<Row>>)
    requires e.Quantifier? && Quantified(w, e, items, row, group).Done?
    ensures var t := Quantified(w, e, items, row, group).value;
            |t| == |items| && forall i | 0 <= i < |items| :: Eval(w, e.where, row[e.variable := items[i]], group) == Done(t[i])
    decreases |items|
  {
    hide Eval;
    if items != [] {
      QuantifiedMeans(w, e, items[1..], row, group);
      var (t, rest) := (Quantified(w, e, items, row, group).value, Quantified(w, e, items[1..], row, group).value);
      forall i | 0 < i < |items| ensures t[i] == rest[i - 1] && items[i] == items[1..][i - 1] { }
    }
  }

  /** reduce hands the accumulator on from item to item. */
  ghost predicate Folds(w: World, e: Expr, items: seq<Value>, row: Row, group: Option<seq<Row>>, steps: seq<Value>)
    requires e.Reduce?
  {
    |steps| == |items| + 1
    && forall i | 0 <= i < |items| :: Eval(w, e.body, row[e.accumulator := steps[i]][e.variable := items[i]], group) == Done(steps[i + 1])
  }

  lemma {:induction false} ReducedMeans(w: World, e: Expr, value: Value, items: seq<Value>, row: Row, group: Option<seq<Row>>) returns (steps: seq<Value>)
    requires e.Reduce? && Reduced(w, e, value, items, row, group).Done?
    ensures Folds(w, e, items, row, group, steps) && steps[0] == value && steps[|items|] == Reduced(w, e, value, items, row, group).value
    decreases |items|
  {
    hide Eval;
    if items == [] { return [value]; }
    var v := Eval(w, e.body, row[e.accumulator := value][e.variable := items[0]], group).value;
    var rest := ReducedMeans(w, e, v, items[1..], row, group);
    steps := [value] + rest;
    forall i | 0 <= i < |items| ensures Eval(w, e.body, row[e.accumulator := steps[i]][e.variable := items[i]], group) == Done(steps[i + 1]) {
      if i > 0 { assert items[i] == items[1..][i - 1] && steps[i] == rest[i - 1] && steps[i + 1] == rest[i]; }
    }
  }

  // ---- aggregates ----

  /** The values of the argument on the rows of the group, in their order. */
  ghost predicate OnRows(w: World, e: Expr, rows: seq<Row>, values: seq<Value>) {
    |values| == |rows| && forall i | 0 <= i < |rows| :: Eval(w, e, rows[i], None) == Done(values[i])
  }

  /** An aggregate sees these values without the nulls. */
  lemma {:induction false} GroupValuesMean(w: World, args: seq<Expr>, rows: seq<Row>) returns (all: seq<Value>)
    requires args != [] && GroupValues(w, args, rows).Done?
    ensures OnRows(w, args[0], rows, all) && Selects(all, GroupValues(w, args, rows).value, (x: Value) => x != Null)
    decreases |rows|
  {
    hide Eval, Selects;
    var keep := (x: Value) => x != Null;
    if rows == [] {
      SelectsNothing(keep);
      return [];
    }
    var v := Eval(w, args[0], rows[0], None).value;
    var rest := GroupValuesMean(w, args, rows[1..]);
    SelectsFirst(v, rest, GroupValues(w, args, rows[1..]).value, keep);
    all := [v] + rest;
    forall i | 0 < i < |rows| ensures all[i] == rest[i - 1] && rows[i] == rows[1..][i - 1] { }
  }

  /** count(*) counts the rows; any other aggregate is of the values of its argument. */
  lemma AggregateMeans(w: World, name: string, args: seq<Expr>, key: string, row: Row, rows: seq<Row>)
    requires Eval(w, Aggregate(name, args, key), row, Some(rows)).Done?
    ensures var r := Eval(w, Aggregate(name, args, key), row, Some(rows)).value;
            if name == "count" && args == [] then r == w.count(|rows|)
            else args != [] && GroupValues(w, args, rows).Done?
                 && exists extra :: w.aggregate(name, GroupValues(w, args, rows).value, extra) == Some(r)
                                    && if IsPercentile(name) then |args| == 2 && Eval(w, args[1], row, None) == Done(extra) else extra == Null
  {
    hide GroupValues;
  }

  // ---- patterns ----

  /** A pattern as a condition asks whether anything matches. */
  lemma PredicateMeans(w: World, p: Part, row: Row, group: Option<seq<Row>>)
    requires Eval(w, PatternPredicate(p), row, group).Done?
    ensures MatchPart(w, p, row).Done? && Eval(w, PatternPredicate(p), row, group) == Done(Bool(MatchPart(w, p, row).value != []))
  {
    hide MatchPart;
  }

  /** One name: bound to the value if it is new, and otherwise known to be the same. */
  predicate Binds(w: World, before: Row, name: Name, v: Value, after: Row) {
    if name == "" then after == before
    else if name in before then after == before && w.same(before[name], v)
    else after.Keys == before.Keys + {name} && after[name] == v && forall x | x in before :: after[x] == before[x]
  }

  lemma BindMeans(w: World, before: Row, name: Name, v: Value, after: Row)
    ensures Bind(w, before, name, v) == Some(after) <==> Binds(w, before, name, v, after)
  {
    if name != "" && name !in before && Binds(w, before, name, v, after) { assert after == before[name := v]; }
  }

  /** Where a hop may lead from a row and a trail: bounds are read on the row, and maps
      only if something is tested. */
  ghost predicate MayLead(w: World, h: Hop, row: Row, trail: seq<Value>, end: End) {
    exists lower, upper, edgeMap, nodeMap :: LeadsTo(w, h, row, trail, end, lower, upper, edgeMap, nodeMap)
  }

  ghost predicate LeadsTo(w: World, h: Hop, row: Row, trail: seq<Value>, end: End, lower: Value, upper: Value, edgeMap: Value, nodeMap: Value) {
    && Eval(w, h.lower, row, None) == Done(lower) && Eval(w, h.upper, row, None) == Done(upper)
    && (if w.tests(h, trail).0 then Eval(w, h.edgeMap, row, None) == Done(edgeMap) else edgeMap == Null)
    && (if w.tests(h, trail).1 then Eval(w, h.nodeMap, row, None) == Done(nodeMap) else nodeMap == Null)
    && w.ends(h, trail, [lower, upper, edgeMap, nodeMap]).Some? && end in w.ends(h, trail, [lower, upper, edgeMap, nodeMap]).value
  }

  /** The hops in turn lead from a row to a row, each binding its node and relationship. */
  ghost predicate HopsLead(w: World, hops: seq<Hop>, row: Row, trail: seq<Value>, r: Row, t: seq<Value>)
    decreases |hops|
  {
    if hops == [] then r == row && t == trail
    else exists end, middle, next ::
           && MayLead(w, hops[0], row, trail, end) && Binds(w, row, hops[0].nodeName, end.node, middle)
           && Binds(w, middle, hops[0].relName, end.rel, next) && HopsLead(w, hops[1..], next, end.trail, r, t)
  }

  /** What was known stays as it was. */
  lemma BindsKeep(w: World, before: Row, name: Name, v: Value, after: Row)
    requires Binds(w, before, name, v, after)
    ensures forall x | x in before :: x in after && after[x] == before[x]
    ensures name != "" && name !in before ==> name in after && after[name] == v
  {
  }

  /** Bound to the node and the relationship an end offers. */
  predicate BindsBoth(w: World, h: Hop, row: Row, end: End, next: Row) {
    BindBoth(w, row, h, end) == Some(next)
  }

  lemma BindBothMeans(w: World, h: Hop, row: Row, end: End, next: Row)
    ensures BindsBoth(w, h, row, end, next) <==>
            exists middle :: Binds(w, row, h.nodeName, end.node, middle) && Binds(w, middle, h.relName, end.rel, next)
  {
    hide Bind, Binds;
    var bound := Bind(w, row, h.nodeName, end.node);
    forall middle ensures bound == Some(middle) <==> Binds(w, row, h.nodeName, end.node, middle) { BindMeans(w, row, h.nodeName, end.node, middle); }
    if bound.Some? { BindMeans(w, bound.value, h.relName, end.rel, next); }
  }

  ghost predicate EndThenRest(w: World, hops: seq<Hop>, row: Row, end: End, next: Row, r: Row, t: seq<Value>)
    requires hops != []
  {
    BindsBoth(w, hops[0], row, end, next) && HopsLead(w, hops[1..], next, end.trail, r, t)
  }

  lemma {:induction false} ExtendEachMeans(w: World, hops: seq<Hop>, row: Row, ends: seq<End>, r: Row, t: seq<Value>)
    requires hops != [] && ExtendEach(w, hops, row, ends).Done?
    ensures (r, t) in ExtendEach(w, hops, row, ends).value <==> exists end, next :: end in ends && EndThenRest(w, hops, row, end, next, r, t)
    decreases hops, 0, |ends|
  {
    hide Extend, BindBoth, HopsLead;
    if ends != [] {
      var next := BindBoth(w, row, hops[0], ends[0]);
      if next.Some? { ExtendMeans(w, hops[1..], next.value, ends[0].trail, r, t); }
      ExtendEachMeans(w, hops, row, ends[1..], r, t);
      assert ends == [ends[0]] + ends[1..];
      var found := if next.None? then [] else Extend(w, hops[1..], next.value, ends[0].trail).value;
      assert ExtendEach(w, hops, row, ends).value == found + ExtendEach(w, hops, row, ends[1..]).value;
      if next.Some? { assert EndThenRest(w, hops, row, ends[0], next.value, r, t) <==> (r, t) in found; }
      assert (r, t) in found <==> exists n :: EndThenRest(w, hops, row, ends[0], n, r, t);
    }
  }

  /** What a chain of hops gives are the rows and trails the hops lead to. */
  lemma {:induction false} ExtendMeans(w: World, hops: seq<Hop>, row: Row, trail: seq<Value>, r: Row, t: seq<Value>)
    requires Extend(w, hops, row, trail).Done?
    ensures (r, t) in Extend(w, hops, row, trail).value <==> HopsLead(w, hops, row, trail, r, t)
    decreases hops, 1, 0
  {
    if hops != [] {
      var ends := OfferedEnds(w, hops, row, trail);
      ExtendEachMeans(w, hops, row, ends, r, t);
      hide *;
      LeadIs(w, hops, row, trail, ends, r, t);
    } else {
      hide Eval;
    }
  }

  /** The ends offered are those a hop may lead to. */
  lemma OfferedEnds(w: World, hops: seq<Hop>, row: Row, trail: seq<Value>) returns (ends: seq<End>)
    requires hops != [] && Extend(w, hops, row, trail).Done?
    ensures ExtendEach(w, hops, row, ends).Done? && Extend(w, hops, row, trail) == ExtendEach(w, hops, row, ends)
    ensures forall end :: end in ends <==> MayLead(w, hops[0], row, trail, end)
  {
    hide Eval, ExtendEach;
    var h := hops[0];
    var (lower, upper) := (Eval(w, h.lower, row, None).value, Eval(w, h.upper, row, None).value);
    var edgeMap := if w.tests(h, trail).0 then Eval(w, h.edgeMap, row, None).value else Null;
    var nodeMap := if w.tests(h, trail).1 then Eval(w, h.nodeMap, row, None).value else Null;
    ends := w.ends(h, trail, [lower, upper, edgeMap, nodeMap]).value;
    forall end ensures end in ends <==> MayLead(w, h, row, trail, end) {
      assert end in ends <==> LeadsTo(w, h, row, trail, end, lower, upper, edgeMap, nodeMap);
    }
  }

  lemma LeadIs(w: World, hops: seq<Hop>, row: Row, trail: seq<Value>, ends: seq<End>, r: Row, t: seq<Value>)
    requires hops != [] && forall end :: end in ends <==> MayLead(w, hops[0], row, trail, end)
    ensures (exists end, next :: end in ends && EndThenRest(w, hops, row, end, next, r, t)) <==> HopsLead(w, hops, row, trail, r, t)
  {
    hide MayLead, Binds, BindsBoth;
    forall end, next ensures BindsBoth(w, hops[0], row, end, next) <==>
        exists middle :: Binds(w, row, hops[0].nodeName, end.node, middle) && Binds(w, middle, hops[0].relName, end.rel, next) {
      BindBothMeans(w, hops[0], row, end, next);
    }
    if end, next :| end in ends && EndThenRest(w, hops, row, end, next, r, t) {
      assert MayLead(w, hops[0], row, trail, end);
      var middle :| Binds(w, row, hops[0].nodeName, end.node, middle) && Binds(w, middle, hops[0].relName, end.rel, next);
    }
    if HopsLead(w, hops, row, trail, r, t) {
      var end, middle, next :| && MayLead(w, hops[0], row, trail, end) && Binds(w, row, hops[0].nodeName, end.node, middle)
                               && Binds(w, middle, hops[0].relName, end.rel, next) && HopsLead(w, hops[1..], next, end.trail, r, t);
      assert BindsBoth(w, hops[0], row, end, next);
      assert EndThenRest(w, hops, row, end, next, r, t);
    }
  }

  /** A row of a pattern: a start, the hops from there, and the name of the path. */
  ghost predicate IsPartRow(w: World, p: Part, row: Row, r: Row) {
    exists n, first, last, t :: PartRow(w, p, row, r, n, first, last, t)
  }

  ghost predicate PartRow(w: World, p: Part, row: Row, r: Row, n: Value, first: Row, last: Row, t: seq<Value>) {
    && Eval(w, p.nodeMap, row, None).Done?
    && n in w.starts(p, if p.nodeName in row then Some(row[p.nodeName]) else None, Eval(w, p.nodeMap, row, None).value)
    && Binds(w, row, p.nodeName, n, first) && HopsLead(w, p.hops, first, [n], last, t) && Binds(w, last, p.name, w.path(t), r)
  }

  lemma {:induction false} PathsMean(w: World, name: Name, found: seq<(Row, seq<Value>)>, r: Row)
    ensures r in WithPaths(w, name, found) <==> exists last, t :: (last, t) in found && Binds(w, last, name, w.path(t), r)
  {
    hide Bind, Binds;
    if found != [] {
      PathsMean(w, name, found[1..], r);
      assert found == [found[0]] + found[1..];
      BindMeans(w, found[0].0, name, w.path(found[0].1), r);
      var bound := Bind(w, found[0].0, name, w.path(found[0].1));
      assert WithPaths(w, name, found) == (if bound.Some? then [bound.value] else []) + WithPaths(w, name, found[1..]);
      assert found[0] == (found[0].0, found[0].1);
    }
  }

  ghost predicate StartRow(w: World, p: Part, row: Row, r: Row, n: Value, first: Row, last: Row, t: seq<Value>) {
    Binds(w, row, p.nodeName, n, first) && HopsLead(w, p.hops, first, [n], last, t) && Binds(w, last, p.name, w.path(t), r)
  }

  lemma OneStart(w: World, p: Part, row: Row, n: Value, r: Row, found: seq<(Row, seq<Value>)>)
    requires var next := Bind(w, row, p.nodeName, n); if next.None? then found == [] else Extend(w, p.hops, next.value, [n]) == Done(found)
    ensures r in WithPaths(w, p.name, found) <==> exists first, last, t :: StartRow(w, p, row, r, n, first, last, t)
  {
    PathsMean(w, p.name, found, r);
    var next := Bind(w, row, p.nodeName, n);
    hide Bind, Binds, WithPaths, Extend, HopsLead;
    forall first ensures next == Some(first) <==> Binds(w, row, p.nodeName, n, first) { BindMeans(w, row, p.nodeName, n, first); }
    if next.Some? {
      forall last, t ensures (last, t) in found <==> HopsLead(w, p.hops, next.value, [n], last, t) { ExtendMeans(w, p.hops, next.value, [n], last, t); }
      if last, t :| (last, t) in found && Binds(w, last, p.name, w.path(t), r) { assert StartRow(w, p, row, r, n, next.value, last, t); }
    }
    if first, last, t :| StartRow(w, p, row, r, n, first, last, t) { assert (last, t) in found; }
  }

  lemma {:induction false} StartsMean(w: World, p: Part, row: Row, candidates: seq<Value>, r: Row)
    requires StartEach(w, p, row, candidates).Done?
    ensures r in StartEach(w, p, row, candidates).value <==> exists n, first, last, t :: n in candidates && StartRow(w, p, row, r, n, first, last, t)
    decreases |candidates|
  {
    hide Extend, Bind, StartRow, WithPaths;
    if candidates != [] {
      var n := candidates[0];
      var next := Bind(w, row, p.nodeName, n);
      var found := if next.None? then [] else Extend(w, p.hops, next.value, [n]).value;
      OneStart(w, p, row, n, r, found);
      StartsMean(w, p, row, candidates[1..], r);
      assert candidates == [n] + candidates[1..];
      assert StartEach(w, p, row, candidates).value == WithPaths(w, p.name, found) + StartEach(w, p, row, candidates[1..]).value;
    }
  }

  /** The rows a pattern gives for a row. */
  lemma PartMeans(w: World, p: Part, row: Row, r: Row)
    requires MatchPart(w, p, row).Done?
    ensures r in MatchPart(w, p, row).value <==> IsPartRow(w, p, row, r)
  {
    var candidates := w.starts(p, Bound(row, p.nodeName), Eval(w, p.nodeMap, row, None).value);
    StartsMean(w, p, row, candidates, r);
    hide Eval, StartEach, HopsLead, Binds;
    forall n, first, last, t ensures PartRow(w, p, row, r, n, first, last, t) <==> n in candidates && StartRow(w, p, row, r, n, first, last, t) { }
  }

  // ---- pattern comprehensions ----

  /** The rows of the pattern that pass, in order, and the value on each of them. */
  ghost predicate Collects(w: World, e: Expr, rows: seq<Row>, group: Option<seq<Row>>, result: seq<Value>)
    requires e.PatternComprehension?
  {
    exists kept :: RowsKept(w, e, rows, group, kept) && RowsProjected(w, e, kept, group, result)
  }

  ghost predicate RowsKept(w: World, e: Expr, rows: seq<Row>, group: Option<seq<Row>>, kept: seq<Row>)
    requires e.PatternComprehension?
  {
    Selects(rows, kept, (r: Row) => Passes(w, e.where, r, group))
  }

  ghost predicate RowsProjected(w: World, e: Expr, kept: seq<Row>, group: Option<seq<Row>>, result: seq<Value>)
    requires e.PatternComprehension?
  {
    |result| == |kept| && forall i | 0 <= i < |kept| :: Eval(w, e.projection, kept[i], group) == Done(result[i])
  }

  lemma {:induction false} ProjectedMeans(w: World, e: Expr, rows: seq<Row>, group: Option<seq<Row>>) returns (kept: seq<Row>)
    requires e.PatternComprehension? && Projected(w, e, rows, group).Done?
    ensures RowsKept(w, e, rows, group, kept)
    ensures RowsProjected(w, e, kept, group, Projected(w, e, rows, group).value)
    decreases |rows|
  {
    hide Eval, Test, Selects, Passes;
    var keep := (r: Row) => Passes(w, e.where, r, group);
    if rows == [] {
      SelectsNothing(keep);
      return [];
    }
    TestIs(w, e.where, rows[0], group);
    var rest := ProjectedMeans(w, e, rows[1..], group);
    SelectsFirst(rows[0], rows[1..], rest, keep);
    assert [rows[0]] + rows[1..] == rows;
    kept := (if keep(rows[0]) then [rows[0]] else []) + rest;
    var (result, later) := (Projected(w, e, rows, group).value, Projected(w, e, rows[1..], group).value);
    if keep(rows[0]) {
      forall i | 0 < i < |kept| ensures kept[i] == rest[i - 1] && result[i] == later[i - 1] { }
    } else {
      assert kept == rest && result == later;
    }
  }

  /** A pattern comprehension is the list of the values on the rows that match and pass. */
  lemma CollectionMeans(w: World, e: Expr, row: Row, group: Option<seq<Row>>)
    requires e.PatternComprehension? && Eval(w, e, row, group).Done?
    ensures var (rows, r) := (MatchPart(w, e.part, row), Eval(w, e, row, group).value);
            rows.Done? && r.List? && Collects(w, e, rows.value, group, r.items)
  {
    var rows := MatchPart(w, e.part, row);
    assert rows.Done? && Eval(w, e, row, group) == Done(List(Projected(w, e, rows.value, group).value));
    hide Projected, RowsKept, RowsProjected;
    var kept := ProjectedMeans(w, e, rows.value, group);
  }
}
