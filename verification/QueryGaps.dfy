/** Where a query that the validator accepts can still fail on a name: the cases
    the soundness theorem excludes, each with a query, and their families with the
    exact condition. */
module QueryGaps {
  import opened Base
  import opened Sorted
  import opened Syntax
  import opened ScopeCheck
  import opened Evaluation
  import opened Projecting
  import opened ReadQuery

  function Var(name: Name): Expr {
    Variable(name, name)
  }

  /** MATCH (a {x: b})-->(b) */
  function BackwardsMatch(): Clause {
    Match(false, [Part("", "a", Apply("map", [Var("b")]), [Hop("", Absent, Absent, Absent, "b", Absent)])], Absent)
  }

  /** A map that reads a variable bound later in the pattern passes validation, but
      is evaluated first, whatever the graph. */
  lemma MapReadsLaterVariable(w: World)
    ensures Validated([BackwardsMatch()], {}, []).Some? && !AllSafe([BackwardsMatch()], {})
    ensures Steps(w, [BackwardsMatch()], State([map[]], {}, Table([], []))) == Bad(Undefined("b"))
  {
    BackwardsIsAccepted();
    BackwardsFails(w);
    hide ClauseAccepted, ClauseSafe, MatchRows;
    assert [BackwardsMatch()][1..] == [];
  }

  lemma BackwardsIsAccepted()
    ensures ClauseAccepted(BackwardsMatch(), {}) && !ClauseSafe(BackwardsMatch(), {})
  {
    var parts := BackwardsMatch().parts;
    var e := parts[0].nodeMap;
    assert e.args[1..] == [] && parts[0].hops[1..] == [] && parts[1..] == [];
    assert Reads(e) == {"b"} && PartsNames(parts) == {"a", "b"} && {} + PartsNames(parts) == {"a", "b"};
    assert Plain(e, {"a", "b"});
    assert AcceptsPart(parts[0], {"a", "b"}) && AcceptsParts(parts, {"a", "b"});
    assert Fresh(parts[0], {}) && FreshParts(parts, {});
    assert "b" in Reads(e) * (PartsNames(parts) - {});
    assert !PartInOrder(parts[0], {"a", "b"}, PartsNames(parts) - {}, {});
  }

  lemma BackwardsFails(w: World)
    ensures Step(w, BackwardsMatch(), State([map[]], {}, Table([], []))) == Bad(Undefined("b"))
  {
    var part := BackwardsMatch().parts[0];
    var none: Row := map[];
    assert EvalArgs(w, "map", part.nodeMap.args, [], none, None) == Bad(Undefined("b"));
    assert MatchPart(w, part, none) == Bad(Undefined("b"));
    hide MatchPart;
    assert MatchEach(w, part, [none]) == Bad(Undefined("b"));
    assert MatchAll(w, [part], [none]) == Bad(Undefined("b"));
    hide MatchAll;
    assert MatchRows(w, false, [part], Absent, [none]) == Bad(Undefined("b"));
  }

  // ---- ORDER BY an aggregate of an alias ----

  /** On a group of rows with the input's names, an aggregate of one variable misses
      it exactly when it is not an input variable: an alias will not do. */
  lemma AggregateReadsInput(w: World, name: string, v: Name, key: string, row: Row, group: seq<Row>, scope: set<Name>)
    requires group != [] && RowsHave(group, scope) && !IsPercentile(name)
    ensures Eval(w, Aggregate(name, [Var(v)], key), row, Some(group)) == Bad(Undefined(v)) <==> v !in scope
  {
    assert group[0] in group;
    var e := Aggregate(name, [Var(v)], key);
    if v in scope {
      assert Reads(e) == {} && GroupReads(e) == {v};
      EvalDefined(w, e, row, Some(group));
    } else {
      assert GroupValues(w, [Var(v)], group) == Bad(Undefined(v));
    }
  }

  /** RETURN count(n) AS c ORDER BY sum(c) */
  function SumOfAlias(): Projection {
    Projection(false, [Item(Aggregate("count", [Var("n")], "count(n)"), "c", "count(n)", "count(n)")], Absent,
               [Sort(Aggregate("sum", [Var("c")], "sum(c)"), "sum(c)", false)], Absent, Absent)
  }

  lemma OrderReadsAlias(w: World, row: Row)
    requires row.Keys == {"n"}
    ensures Accepted(SumOfAlias(), false, {"n"}) && !Safe(SumOfAlias(), {"n"})
    ensures SortKeys(w, SumOfAlias().order, [Line(row, [], row, row, Some([row]))]) == Bad(Undefined("c"))
  {
    var e := SumOfAlias().order[0].expr;
    AliasIsAccepted();
    assert e.args[1..] == [] && GroupReads(e) == {"c"};
    AggregateReadsInput(w, "sum", "c", "sum(c)", row, [row], {"n"});
    hide Eval;
    assert Exprs(SumOfAlias().order) == [e];
    assert EvalAll(w, [e], row, Some([row])) == Bad(Undefined("c"));
  }

  lemma AliasIsAccepted()
    ensures Accepted(SumOfAlias(), false, {"n"}) && Aggregates(SumOfAlias().items)
  {
    var p := SumOfAlias();
    var (count, sum) := (p.items[0].expr, p.order[0].expr);
    assert p.items[1..] == [] && count.args[1..] == [] && sum.args[1..] == [];
    assert HasAggregate(count) && Aggregates(p.items) && !HasStar(p.items);
    assert Output(p.items, {"n"}) == {"c"} && StaticColumns(p.items, {"n"}) == ["c"];
    assert ScopeOf(p.items, true) == AggregateScope(false, {"c"}, {}, {"count(n)"});
    assert ScopeOf(p.items, false) == AggregateScope(false, {}, {}, {"count(n)"});
    assert Accepts(count, {"n"}) && Shaped(count, false) && Accepts(sum, {"c", "n"}) && Shaped(sum, false);
    hide Accepts, Shaped, HasAggregate, Output, StaticColumns, ScopeOf;
    assert ItemAccepted(p.items[0], p.items, {"n"});
    assert SortScope(p.order[0], p, {"n"}) == {"c", "n"};
    assert SortAccepted(p.order[0], p, {"n"});
    assert Plain(Absent, {}) && Plain(Absent, WhereScope(p, {"n"})) by { AbsentIsPlain({}); AbsentIsPlain(WhereScope(p, {"n"})); }
  }

  lemma AbsentIsPlain(scope: set<Name>)
    ensures Plain(Absent, scope)
  {
  }

  // ---- a star after a WITH ----

  /** After a WITH on at least one row, the columns of a star outnumber its values,
      and the projection runs off their end, exactly when some item is written
      differently from the name it passes on. */
  lemma StarAfterWith(p: Projection, scope: set<Name>, row: Row)
    requires Accepted(p, true, scope) && row.Keys == Output(p.items, scope)
    ensures var known := NameSet(StaticColumns(p.items, scope)) + RowsNames([row]);
            Mapped(Columns([Star], known, [row]), ValuesOf(row, SortedIds(row.Keys))) == Bad(Panic) <==> !Spelled(p.items, scope)
  {
    hide Accepted, Output, StaticColumns, SortedIds, Zip;
    var static_ := NameSet(StaticColumns(p.items, scope));
    var known := static_ + RowsNames([row]);
    assert RowsNames([row]) == row.Keys by { assert [row][1..] == []; }
    assert Columns([Star], known, [row]) == SortedIds(known + row.Keys) by { assert [Star][1..] == []; assert SortedIds(known + row.Keys) + [] == SortedIds(known + row.Keys); }
    assert known + row.Keys == static_ + row.Keys;
    SortedCount(static_ + row.Keys);
    SortedCount(row.Keys);
    if Spelled(p.items, scope) {
      StaticNames(p.items, p.items, scope);
      assert static_ + row.Keys == row.Keys;
    } else {
      var i :| 0 <= i < |p.items| && p.items[i].Item? && p.items[i].alias == "" && p.items[i].text !in Output(p.items, scope);
      TextIsColumn(p.items, scope, i);
      assert p.items[i].text in static_;
      SubsetSize(row.Keys + {p.items[i].text}, static_ + row.Keys);
    }
  }

  lemma {:induction false} SortedCount(s: set<Name>)
    ensures |SortedIds(s)| == |s|
    decreases |s|
  {
    if s != {} { SortedCount(s - {Least(s)}); }
  }

  lemma {:induction false} TextIsColumn(items: seq<Item>, scope: set<Name>, i: nat)
    requires i < |items| && items[i].Item? && items[i].alias == ""
    ensures items[i].text in StaticColumns(items, scope)
  {
    if i > 0 { TextIsColumn(items[1..], scope, i - 1); }
  }

  /** WITH (n) */
  function Parenthesized(): Projection {
    Projection(false, [Item(Var("n"), "", "(n)", "(n)")], Absent, [], Absent, Absent)
  }

  /** WITH (n) RETURN * is accepted, and runs off the end of its first row. */
  lemma ParenthesizedVariable(row: Row)
    requires row.Keys == {"n"}
    ensures Accepted(Parenthesized(), true, {"n"}) && Accepted(Projection(false, [Star], Absent, [], Absent, Absent), false, {"n"})
    ensures Output(Parenthesized().items, {"n"}) == {"n"}
    ensures var known := NameSet(StaticColumns(Parenthesized().items, {"n"})) + RowsNames([row]);
            Mapped(Columns([Star], known, [row]), ValuesOf(row, SortedIds(row.Keys))) == Bad(Panic)
  {
    ParenthesizedIsAccepted();
    hide Accepted, Columns, Mapped, StaticColumns, Output;
    StarAfterWith(Parenthesized(), {"n"}, row);
  }

  lemma ParenthesizedIsAccepted()
    ensures Accepted(Parenthesized(), true, {"n"}) && Accepted(Projection(false, [Star], Absent, [], Absent, Absent), false, {"n"})
    ensures Output(Parenthesized().items, {"n"}) == {"n"} && !Spelled(Parenthesized().items, {"n"})
  {
    var (items, star) := (Parenthesized().items, [Star]);
    assert items[1..] == [] && star[1..] == [];
    assert StaticColumns(items, {"n"}) == ["(n)"] && Output(items, {"n"}) == {"n"};
    SortedHolds({"n"});
    IncreasingNoDup(SortedIds({"n"}));
    assert StaticColumns(star, {"n"}) == SortedIds({"n"}) + [] == SortedIds({"n"});
    assert ItemAccepted(items[0], items, {"n"});
    hide StaticColumns, Output, SortedIds, Aggregates;
    AbsentIsPlain({});
    AbsentIsPlain(WhereScope(Parenthesized(), {"n"}));
    AbsentIsPlain(WhereScope(Projection(false, star, Absent, [], Absent, Absent), {"n"}));
  }

  // ---- aggregates over no rows ----

  /** percentileDisc(x, v) */
  function Percentile(name: string, x: Name, v: Name, key: string): Expr {
    Aggregate(name, [Var(x), Var(v)], key)
  }

  /** With no input row a percentile still reads its parameter, unchecked, from the
      row that represents the group, and so misses a variable exactly when that row
      has not got it. */
  lemma PercentileOfNothing(w: World, name: string, x: Name, v: Name, key: string, scope: set<Name>, row: Row)
    requires IsPercentile(name)
    ensures Accepts(Percentile(name, x, v, key), scope) <==> x in scope && v in scope
    ensures Shaped(Percentile(name, x, v, key), false) && Unchecked(Percentile(name, x, v, key)) == {v}
    ensures Eval(w, Percentile(name, x, v, key), row, Some([])) == Bad(Undefined(v)) <==> v !in row
  {
    var e := Percentile(name, x, v, key);
    PercentileIsAccepted(name, x, v, key, scope);
    hide Accepts, Shaped, Unchecked;
    assert Eval(w, e.args[1], row, None) == if v in row then Done(row[v]) else Bad(Undefined(v));
  }

  lemma PercentileIsAccepted(name: string, x: Name, v: Name, key: string, scope: set<Name>)
    requires IsPercentile(name)
    ensures Accepts(Percentile(name, x, v, key), scope) <==> x in scope && v in scope
    ensures Shaped(Percentile(name, x, v, key), false) && Unchecked(Percentile(name, x, v, key)) == {v}
  {
    var args := Percentile(name, x, v, key).args;
    assert args[1..] == [Var(v)] && args[1..][1..] == [];
    assert AcceptsAll(args[1..], scope) <==> v in scope;
    assert AcceptsAll(args, scope) <==> x in scope && v in scope;
    assert Shaped(Var(x), true) && Shaped(Var(v), true);
    assert AllShaped(args[1..][1..], true);
    assert AllShaped(args[1..], true);
    assert AllShaped(args, true);
    assert Reads(args[1]) == {v};
  }

  /** The first value in the map of a pattern's first node is a variable. */
  predicate MapStartsWith(p: Part, v: Name) {
    p.nodeMap.Apply? && p.nodeMap.args != [] && p.nodeMap.args[0] == Var(v)
  }

  /** Such a pattern, if it reads nothing else that its row has not got, misses the
      variable exactly when the row has not got it. */
  lemma MapMisses(w: World, p: Part, v: Name, row: Row)
    requires MapStartsWith(p, v) && PartReads(p) <= row.Keys + {v}
    ensures MatchPart(w, p, row) == Bad(Undefined(v)) <==> v !in row
  {
    if v in row {
      PartDefined(w, p, row);
    } else {
      assert Eval(w, Var(v), row, None) == Bad(Undefined(v));
      assert EvalArgs(w, p.nodeMap.op, p.nodeMap.args, [], row, None) == Bad(Undefined(v));
    }
  }

  /** [(a {x: n})-->() | 1] */
  function MapReadsN(): Expr {
    PatternComprehension(Part("", "a", Apply("map", [Var("n")]), [Hop("", Absent, Absent, Absent, "", Absent)]), Absent, Constant("1"))
  }

  /** The same of a pattern comprehension, for which over no rows the representative
      row has the aliases only. */
  lemma MapOverNothing(w: World, e: Expr, v: Name, row: Row)
    requires e.PatternComprehension? && MapStartsWith(e.part, v) && Reads(e) <= row.Keys + {v}
    ensures Eval(w, e, row, Some([])) == Bad(Undefined(v)) <==> v !in row
  {
    if v in row {
      EvalDefined(w, e, row, Some([]));
    } else {
      MapMisses(w, e.part, v, row);
    }
  }

  /** In the ORDER BY of RETURN count(n) AS c the maps of a pattern are not checked
      against the projection. */
  lemma MapOverNothingIsAccepted(w: World, row: Row)
    requires row.Keys == {"c"}
    ensures Accepts(MapReadsN(), {"c", "n"}) && Grouped(MapReadsN(), AggregateScope(false, {"c"}, {}, {"count(n)"}), false, false, {})
    ensures Eval(w, MapReadsN(), row, Some([])) == Bad(Undefined("n"))
  {
    var part := MapReadsN().part;
    MapIsAccepted();
    assert part.nodeMap.args[1..] == [] && part.hops[1..] == [];
    assert Reads(MapReadsN()) <= {"n"};
    MapOverNothing(w, MapReadsN(), "n", row);
  }

  lemma MapIsAccepted()
    ensures Accepts(MapReadsN(), {"c", "n"}) && Grouped(MapReadsN(), AggregateScope(false, {"c"}, {}, {"count(n)"}), false, false, {})
  {
    var part := MapReadsN().part;
    var inner := {"c", "n"} + PartNames(part);
    assert part.nodeMap.args[1..] == [] && part.hops[1..] == [];
    assert Plain(part.nodeMap, inner) && AcceptsHop(part.hops[0], inner);
    assert AcceptsPart(part, inner);
  }
}
