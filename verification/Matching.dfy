/** matchClauseRows and matchPattern: MATCH and OPTIONAL MATCH over a list of rows,
    as a function of the graph and as the program's loops. */
module Matching {
  import opened Base
  import opened Sorted
  import opened MatchGraph
  import opened Walks
  import opened Trails

  datatype Pattern = Pattern(variable: string, element: Element)
  datatype Clause = Clause(patterns: seq<Pattern>, optional: bool, where: Row -> bool)

  predicate WellFormedAll(patterns: seq<Pattern>) {
    forall i | 0 <= i < |patterns| :: WellFormed(patterns[i].element)
  }

  /** candidateNodes, as a linear filter: the bound node if there is one, or else
      the graph's nodes that pass, in ID order. */
  function Candidates(g: Graph, row: Row, pattern: NodePattern): seq<Id> {
    if pattern.variable != "" && pattern.variable in row then
      match row[pattern.variable]
      case NodeRef(n) => if pattern.test(row, n) then [n] else []
      case _ => []
    else SortedIds(set n | n in g.nodes && pattern.test(row, n))
  }

  /** Binding the path variable, row by row. */
  function BindPaths(kept: seq<Kept>, name: string): seq<Row> {
    if kept == [] then []
    else
      var last := kept[|kept| - 1];
      var bound := Bind(last.row, name, PathRef(last.path));
      BindPaths(kept[..|kept| - 1], name) + (if bound.Some? then [bound.value] else [])
  }

  ghost function FromCandidate(g: Graph, row: Row, p: Pattern, n: Id): seq<Row>
    requires WellFormed(p.element)
  {
    var next := Bind(row, p.element.nodes[0].variable, NodeRef(n));
    if next.None? then []
    else BindPaths(Keep(Continue(g, p.element, 0, next.value, Path([n], []), [])), p.variable)
  }

  ghost function FromCandidates(g: Graph, row: Row, p: Pattern, candidates: seq<Id>): seq<Row>
    requires WellFormed(p.element)
  {
    if candidates == [] then []
    else FromCandidates(g, row, p, candidates[..|candidates| - 1]) + FromCandidate(g, row, p, candidates[|candidates| - 1])
  }

  ghost function PatternRow(g: Graph, row: Row, p: Pattern): seq<Row>
    requires WellFormed(p.element)
  {
    FromCandidates(g, row, p, Candidates(g, row, p.element.nodes[0]))
  }

  ghost function PatternRows(g: Graph, rows: seq<Row>, p: Pattern): seq<Row>
    requires WellFormed(p.element)
  {
    if rows == [] then [] else PatternRows(g, rows[..|rows| - 1], p) + PatternRow(g, rows[|rows| - 1], p)
  }

  ghost function PatternsRows(g: Graph, rows: seq<Row>, patterns: seq<Pattern>): seq<Row>
    requires WellFormedAll(patterns)
    decreases |patterns|
  {
    if patterns == [] then rows else PatternsRows(g, PatternRows(g, rows, patterns[0]), patterns[1..])
  }

  function FilterRows(rows: seq<Row>, where: Row -> bool): seq<Row> {
    if rows == [] then []
    else FilterRows(rows[..|rows| - 1], where) + (if where(rows[|rows| - 1]) then [rows[|rows| - 1]] else [])
  }

  function ElementNames(el: Element): set<string> {
    (set i | 0 <= i < |el.nodes| :: el.nodes[i].variable) + (set i | 0 <= i < |el.rels| :: el.rels[i].variable)
  }

  function Introduced(patterns: seq<Pattern>): set<string> {
    if patterns == [] then {} else ({patterns[0].variable} + ElementNames(patterns[0].element) - {""}) + Introduced(patterns[1..])
  }

  /** The row of an OPTIONAL MATCH without a match. */
  function Fill(row: Row, names: set<string>): Row {
    map name | name in row.Keys + names :: if name in row then row[name] else Null
  }

  ghost function ClauseRow(g: Graph, row: Row, c: Clause): seq<Row>
    requires WellFormedAll(c.patterns)
  {
    var matches := FilterRows(PatternsRows(g, [row], c.patterns), c.where);
    if matches == [] && c.optional then [Fill(row, Introduced(c.patterns))] else matches
  }

  ghost function ClauseRows(g: Graph, rows: seq<Row>, c: Clause): seq<Row>
    requires WellFormedAll(c.patterns)
  {
    if rows == [] then [] else ClauseRows(g, rows[..|rows| - 1], c) + ClauseRow(g, rows[|rows| - 1], c)
  }

  // ---- the program ----

  lemma PatternsRowsOfNone(g: Graph, patterns: seq<Pattern>)
    requires WellFormedAll(patterns)
    ensures PatternsRows(g, [], patterns) == []
  {
  }

  method BindPathRows(kept: seq<Kept>, name: string) returns (rows: seq<Row>)
    ensures rows == BindPaths(kept, name)
  {
    rows := [];
    for i := 0 to |kept|
      invariant rows == BindPaths(kept[..i], name)
    {
      assert kept[..i + 1][..i] == kept[..i];
      var bound := Bind(kept[i].row, name, PathRef(kept[i].path));
      if bound.Some? { rows := rows + [bound.value]; }
    }
    assert kept[..|kept|] == kept;
  }

  method MatchRow(g: Graph, row: Row, p: Pattern) returns (rows: seq<Row>)
    requires WellFormed(p.element)
    ensures rows == PatternRow(g, row, p)
  {
    hide Continue, Keep, Candidates;
    rows := [];
    var candidates := Candidates(g, row, p.element.nodes[0]);
    for i := 0 to |candidates|
      invariant rows == FromCandidates(g, row, p, candidates[..i])
    {
      assert candidates[..i + 1][..i] == candidates[..i];
      var next := Bind(row, p.element.nodes[0].variable, NodeRef(candidates[i]));
      if next.None? { continue; }
      var kept := ExtendPattern(g, p.element, 0, next.value, Path([candidates[i]], []), []);
      var found := BindPathRows(kept, p.variable);
      rows := rows + found;
    }
    assert candidates[..|candidates|] == candidates;
  }

  method MatchPattern(g: Graph, input: seq<Row>, p: Pattern) returns (rows: seq<Row>)
    requires WellFormed(p.element)
    ensures rows == PatternRows(g, input, p)
  {
    rows := [];
    for i := 0 to |input|
      invariant rows == PatternRows(g, input[..i], p)
    {
      assert input[..i + 1][..i] == input[..i];
      var found := MatchRow(g, input[i], p);
      rows := rows + found;
    }
    assert input[..|input|] == input;
  }

  method MatchClauseRow(g: Graph, row: Row, c: Clause) returns (rows: seq<Row>)
    requires WellFormedAll(c.patterns)
    ensures rows == ClauseRow(g, row, c)
  {
    hide PatternRows;
    rows := [row];
    var i := 0;
    while i < |c.patterns|
      invariant i <= |c.patterns|
      invariant PatternsRows(g, [row], c.patterns) == PatternsRows(g, rows, c.patterns[i..])
    {
      rows := MatchPattern(g, rows, c.patterns[i]);
      i := i + 1;
      if rows == [] {
        PatternsRowsOfNone(g, c.patterns[i..]);
        break;
      }
    }
    assert rows == PatternsRows(g, [row], c.patterns);
    rows := FilterRows(rows, c.where);
    if rows == [] && c.optional { rows := [Fill(row, Introduced(c.patterns))]; }
  }

  method MatchClauseRows(g: Graph, input: seq<Row>, c: Clause) returns (rows: seq<Row>)
    requires WellFormedAll(c.patterns)
    ensures rows == ClauseRows(g, input, c)
  {
    rows := [];
    for i := 0 to |input|
      invariant rows == ClauseRows(g, input[..i], c)
    {
      assert input[..i + 1][..i] == input[..i];
      var found := MatchClauseRow(g, input[i], c);
      rows := rows + found;
    }
    assert input[..|input|] == input;
  }
}
