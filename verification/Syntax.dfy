/** The expressions, patterns and clauses of a read query, and the names they
    read and bind. */
module Syntax {

  /** Never empty, except where a name may be left out. */
  type Name = string

  /** An absent expression is a nil one.  Keys are source texts with spaces
      normalised.  Apply stands for every operator, list, map and scalar function.
      In the branches of a CASE conditions and results alternate. */
  datatype Expr =
    | Absent
    | Constant(text: string)
    | Variable(name: Name, key: string)
    | Property(base: Expr, property: string, key: string)
    | Apply(op: string, args: seq<Expr>)
    | Case(operand: Expr, branches: seq<Expr>, otherwise: Expr)
    | ListComprehension(variable: Name, list: Expr, where: Expr, projection: Expr)
    | Quantifier(op: string, variable: Name, list: Expr, where: Expr)
    | Reduce(accumulator: Name, initial: Expr, variable: Name, list: Expr, body: Expr)
    | Aggregate(name: string, args: seq<Expr>, key: string)
    | PatternComprehension(part: Part, where: Expr, projection: Expr)
    | PatternPredicate(part: Part)

  /** A path pattern: its first node, and hops over a relationship to a node. */
  datatype Part = Part(name: Name, nodeName: Name, nodeMap: Expr, hops: seq<Hop>)
  datatype Hop = Hop(relName: Name, lower: Expr, upper: Expr, edgeMap: Expr, nodeName: Name, nodeMap: Expr)

  datatype Item = Star | Item(expr: Expr, alias: Name, text: string, key: string)
  datatype Projection = Projection(distinct: bool, items: seq<Item>, where: Expr, order: seq<Sort>, skip: Expr, limit: Expr)
  datatype Sort = Sort(expr: Expr, key: string, descending: bool)

  datatype Clause =
    | Match(optional: bool, parts: seq<Part>, where: Expr)
    | Unwind(list: Expr, alias: Name)
    | With(projection: Projection)
    | Return(projection: Projection)

  // ---- names bound by patterns ----

  function Named(name: Name): set<Name> {
    if name == "" then {} else {name}
  }

  function HopNames(h: Hop): set<Name> {
    Named(h.relName) + Named(h.nodeName)
  }

  function HopsNames(hops: seq<Hop>): set<Name> {
    if hops == [] then {} else HopNames(hops[0]) + HopsNames(hops[1..])
  }

  /** The variables of the nodes and relationships. */
  function ElementNames(p: Part): set<Name> {
    Named(p.nodeName) + HopsNames(p.hops)
  }

  /** patternVariables. */
  function PartNames(p: Part): set<Name> {
    ElementNames(p) + Named(p.name)
  }

  function PartsNames(parts: seq<Part>): set<Name> {
    if parts == [] then {} else PartNames(parts[0]) + PartsNames(parts[1..])
  }

  // ---- aggregates ----

  /** The functions whose second argument is a parameter of the aggregate. */
  predicate IsPercentile(name: string) {
    name == "percentilecont" || name == "percentiledisc"
  }

  /** containsAggregate: the maps inside a pattern are not looked at. */
  predicate HasAggregate(e: Expr)
    decreases e
  {
    match e
    case Aggregate(_, _, _) => true
    case Property(base, _, _) => HasAggregate(base)
    case Apply(_, args) => AnyAggregate(args)
    case Case(operand, branches, otherwise) => HasAggregate(operand) || AnyAggregate(branches) || HasAggregate(otherwise)
    case ListComprehension(_, list, where, projection) => HasAggregate(list) || HasAggregate(where) || HasAggregate(projection)
    case Quantifier(_, _, list, where) => HasAggregate(list) || HasAggregate(where)
    case Reduce(_, initial, _, list, body) => HasAggregate(initial) || HasAggregate(list) || HasAggregate(body)
    case PatternComprehension(_, where, projection) => HasAggregate(where) || HasAggregate(projection)
    case _ => false
  }

  predicate AnyAggregate(args: seq<Expr>)
    decreases args
  {
    args != [] && (HasAggregate(args[0]) || AnyAggregate(args[1..]))
  }

  /** collectAggregateExpressionKeys. */
  function AggregateKeys(e: Expr): set<string>
    decreases e
  {
    match e
    case Property(base, _, _) => AggregateKeys(base)
    case Apply(_, args) => AllAggregateKeys(args)
    case Case(operand, branches, otherwise) => AggregateKeys(operand) + AllAggregateKeys(branches) + AggregateKeys(otherwise)
    case ListComprehension(_, list, where, projection) => AggregateKeys(list) + AggregateKeys(where) + AggregateKeys(projection)
    case Quantifier(_, _, list, where) => AggregateKeys(list) + AggregateKeys(where)
    case Reduce(_, initial, _, list, body) => AggregateKeys(initial) + AggregateKeys(list) + AggregateKeys(body)
    case Aggregate(_, args, key) => {key} + AllAggregateKeys(args)
    case PatternComprehension(p, where, projection) => AggregateKeys(p.nodeMap) + HopsAggregateKeys(p.hops) + AggregateKeys(where) + AggregateKeys(projection)
    case _ => {}
  }

  function AllAggregateKeys(args: seq<Expr>): set<string>
    decreases args
  {
    if args == [] then {} else AggregateKeys(args[0]) + AllAggregateKeys(args[1..])
  }

  function HopsAggregateKeys(hops: seq<Hop>): set<string>
    decreases hops
  {
    if hops == [] then {} else HopAggregateKeys(hops[0]) + HopsAggregateKeys(hops[1..])
  }

  function HopAggregateKeys(h: Hop): set<string>
    decreases h
  {
    AggregateKeys(h.lower) + AggregateKeys(h.upper) + AggregateKeys(h.edgeMap) + AggregateKeys(h.nodeMap)
  }

  // ---- names read ----

  /** The names an expression reads from the row it is evaluated on.  What stands
      inside an aggregate is read from the rows of the group instead. */
  function Reads(e: Expr): set<Name>
    decreases e
  {
    match e
    case Absent => {}
    case Constant(_) => {}
    case Variable(name, _) => {name}
    case Property(base, _, _) => Reads(base)
    case Apply(_, args) => AllReads(args)
    case Case(operand, branches, otherwise) => Reads(operand) + AllReads(branches) + Reads(otherwise)
    case ListComprehension(v, list, where, projection) => Reads(list) + (Reads(where) + Reads(projection) - {v})
    case Quantifier(_, v, list, where) => Reads(list) + (Reads(where) - {v})
    case Reduce(a, initial, v, list, body) => Reads(initial) + Reads(list) + (Reads(body) - {a, v})
    case Aggregate(name, args, _) => if IsPercentile(name) && |args| == 2 then Reads(args[1]) else {}
    case PatternComprehension(p, where, projection) => PartReads(p) + (Reads(where) + Reads(projection) - PartNames(p))
    case PatternPredicate(p) => PartReads(p)
  }

  function AllReads(args: seq<Expr>): set<Name>
    decreases args
  {
    if args == [] then {} else Reads(args[0]) + AllReads(args[1..])
  }

  /** A pattern is matched from left to right: each map reads what is bound before it. */
  function PartReads(p: Part): set<Name>
    decreases p
  {
    Reads(p.nodeMap) + HopsReads(p.hops, Named(p.nodeName))
  }

  function HopsReads(hops: seq<Hop>, bound: set<Name>): set<Name>
    decreases hops
  {
    if hops == [] then {} else (HopReads(hops[0]) - bound) + HopsReads(hops[1..], bound + HopNames(hops[0]))
  }

  function HopReads(h: Hop): set<Name>
    decreases h
  {
    Reads(h.lower) + Reads(h.upper) + Reads(h.edgeMap) + Reads(h.nodeMap)
  }

  function PartsReads(parts: seq<Part>): set<Name> {
    if parts == [] then {} else PartReads(parts[0]) + (PartsReads(parts[1..]) - PartNames(parts[0]))
  }

  /** The names an expression reads from the rows of its group. */
  function GroupReads(e: Expr): set<Name>
    decreases e
  {
    match e
    case Property(base, _, _) => GroupReads(base)
    case Apply(_, args) => AllGroupReads(args)
    case Case(operand, branches, otherwise) => GroupReads(operand) + AllGroupReads(branches) + GroupReads(otherwise)
    case ListComprehension(_, list, where, projection) => GroupReads(list) + GroupReads(where) + GroupReads(projection)
    case Quantifier(_, _, list, where) => GroupReads(list) + GroupReads(where)
    case Reduce(_, initial, _, list, body) => GroupReads(initial) + GroupReads(list) + GroupReads(body)
    case Aggregate(_, args, _) => if args == [] then {} else Reads(args[0])
    case PatternComprehension(_, where, projection) => GroupReads(where) + GroupReads(projection)
    case _ => {}
  }

  function AllGroupReads(args: seq<Expr>): set<Name>
    decreases args
  {
    if args == [] then {} else GroupReads(args[0]) + AllGroupReads(args[1..])
  }

  /** With no aggregate in it, an expression reads nothing from a group. */
  lemma {:induction false} NoGroupReads(e: Expr)
    requires !HasAggregate(e)
    ensures GroupReads(e) == {}
    decreases e
  {
    match e
    case Property(base, _, _) => NoGroupReads(base);
    case Apply(_, args) => NoGroupReadsAll(args);
    case Case(operand, branches, otherwise) => NoGroupReads(operand); NoGroupReadsAll(branches); NoGroupReads(otherwise);
    case ListComprehension(_, list, where, projection) => NoGroupReads(list); NoGroupReads(where); NoGroupReads(projection);
    case Quantifier(_, _, list, where) => NoGroupReads(list); NoGroupReads(where);
    case Reduce(_, initial, _, list, body) => NoGroupReads(initial); NoGroupReads(list); NoGroupReads(body);
    case PatternComprehension(_, where, projection) => NoGroupReads(where); NoGroupReads(projection);
    case _ =>
  }

  lemma {:induction false} NoGroupReadsAll(args: seq<Expr>)
    requires !AnyAggregate(args)
    ensures AllGroupReads(args) == {}
    decreases args
  {
    if args != [] {
      NoGroupReads(args[0]);
      NoGroupReadsAll(args[1..]);
    }
  }
}
