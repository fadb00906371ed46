/** The static checks on names: which variables an expression may use, where
    aggregates may stand, and what an aggregating projection may refer to. */
module ScopeCheck {
  import opened Syntax

  // ---- variables ----

  /** validateExpression, as far as names go. */
  predicate Accepts(e: Expr, scope: set<Name>)
    decreases e, 0
  {
    match e
    case Absent => true
    case Constant(_) => true
    case Variable(name, _) => name in scope
    case Property(base, _, _) => Accepts(base, scope)
    case Apply(_, args) => AcceptsAll(args, scope)
    case Case(operand, branches, otherwise) => Accepts(operand, scope) && AcceptsAll(branches, scope) && Accepts(otherwise, scope)
    case ListComprehension(v, list, where, projection) =>
      Accepts(list, scope) && Accepts(where, scope + {v}) && Accepts(projection, scope + {v})
    case Quantifier(_, v, list, where) => Accepts(list, scope) && Accepts(where, scope + {v})
    case Reduce(a, initial, v, list, body) => Accepts(initial, scope) && Accepts(list, scope) && Accepts(body, scope + {a, v})
    case Aggregate(_, args, _) => AcceptsAll(args, scope)
    case PatternComprehension(p, where, projection) =>
      && p.hops != []
      && Fresh(p, scope)
      && AcceptsPart(p, scope + PartNames(p))
      && Accepts(where, scope + PartNames(p)) && !HasAggregate(where)
      && Accepts(projection, scope + PartNames(p)) && !HasAggregate(projection)
    case PatternPredicate(p) => p.hops != [] && ElementNames(p) <= scope && AcceptsPart(p, scope)
  }

  predicate AcceptsAll(args: seq<Expr>, scope: set<Name>)
    decreases args
  {
    args == [] || (Accepts(args[0], scope) && AcceptsAll(args[1..], scope))
  }

  /** bindPatternVariables: a path variable is new. */
  predicate Fresh(p: Part, scope: set<Name>) {
    p.name == "" || p.name !in scope + ElementNames(p)
  }

  /** validatePatterns: maps and bounds are checked with every variable in scope. */
  predicate AcceptsPart(p: Part, scope: set<Name>)
    decreases p
  {
    Plain(p.nodeMap, scope) && AcceptsHops(p.hops, scope)
  }

  predicate AcceptsHops(hops: seq<Hop>, scope: set<Name>)
    decreases hops
  {
    hops == [] || (AcceptsHop(hops[0], scope) && AcceptsHops(hops[1..], scope))
  }

  predicate AcceptsHop(h: Hop, scope: set<Name>)
    decreases h
  {
    Plain(h.lower, scope) && Plain(h.upper, scope) && Plain(h.edgeMap, scope) && Plain(h.nodeMap, scope)
  }

  /** validateNonAggregateExpression. */
  predicate Plain(e: Expr, scope: set<Name>)
    decreases e, 1
  {
    Accepts(e, scope) && !HasAggregate(e)
  }

  // ---- where aggregates may stand ----

  /** validateAggregateShape: not in each other, and not in the body of a loop. */
  predicate Shaped(e: Expr, inside: bool)
    decreases e
  {
    match e
    case Property(base, _, _) => Shaped(base, inside)
    case Apply(_, args) => AllShaped(args, inside)
    case Case(operand, branches, otherwise) => Shaped(operand, inside) && AllShaped(branches, inside) && Shaped(otherwise, inside)
    case ListComprehension(_, list, where, projection) =>
      Shaped(list, inside) && !HasAggregate(where) && Shaped(where, inside) && !HasAggregate(projection) && Shaped(projection, inside)
    case Quantifier(_, _, list, where) => Shaped(list, inside) && !HasAggregate(where) && Shaped(where, inside)
    case Reduce(_, initial, _, list, body) => Shaped(initial, inside) && Shaped(list, inside) && !HasAggregate(body) && Shaped(body, inside)
    case Aggregate(_, args, _) => !inside && AllShaped(args, true)
    case PatternComprehension(_, where, projection) =>
      !HasAggregate(where) && Shaped(where, inside) && !HasAggregate(projection) && Shaped(projection, inside)
    case _ => true
  }

  predicate AllShaped(args: seq<Expr>, inside: bool)
    decreases args
  {
    args == [] || (Shaped(args[0], inside) && AllShaped(args[1..], inside))
  }

  // ---- patterns that read from left to right ----

  /** Every pattern inside an expression reads in its maps and bounds only what is
      in scope around it or bound earlier in the pattern.  This is not checked. */
  predicate InOrder(e: Expr, scope: set<Name>)
    decreases e
  {
    match e
    case Property(base, _, _) => InOrder(base, scope)
    case Apply(_, args) => AllInOrder(args, scope)
    case Case(operand, branches, otherwise) => InOrder(operand, scope) && AllInOrder(branches, scope) && InOrder(otherwise, scope)
    case ListComprehension(v, list, where, projection) =>
      InOrder(list, scope) && InOrder(where, scope + {v}) && InOrder(projection, scope + {v})
    case Quantifier(_, v, list, where) => InOrder(list, scope) && InOrder(where, scope + {v})
    case Reduce(a, initial, v, list, body) => InOrder(initial, scope) && InOrder(list, scope) && InOrder(body, scope + {a, v})
    case Aggregate(_, args, _) => AllInOrder(args, scope)
    case PatternComprehension(p, where, projection) =>
      && PartInOrder(p, scope + PartNames(p), PartNames(p) - scope, {})
      && InOrder(where, scope + PartNames(p)) && InOrder(projection, scope + PartNames(p))
    case PatternPredicate(p) => PartInOrder(p, scope, {}, {})
    case _ => true
  }

  predicate AllInOrder(args: seq<Expr>, scope: set<Name>)
    decreases args
  {
    args == [] || (InOrder(args[0], scope) && AllInOrder(args[1..], scope))
  }

  /** Of the names the pattern binds, each map reads only those already bound. */
  predicate PartInOrder(p: Part, scope: set<Name>, binds: set<Name>, bound: set<Name>)
    decreases p
  {
    && InOrder(p.nodeMap, scope) && Reads(p.nodeMap) * binds <= bound
    && HopsInOrder(p.hops, scope, binds, bound + Named(p.nodeName))
  }

  predicate HopsInOrder(hops: seq<Hop>, scope: set<Name>, binds: set<Name>, bound: set<Name>)
    decreases hops
  {
    hops == [] ||
    (HopInOrder(hops[0], scope) && HopReads(hops[0]) * binds <= bound && HopsInOrder(hops[1..], scope, binds, bound + HopNames(hops[0])))
  }

  predicate HopInOrder(h: Hop, scope: set<Name>)
    decreases h
  {
    InOrder(h.lower, scope) && InOrder(h.upper, scope) && InOrder(h.edgeMap, scope) && InOrder(h.nodeMap, scope)
  }

  predicate PartsInOrder(parts: seq<Part>, scope: set<Name>, binds: set<Name>, bound: set<Name>) {
    parts == [] ||
    (PartInOrder(parts[0], scope, binds, bound) && PartsInOrder(parts[1..], scope, binds, bound + PartNames(parts[0])))
  }

  /** An accepted expression reads only what is in scope. */
  lemma {:induction false} AcceptedReads(e: Expr, scope: set<Name>)
    requires Accepts(e, scope) && InOrder(e, scope)
    ensures Reads(e) <= scope
    decreases e, 1
  {
    hide AllReads, PartReads, AcceptsAll, AcceptsPart, AllInOrder, PartInOrder, PartNames, ElementNames, HasAggregate;
    match e
    case Property(base, _, _) => AcceptedReads(base, scope);
    case Apply(_, args) => AcceptedAll(args, scope);
    case Case(operand, branches, otherwise) => AcceptedReads(operand, scope); AcceptedAll(branches, scope); AcceptedReads(otherwise, scope);
    case ListComprehension(v, list, where, projection) =>
      AcceptedReads(list, scope); AcceptedReads(where, scope + {v}); AcceptedReads(projection, scope + {v});
    case Quantifier(_, v, list, where) => AcceptedReads(list, scope); AcceptedReads(where, scope + {v});
    case Reduce(a, initial, v, list, body) => AcceptedReads(initial, scope); AcceptedReads(list, scope); AcceptedReads(body, scope + {a, v});
    case Aggregate(name, args, _) =>
      if |args| == 2 { SecondAccepted(args, scope); AcceptedReads(args[1], scope); }
    case PatternComprehension(p, where, projection) =>
      AcceptedPart(p, scope + PartNames(p), scope, PartNames(p) - scope, {});
      AcceptedReads(where, scope + PartNames(p));
      AcceptedReads(projection, scope + PartNames(p));
    case PatternPredicate(p) => AcceptedPart(p, scope, scope, {}, {});
    case _ =>
  }

  lemma SecondAccepted(args: seq<Expr>, scope: set<Name>)
    requires |args| == 2 && AcceptsAll(args, scope) && AllInOrder(args, scope)
    ensures Accepts(args[1], scope) && InOrder(args[1], scope)
  {
    assert args[1..][0] == args[1];
  }

  lemma {:induction false} AcceptedAll(args: seq<Expr>, scope: set<Name>)
    requires AcceptsAll(args, scope) && AllInOrder(args, scope)
    ensures AllReads(args) <= scope
    decreases args, 1
  {
    if args != [] {
      AcceptedReads(args[0], scope);
      AcceptedAll(args[1..], scope);
    }
  }

  /** With everything a pattern binds in scope, in order, it reads only what is
      around it: `outer`, and what earlier parts have bound. */
  lemma {:induction false} AcceptedPart(p: Part, scope: set<Name>, outer: set<Name>, binds: set<Name>, bound: set<Name>)
    requires AcceptsPart(p, scope) && PartInOrder(p, scope, binds, bound) && scope <= outer + binds
    ensures PartReads(p) <= outer + bound
    decreases p, 1
  {
    hide Reads, Accepts, InOrder, HasAggregate, HopsReads, AcceptsHops, HopsInOrder;
    AcceptedReads(p.nodeMap, scope);
    AcceptedHops(p.hops, scope, outer, binds, bound + Named(p.nodeName), Named(p.nodeName));
  }

  lemma HopParts(h: Hop, scope: set<Name>)
    requires AcceptsHop(h, scope) && HopInOrder(h, scope)
    ensures Accepts(h.lower, scope) && Accepts(h.upper, scope) && Accepts(h.edgeMap, scope) && Accepts(h.nodeMap, scope)
    ensures InOrder(h.lower, scope) && InOrder(h.upper, scope) && InOrder(h.edgeMap, scope) && InOrder(h.nodeMap, scope)
  {
  }

  lemma {:induction false} AcceptedHops(hops: seq<Hop>, scope: set<Name>, outer: set<Name>, binds: set<Name>,
          bound: set<Name>, here: set<Name>)
    requires AcceptsHops(hops, scope) && HopsInOrder(hops, scope, binds, bound) && scope <= outer + binds && here <= bound
    ensures HopsReads(hops, here) <= outer + (bound - here)
    decreases hops, 1
  {
    hide Reads, Accepts, InOrder, HasAggregate, HopNames;
    if hops != [] {
      var h := hops[0];
      HopParts(h, scope);
      AcceptedReads(h.lower, scope);
      AcceptedReads(h.upper, scope);
      AcceptedReads(h.edgeMap, scope);
      AcceptedReads(h.nodeMap, scope);
      assert HopReads(h) <= scope;
      AcceptedHops(hops[1..], scope, outer, binds, bound + HopNames(h), here + HopNames(h));
    }
  }

  /** And so does what it reads from its group. */
  lemma {:induction false} AcceptedGroupReads(e: Expr, scope: set<Name>)
    requires Accepts(e, scope) && InOrder(e, scope) && Shaped(e, false)
    ensures GroupReads(e) <= scope
    decreases e, 1
  {
    match e
    case Property(base, _, _) => AcceptedGroupReads(base, scope);
    case Apply(_, args) => AcceptedGroupAll(args, scope);
    case Case(operand, branches, otherwise) => AcceptedGroupReads(operand, scope); AcceptedGroupAll(branches, scope); AcceptedGroupReads(otherwise, scope);
    case ListComprehension(v, list, where, projection) => AcceptedGroupReads(list, scope); NoGroupReads(where); NoGroupReads(projection);
    case Quantifier(_, v, list, where) => AcceptedGroupReads(list, scope); NoGroupReads(where);
    case Reduce(a, initial, v, list, body) => AcceptedGroupReads(initial, scope); AcceptedGroupReads(list, scope); NoGroupReads(body);
    case Aggregate(name, args, _) => if args != [] { AcceptedReads(args[0], scope); }
    case PatternComprehension(p, where, projection) => NoGroupReads(where); NoGroupReads(projection);
    case _ =>
  }

  lemma {:induction false} AcceptedGroupAll(args: seq<Expr>, scope: set<Name>)
    requires AcceptsAll(args, scope) && AllInOrder(args, scope) && AllShaped(args, false)
    ensures AllGroupReads(args) <= scope
    decreases args, 1
  {
    if args != [] {
      AcceptedGroupReads(args[0], scope);
      AcceptedGroupAll(args[1..], scope);
    }
  }

  // ---- what is rejected ----

  /** No pattern, and every aggregate reads all its arguments. */
  predicate Simple(e: Expr)
    decreases e
  {
    match e
    case Property(base, _, _) => Simple(base)
    case Apply(_, args) => AllSimple(args)
    case Case(operand, branches, otherwise) => Simple(operand) && AllSimple(branches) && Simple(otherwise)
    case ListComprehension(_, list, where, projection) => Simple(list) && Simple(where) && Simple(projection)
    case Quantifier(_, _, list, where) => Simple(list) && Simple(where)
    case Reduce(_, initial, _, list, body) => Simple(initial) && Simple(list) && Simple(body)
    case Aggregate(name, args, _) => AllSimple(args) && (|args| <= 1 || (|args| == 2 && IsPercentile(name)))
    case PatternComprehension(_, _, _) => false
    case PatternPredicate(_) => false
    case _ => true
  }

  predicate AllSimple(args: seq<Expr>)
    decreases args
  {
    args == [] || (Simple(args[0]) && AllSimple(args[1..]))
  }

  /** Inside an aggregate there is no other. */
  lemma {:induction false} NoneInside(e: Expr)
    requires Simple(e) && Shaped(e, true)
    ensures !HasAggregate(e)
    decreases e
  {
    match e
    case Property(base, _, _) => NoneInside(base);
    case Apply(_, args) => NoneInsideAll(args);
    case Case(operand, branches, otherwise) => NoneInside(operand); NoneInsideAll(branches); NoneInside(otherwise);
    case ListComprehension(_, list, where, projection) => NoneInside(list);
    case Quantifier(_, _, list, where) => NoneInside(list);
    case Reduce(_, initial, _, list, body) => NoneInside(initial); NoneInside(list);
    case _ =>
  }

  lemma {:induction false} NoneInsideAll(args: seq<Expr>)
    requires AllSimple(args) && AllShaped(args, true)
    ensures !AnyAggregate(args)
    decreases args
  {
    if args != [] {
      NoneInside(args[0]);
      NoneInsideAll(args[1..]);
    }
  }

  /** Without patterns an expression is accepted exactly if all that it reads, from its row
      and from its group, is in scope. */
  lemma {:induction false} AcceptedIff(e: Expr, scope: set<Name>, inside: bool)
    requires Simple(e) && Shaped(e, inside)
    ensures Accepts(e, scope) <==> Reads(e) + GroupReads(e) <= scope
    decreases e, 1
  {
    hide AcceptsAll, AllReads, AllGroupReads, AllSimple, AllShaped, AnyAggregate;
    match e
    case Property(base, _, _) => AcceptedIff(base, scope, inside);
    case Apply(_, args) => AcceptedAllIff(args, scope, inside);
    case Case(operand, branches, otherwise) => AcceptedIff(operand, scope, inside); AcceptedAllIff(branches, scope, inside); AcceptedIff(otherwise, scope, inside);
    case ListComprehension(v, list, where, projection) =>
      AcceptedIff(list, scope, inside);
      AcceptedBody(where, scope, {v}, inside);
      AcceptedBody(projection, scope, {v}, inside);
    case Quantifier(_, v, list, where) => AcceptedIff(list, scope, inside); AcceptedBody(where, scope, {v}, inside);
    case Reduce(a, initial, v, list, body) => AcceptedIff(initial, scope, inside); AcceptedIff(list, scope, inside); AcceptedBody(body, scope, {a, v}, inside);
    case Aggregate(_, _, _) => AcceptedArguments(e, scope);
    case _ =>
  }

  /** The body of a loop also sees its variables. */
  lemma {:induction false} AcceptedBody(e: Expr, scope: set<Name>, own: set<Name>, inside: bool)
    requires Simple(e) && Shaped(e, inside) && !HasAggregate(e)
    ensures GroupReads(e) == {} && (Accepts(e, scope + own) <==> Reads(e) - own <= scope)
    decreases e, 2
  {
    AcceptedIff(e, scope + own, inside);
    NoGroupReads(e);
  }

  lemma {:induction false} AcceptedAllIff(args: seq<Expr>, scope: set<Name>, inside: bool)
    requires AllSimple(args) && AllShaped(args, inside)
    ensures AcceptsAll(args, scope) <==> AllReads(args) + AllGroupReads(args) <= scope
    decreases args, 1
  {
    if args != [] {
      AcceptedIff(args[0], scope, inside);
      AcceptedAllIff(args[1..], scope, inside);
    }
  }

  lemma {:induction false} AcceptedArguments(e: Expr, scope: set<Name>)
    requires e.Aggregate? && Simple(e) && Shaped(e, false)
    ensures Accepts(e, scope) <==> Reads(e) + GroupReads(e) <= scope
    decreases e, 0
  {
    var args := e.args;
    assert |args| <= 2 && AllSimple(args) && AllShaped(args, true);
    ArgumentParts(args, scope);
    forall i | 0 <= i < |args| ensures GroupReads(args[i]) == {} && (Accepts(args[i], scope) <==> Reads(args[i]) <= scope) {
      AcceptedIff(args[i], scope, true);
      NoneInside(args[i]);
      NoGroupReads(args[i]);
    }
    hide AcceptsAll, AllSimple, AllShaped;
  }

  lemma ArgumentParts(args: seq<Expr>, scope: set<Name>)
    requires |args| <= 2 && AllSimple(args) && AllShaped(args, true)
    ensures forall i | 0 <= i < |args| :: Simple(args[i]) && Shaped(args[i], true)
    ensures AcceptsAll(args, scope) <==> forall i | 0 <= i < |args| :: Accepts(args[i], scope)
  {
    hide Simple, Shaped, Accepts;
    if |args| == 2 {
      assert args[1..][0] == args[1] && args[1..][1..] == [];
    }
  }

  lemma {:induction false} NothingToPlace(e: Expr, inside: bool)
    requires !HasAggregate(e)
    ensures Shaped(e, inside)
    decreases e
  {
    match e
    case Property(base, _, _) => NothingToPlace(base, inside);
    case Apply(_, args) => NothingToPlaceAll(args, inside);
    case Case(operand, branches, otherwise) => NothingToPlace(operand, inside); NothingToPlaceAll(branches, inside); NothingToPlace(otherwise, inside);
    case ListComprehension(_, list, where, projection) => NothingToPlace(list, inside); NothingToPlace(where, inside); NothingToPlace(projection, inside);
    case Quantifier(_, _, list, where) => NothingToPlace(list, inside); NothingToPlace(where, inside);
    case Reduce(_, initial, _, list, body) => NothingToPlace(initial, inside); NothingToPlace(list, inside); NothingToPlace(body, inside);
    case PatternComprehension(_, where, projection) => NothingToPlace(where, inside); NothingToPlace(projection, inside);
    case _ =>
  }

  lemma {:induction false} NothingToPlaceAll(args: seq<Expr>, inside: bool)
    requires !AnyAggregate(args)
    ensures AllShaped(args, inside)
    decreases args
  {
    if args != [] {
      NothingToPlace(args[0], inside);
      NothingToPlaceAll(args[1..], inside);
    }
  }

  /** Where no aggregate may stand, as in WHERE, UNWIND and the maps of a pattern. */
  lemma PlainIff(e: Expr, scope: set<Name>)
    requires Simple(e)
    ensures Plain(e, scope) <==> !HasAggregate(e) && Reads(e) <= scope
  {
    hide Accepts, Reads, HasAggregate, Shaped, GroupReads, Simple;
    if !HasAggregate(e) {
      NothingToPlace(e, false);
      AcceptedIff(e, scope, false);
      NoGroupReads(e);
    }
  }

  /** An aggregate may stand wherever it is in no other one and has none in its arguments. */
  lemma AggregatePlacedIff(name: string, args: seq<Expr>, key: string, inside: bool)
    requires AllSimple(args)
    ensures Shaped(Aggregate(name, args, key), inside) <==> !inside && !AnyAggregate(args)
  {
    hide AllShaped, AnyAggregate, AllSimple;
    if AllShaped(args, true) { NoneInsideAll(args); }
    if !AnyAggregate(args) { NothingToPlaceAll(args, true); }
  }

  // ---- aggregating projections ----

  /** aggregateOrderScope: what may be referred to next to an aggregate. */
  datatype AggregateScope = AggregateScope(star: bool, aliases: set<Name>, atoms: set<string>, aggregates: set<string>)

  /** validateAggregateExpressionPart. */
  predicate Grouped(e: Expr, scope: AggregateScope, inside: bool, projection: bool, locals: set<Name>)
    decreases e
  {
    match e
    case Absent => true
    case Constant(_) => true
    case Variable(name, key) => name in locals || scope.star || name in scope.aliases || key in scope.atoms
    case Property(base, _, key) =>
      scope.star || key in scope.atoms
      || (if base.Variable? then base.name in locals else Grouped(base, scope, inside, projection, locals))
    case Apply(_, args) => AllGrouped(args, scope, inside, projection, locals)
    case Case(operand, branches, otherwise) =>
      && Grouped(operand, scope, inside, projection, locals)
      && Grouped(otherwise, scope, inside, projection, locals)
      && AllGrouped(branches, scope, inside, projection, locals)
    case ListComprehension(v, list, where, body) =>
      && Grouped(list, scope, inside, projection, locals)
      && Grouped(where, scope, inside, projection, locals + {v})
      && Grouped(body, scope, inside, projection, locals + {v})
    case Quantifier(_, v, list, where) =>
      Grouped(list, scope, inside, projection, locals) && Grouped(where, scope, inside, projection, locals + {v})
    case Reduce(a, initial, v, list, body) =>
      && Grouped(initial, scope, inside, projection, locals)
      && Grouped(list, scope, inside, projection, locals)
      && Grouped(body, scope, inside, projection, locals + {a, v})
    case Aggregate(_, args, key) => key in scope.aggregates || AllGrouped(args, scope, true, projection, locals)
    case PatternComprehension(p, where, body) =>
      && (!projection || inside)
      && Grouped(where, scope, inside, projection, locals + PartNames(p))
      && Grouped(body, scope, inside, projection, locals + PartNames(p))
    case PatternPredicate(_) => !projection || inside
  }

  predicate AllGrouped(args: seq<Expr>, scope: AggregateScope, inside: bool, projection: bool, locals: set<Name>)
    decreases args
  {
    args == [] || (Grouped(args[0], scope, inside, projection, locals) && AllGrouped(args[1..], scope, inside, projection, locals))
  }

  /** The reads that check does not look at: in the maps of patterns, and in the
      parameters of percentiles. */
  function Unchecked(e: Expr): set<Name>
    decreases e
  {
    match e
    case Property(base, _, _) => Unchecked(base)
    case Apply(_, args) => AllUnchecked(args)
    case Case(operand, branches, otherwise) => Unchecked(operand) + AllUnchecked(branches) + Unchecked(otherwise)
    case ListComprehension(v, list, where, projection) => Unchecked(list) + (Unchecked(where) + Unchecked(projection) - {v})
    case Quantifier(_, v, list, where) => Unchecked(list) + (Unchecked(where) - {v})
    case Reduce(a, initial, v, list, body) => Unchecked(initial) + Unchecked(list) + (Unchecked(body) - {a, v})
    case Aggregate(_, _, _) => Reads(e)
    case PatternComprehension(p, where, projection) => PartReads(p) + (Unchecked(where) + Unchecked(projection) - PartNames(p))
    case PatternPredicate(p) => PartReads(p)
    case _ => {}
  }

  function AllUnchecked(args: seq<Expr>): set<Name>
    decreases args
  {
    if args == [] then {} else Unchecked(args[0]) + AllUnchecked(args[1..])
  }

  /** With no grouping key, an expression beside an aggregate reads aliases only. */
  lemma {:induction false} GroupedReads(e: Expr, scope: AggregateScope, inside: bool, projection: bool, locals: set<Name>)
    requires Grouped(e, scope, inside, projection, locals) && !scope.star && scope.atoms == {}
    ensures Reads(e) <= scope.aliases + locals + Unchecked(e)
    decreases e
  {
    hide PartReads, PartNames;
    match e
    case Property(base, _, _) =>
      if !base.Variable? { GroupedReads(base, scope, inside, projection, locals); }
    case Apply(_, args) => GroupedReadsAll(args, scope, inside, projection, locals);
    case Case(operand, branches, otherwise) =>
      GroupedReads(operand, scope, inside, projection, locals);
      GroupedReads(otherwise, scope, inside, projection, locals);
      GroupedReadsAll(branches, scope, inside, projection, locals);
    case ListComprehension(v, list, where, body) =>
      GroupedReads(list, scope, inside, projection, locals);
      GroupedReads(where, scope, inside, projection, locals + {v});
      GroupedReads(body, scope, inside, projection, locals + {v});
    case Quantifier(_, v, list, where) =>
      GroupedReads(list, scope, inside, projection, locals);
      GroupedReads(where, scope, inside, projection, locals + {v});
    case Reduce(a, initial, v, list, body) =>
      GroupedReads(initial, scope, inside, projection, locals);
      GroupedReads(list, scope, inside, projection, locals);
      GroupedReads(body, scope, inside, projection, locals + {a, v});
    case PatternComprehension(p, where, body) =>
      GroupedReads(where, scope, inside, projection, locals + PartNames(p));
      GroupedReads(body, scope, inside, projection, locals + PartNames(p));
    case _ =>
  }

  lemma {:induction false} GroupedReadsAll(args: seq<Expr>, scope: AggregateScope, inside: bool, projection: bool,
          locals: set<Name>)
    requires AllGrouped(args, scope, inside, projection, locals) && !scope.star && scope.atoms == {}
    ensures AllReads(args) <= scope.aliases + locals + AllUnchecked(args)
    decreases args
  {
    if args != [] {
      GroupedReads(args[0], scope, inside, projection, locals);
      GroupedReadsAll(args[1..], scope, inside, projection, locals);
    }
  }

  // ---- what is rejected beside an aggregate ----

  /** No property is read straight off a variable. */
  predicate NoFields(e: Expr)
    decreases e
  {
    match e
    case Property(base, _, _) => !base.Variable? && NoFields(base)
    case Apply(_, args) => AllNoFields(args)
    case Case(operand, branches, otherwise) => NoFields(operand) && AllNoFields(branches) && NoFields(otherwise)
    case ListComprehension(_, list, where, projection) => NoFields(list) && NoFields(where) && NoFields(projection)
    case Quantifier(_, _, list, where) => NoFields(list) && NoFields(where)
    case Reduce(_, initial, _, list, body) => NoFields(initial) && NoFields(list) && NoFields(body)
    case _ => true
  }

  predicate AllNoFields(args: seq<Expr>)
    decreases args
  {
    args == [] || (NoFields(args[0]) && AllNoFields(args[1..]))
  }

  /** With no grouping key, what is beside an aggregate is accepted exactly if it reads
      aliases only, and its own loop variables; a star admits everything. */
  lemma {:induction false} GroupedIff(e: Expr, scope: AggregateScope, inside: bool, projection: bool, locals: set<Name>)
    requires Simple(e) && NoFields(e) && !HasAggregate(e) && scope.atoms == {}
    ensures Grouped(e, scope, inside, projection, locals) <==> scope.star || Reads(e) <= scope.aliases + locals
    decreases e, 0
  {
    hide AllGrouped, AllReads, AllSimple, AllNoFields, AnyAggregate;
    match e
    case Property(base, _, _) => GroupedIff(base, scope, inside, projection, locals);
    case Apply(_, args) => GroupedAllIff(args, scope, inside, projection, locals);
    case Case(operand, branches, otherwise) =>
      GroupedIff(operand, scope, inside, projection, locals);
      GroupedAllIff(branches, scope, inside, projection, locals);
      GroupedIff(otherwise, scope, inside, projection, locals);
    case ListComprehension(v, list, where, body) =>
      GroupedIff(list, scope, inside, projection, locals);
      GroupedBody(where, scope, inside, projection, locals, {v});
      GroupedBody(body, scope, inside, projection, locals, {v});
    case Quantifier(_, v, list, where) =>
      GroupedIff(list, scope, inside, projection, locals);
      GroupedBody(where, scope, inside, projection, locals, {v});
    case Reduce(a, initial, v, list, body) =>
      GroupedIff(initial, scope, inside, projection, locals);
      GroupedIff(list, scope, inside, projection, locals);
      GroupedBody(body, scope, inside, projection, locals, {a, v});
    case _ =>
  }

  lemma {:induction false} GroupedBody(e: Expr, scope: AggregateScope, inside: bool, projection: bool, locals: set<Name>,
          own: set<Name>)
    requires Simple(e) && NoFields(e) && !HasAggregate(e) && scope.atoms == {}
    ensures Grouped(e, scope, inside, projection, locals + own) <==> scope.star || Reads(e) - own <= scope.aliases + locals
    decreases e, 1
  {
    GroupedIff(e, scope, inside, projection, locals + own);
    OwnAside(Reads(e), scope.aliases, locals, own);
  }

  lemma OwnAside(names: set<Name>, outer: set<Name>, locals: set<Name>, own: set<Name>)
    ensures names <= outer + (locals + own) <==> names - own <= outer + locals
  {
    if names - own <= outer + locals {
      forall x | x in names ensures x in outer + (locals + own) { assert x in own || x in names - own; }
    }
  }

  lemma {:induction false} GroupedAllIff(args: seq<Expr>, scope: AggregateScope, inside: bool, projection: bool,
          locals: set<Name>)
    requires AllSimple(args) && AllNoFields(args) && !AnyAggregate(args) && scope.atoms == {}
    ensures AllGrouped(args, scope, inside, projection, locals) <==> scope.star || AllReads(args) <= scope.aliases + locals
    decreases args, 0
  {
    if args != [] {
      GroupedIff(args[0], scope, inside, projection, locals);
      GroupedAllIff(args[1..], scope, inside, projection, locals);
    }
  }
}
