/** Three-valued equality and logic: knowing more about operands never changes an
    answer of true or false. */
module Kleene {
  import opened Base
  import opened Numbers
  import opened EngineValues

  // ---- structural equality ----

  datatype Tri = True | False | Unknown

  function Of(b: bool): Tri {
    if b then True else False
  }

  /** All parts equal: false at the first difference, otherwise unknown if any is. */
  function Both(a: Tri, b: Tri): Tri {
    if a == False || b == False then False
    else if a == Unknown || b == Unknown then Unknown
    else True
  }

  /** cypherEqual. */
  function CypherEqual(a: Value, b: Value): Tri
    decreases a, 1
  {
    if a == Null || b == Null then Unknown
    else if a.Num? || b.Num? then Of(a.Num? && b.Num? && EqualNumbers(a.x, b.x))
    else
      match a
      case Str(s) => Of(b.Str? && s == b.s)
      case Bool(x) => Of(b.Bool? && x == b.b)
      case NodeRef(n) => Of(b.NodeRef? && n == b.node)
      case EdgeRef(e) => Of(b.EdgeRef? && e == b.edge)
      case PathRef(k) => Of(b.PathRef? && k == b.key)
      case List(items) => if b.List? && |items| == |b.items| then EqualItems(items, b.items) else False
      case Map(fields) => if b.Map? && fields.Keys == b.fields.Keys then EqualFields(a, b) else False
      case _ => False
  }

  function EqualItems(a: seq<Value>, b: seq<Value>): Tri
    requires |a| == |b|
    decreases a, 0
  {
    if a == [] then True else Both(CypherEqual(a[0], b[0]), EqualItems(a[1..], b[1..]))
  }

  /** Independent of the order the keys are taken in. */
  function EqualFields(a: Value, b: Value): Tri
    requires a.Map? && b.Map? && a.fields.Keys == b.fields.Keys
    decreases a, 0
  {
    if exists k :: k in a.fields && CypherEqual(a.fields[k], b.fields[k]) == False then False
    else if exists k :: k in a.fields && CypherEqual(a.fields[k], b.fields[k]) == Unknown then Unknown
    else True
  }

  function Answer(t: Tri): Value {
    match t
    case True => Bool(true)
    case False => Bool(false)
    case Unknown => Null
  }

  // ---- knowing more ----

  /** b is a with some nulls replaced. */
  predicate Refines(a: Value, b: Value)
    decreases a
  {
    || a == Null || a == b
    || (a.List? && b.List? && |a.items| == |b.items| && forall i | 0 <= i < |a.items| :: Refines(a.items[i], b.items[i]))
    || (a.Map? && b.Map? && a.fields.Keys == b.fields.Keys && forall k | k in a.fields :: Refines(a.fields[k], b.fields[k]))
  }

  predicate RefinesTri(a: Tri, b: Tri) {
    a == Unknown || a == b
  }

  lemma {:induction false} EqualIsMonotone(a: Value, b: Value, a': Value, b': Value)
    requires Refines(a, a') && Refines(b, b')
    ensures RefinesTri(CypherEqual(a, b), CypherEqual(a', b'))
    decreases a, 1
  {
    if a != Null && b != Null {
      if a.List? && b.List? {
        ItemsRefine(a, a');
        ItemsRefine(b, b');
        if |a.items| == |b.items| { EqualItemsIsMonotone(a.items, b.items, a'.items, b'.items); }
      } else if a.Map? && b.Map? {
        FieldsRefine(a, a');
        FieldsRefine(b, b');
        if a.fields.Keys == b.fields.Keys { EqualFieldsIsMonotone(a, b, a', b'); }
      }
    }
  }

  lemma ItemsRefine(a: Value, b: Value)
    requires a.List? && Refines(a, b)
    ensures b.List? && |a.items| == |b.items| && forall i | 0 <= i < |a.items| :: Refines(a.items[i], b.items[i])
  {
  }

  lemma FieldsRefine(a: Value, b: Value)
    requires a.Map? && Refines(a, b)
    ensures b.Map? && a.fields.Keys == b.fields.Keys && forall k | k in a.fields :: Refines(a.fields[k], b.fields[k])
  {
  }

  lemma {:induction false} EqualItemsIsMonotone(a: seq<Value>, b: seq<Value>, a': seq<Value>, b': seq<Value>)
    requires |a| == |b| == |a'| == |b'|
    requires forall i | 0 <= i < |a| :: Refines(a[i], a'[i]) && Refines(b[i], b'[i])
    ensures RefinesTri(EqualItems(a, b), EqualItems(a', b'))
    decreases a, 0
  {
    if a != [] {
      EqualIsMonotone(a[0], b[0], a'[0], b'[0]);
      EqualItemsIsMonotone(a[1..], b[1..], a'[1..], b'[1..]);
    }
  }

  lemma {:induction false} EqualFieldsIsMonotone(a: Value, b: Value, a': Value, b': Value)
    requires a.Map? && b.Map? && a'.Map? && b'.Map?
    requires a.fields.Keys == b.fields.Keys == a'.fields.Keys == b'.fields.Keys
    requires forall k | k in a.fields :: Refines(a.fields[k], a'.fields[k]) && Refines(b.fields[k], b'.fields[k])
    ensures RefinesTri(EqualFields(a, b), EqualFields(a', b'))
    decreases a, 0
  {
    forall k | k in a.fields ensures RefinesTri(CypherEqual(a.fields[k], b.fields[k]), CypherEqual(a'.fields[k], b'.fields[k])) {
      EqualIsMonotone(a.fields[k], b.fields[k], a'.fields[k], b'.fields[k]);
    }
    hide CypherEqual;
  }

  // ---- IN ----

  /** True if some item equals the needle, otherwise unknown if some might. */
  function Contains(items: seq<Value>, needle: Value): Tri {
    if exists i :: 0 <= i < |items| && CypherEqual(items[i], needle) == True then True
    else if exists i :: 0 <= i < |items| && CypherEqual(items[i], needle) == Unknown then Unknown
    else False
  }

  /** containsValue's loop. */
  method ContainsValue(items: seq<Value>, needle: Value) returns (t: Tri)
    ensures t == Contains(items, needle)
  {
    var foundNull := false;
    for i := 0 to |items|
      invariant forall j | 0 <= j < i :: CypherEqual(items[j], needle) != True
      invariant foundNull <==> exists j :: 0 <= j < i && CypherEqual(items[j], needle) == Unknown
    {
      var equal := CypherEqual(items[i], needle);
      if equal == Unknown {
        foundNull := true;
      } else if equal == True {
        return True;
      }
    }
    return if foundNull then Unknown else False;
  }

  lemma ContainsIsMonotone(items: seq<Value>, needle: Value, items': seq<Value>, needle': Value)
    requires |items| == |items'| && (forall i | 0 <= i < |items| :: Refines(items[i], items'[i])) && Refines(needle, needle')
    ensures RefinesTri(Contains(items, needle), Contains(items', needle'))
  {
    forall i | 0 <= i < |items| ensures RefinesTri(CypherEqual(items[i], needle), CypherEqual(items'[i], needle')) {
      EqualIsMonotone(items[i], needle, items'[i], needle');
    }
    hide CypherEqual, Refines;
  }

  // ---- list predicates ----

  datatype Quantifier = Any | All | None_ | Single

  function CountOf(results: seq<Tri>, t: Tri): nat {
    if results == [] then 0 else CountOf(results[..|results| - 1], t) + (if results[|results| - 1] == t then 1 else 0)
  }

  /** What the counts decide. */
  function Decide(q: Quantifier, results: seq<Tri>): Tri {
    var unknown := CountOf(results, Unknown) > 0;
    match q
    case Any => if CountOf(results, True) > 0 then True else if unknown then Unknown else False
    case All => if CountOf(results, False) > 0 then False else if unknown then Unknown else True
    case None_ => if CountOf(results, True) > 0 then False else if unknown then Unknown else True
    case Single => if CountOf(results, True) > 1 then False else if unknown then Unknown else Of(CountOf(results, True) == 1)
  }

  /** listPredicate's loop over the outcomes of its items. */
  method Tally(q: Quantifier, results: seq<Tri>) returns (t: Tri)
    ensures t == Decide(q, results)
  {
    var trueCount, falseCount, hasNull := 0, 0, false;
    for i := 0 to |results|
      invariant trueCount == CountOf(results[..i], True) && falseCount == CountOf(results[..i], False)
      invariant hasNull <==> CountOf(results[..i], Unknown) > 0
    {
      assert results[..i + 1][..i] == results[..i];
      match results[i]
      case Unknown => hasNull := true;
      case True => trueCount := trueCount + 1;
      case False => falseCount := falseCount + 1;
    }
    assert results[..|results|] == results;
    match q
    case Any => return if trueCount > 0 then True else if hasNull then Unknown else False;
    case All => return if falseCount > 0 then False else if hasNull then Unknown else True;
    case None_ => return if trueCount > 0 then False else if hasNull then Unknown else True;
    case Single => return if trueCount > 1 then False else if hasNull then Unknown else Of(trueCount == 1);
  }

  /** The outcomes with every unknown one settled. */
  predicate Settles(known: seq<bool>, results: seq<Tri>) {
    |known| == |results| && forall i | 0 <= i < |results| && results[i] != Unknown :: results[i] == Of(known[i])
  }

  /** What the quantifiers say of known outcomes. */
  ghost predicate Holds(q: Quantifier, known: seq<bool>) {
    match q
    case Any => exists i :: 0 <= i < |known| && known[i]
    case All => forall i | 0 <= i < |known| :: known[i]
    case None_ => forall i | 0 <= i < |known| :: !known[i]
    case Single => exists i :: OnlyAt(known, i)
  }

  predicate OnlyAt(known: seq<bool>, i: int) {
    0 <= i < |known| && known[i] && forall j | 0 <= j < |known| && known[j] :: j == i
  }

  /** A list predicate is true, or false, exactly when it is so however its unknown
      outcomes are settled. */
  lemma DecideIsExact(q: Quantifier, results: seq<Tri>)
    ensures Decide(q, results) == True <==> forall known | Settles(known, results) :: Holds(q, known)
    ensures Decide(q, results) == False <==> forall known | Settles(known, results) :: !Holds(q, known)
  {
    CountIsPositive(results, True);
    CountIsPositive(results, False);
    CountIsPositive(results, Unknown);
    CountIsPlural(results, True);
    hide CountOf;
    if Decide(q, results) == Unknown {
      BothWays(q, results);
    } else {
      forall known | Settles(known, results) ensures Holds(q, known) <==> Decide(q, results) == True { Settled(q, results, known); }
      var any := Filled(results, -1, false);
      assert Settles(any, results);
    }
  }

  /** The unknown outcomes settled alike, but for one. */
  function Filled(results: seq<Tri>, at: int, others: bool): (known: seq<bool>)
    ensures Settles(known, results)
  {
    seq(|results|, i requires 0 <= i < |results| => results[i] == True || (results[i] == Unknown && (others || i == at)))
  }

  lemma Settled(q: Quantifier, results: seq<Tri>, known: seq<bool>)
    requires Decide(q, results) != Unknown && Settles(known, results)
    ensures Holds(q, known) <==> Decide(q, results) == True
  {
    CountIsPositive(results, True);
    CountIsPositive(results, False);
    CountIsPositive(results, Unknown);
    CountIsPlural(results, True);
    hide CountOf;
    assert forall i | 0 <= i < |results| && results[i] == True :: known[i];
    assert forall i | 0 <= i < |results| && results[i] == False :: !known[i];
    if q.Single? && CountOf(results, True) == 1 {
      var i :| 0 <= i < |results| && results[i] == True;
      assert OnlyAt(known, i);
    }
  }

  lemma BothWays(q: Quantifier, results: seq<Tri>)
    requires Decide(q, results) == Unknown
    ensures exists known :: Settles(known, results) && Holds(q, known)
    ensures exists known :: Settles(known, results) && !Holds(q, known)
  {
    CountIsPositive(results, True);
    CountIsPositive(results, False);
    CountIsPositive(results, Unknown);
    CountIsPlural(results, True);
    hide CountOf;
    var u :| 0 <= u < |results| && results[u] == Unknown;
    var (low, one, high) := (Filled(results, -1, false), Filled(results, u, false), Filled(results, -1, true));
    assert one[u] && high[u] && !low[u];
    if q.Single? {
      if i :| 0 <= i < |results| && results[i] == True {
        assert OnlyAt(low, i) && one[i];
      } else {
        assert OnlyAt(one, u);
      }
    }
  }

  lemma {:induction false} CountIsPositive(results: seq<Tri>, t: Tri)
    ensures CountOf(results, t) > 0 <==> exists i :: 0 <= i < |results| && results[i] == t
  {
    if results != [] {
      var n := |results| - 1;
      CountIsPositive(results[..n], t);
      assert forall i | 0 <= i < n :: results[..n][i] == results[i];
    }
  }

  lemma {:induction false} CountIsPlural(results: seq<Tri>, t: Tri)
    ensures CountOf(results, t) > 1 <==> exists i, j :: 0 <= i < j < |results| && results[i] == t && results[j] == t
  {
    if results != [] {
      var n := |results| - 1;
      CountIsPlural(results[..n], t);
      CountIsPositive(results[..n], t);
      assert forall i | 0 <= i < n :: results[..n][i] == results[i];
    }
  }

  predicate AllRefine(a: seq<Tri>, b: seq<Tri>) {
    |a| == |b| && forall i | 0 <= i < |a| :: RefinesTri(a[i], b[i])
  }

  /** Known answers stay; only unknown ones turn. */
  lemma {:induction false} CountsGrow(a: seq<Tri>, b: seq<Tri>)
    requires AllRefine(a, b)
    ensures CountOf(a, True) <= CountOf(b, True) && CountOf(a, False) <= CountOf(b, False)
    ensures CountOf(a, Unknown) == 0 ==> a == b
    ensures CountOf(b, Unknown) <= CountOf(a, Unknown)
  {
    if a != [] {
      var n := |a| - 1;
      CountsGrow(a[..n], b[..n]);
      assert RefinesTri(a[n], b[n]);
      assert a == a[..n] + [a[n]] && b == b[..n] + [b[n]];
    }
  }

  lemma DecideIsMonotone(q: Quantifier, a: seq<Tri>, b: seq<Tri>)
    requires AllRefine(a, b)
    ensures RefinesTri(Decide(q, a), Decide(q, b))
  {
    CountsGrow(a, b);
    hide CountOf;
  }

  // ---- predicates ----

  datatype Expr =
    | Const(v: Value)
    | Var(name: string)
    | ListOf(elements: seq<Expr>)
    | Not(e: Expr)
    | And(left: Expr, right: Expr)
    | Or(left: Expr, right: Expr)
    | Xor(left: Expr, right: Expr)
    | Equal(left: Expr, right: Expr)
    | NotEqual(left: Expr, right: Expr)
    | In(left: Expr, right: Expr)
    | NotIn(left: Expr, right: Expr)
    | Quantified(q: Quantifier, name: string, list: Expr, where: Expr)

  type Row = map<string, Value>

  function Negate(t: Tri): Tri {
    match t
    case True => False
    case False => True
    case Unknown => Unknown
  }

  function AndOf(a: Tri, b: Tri): Tri {
    if a == False || b == False then False else if a == Unknown || b == Unknown then Unknown else True
  }

  function OrOf(a: Tri, b: Tri): Tri {
    if a == True || b == True then True else if a == Unknown || b == Unknown then Unknown else False
  }

  function XorOf(a: Tri, b: Tri): Tri {
    if a == Unknown || b == Unknown then Unknown else Of(a != b)
  }

  /** A boolean or null as a truth value; anything else is a type error. */
  function Truth(v: Value): Result<Tri> {
    match v
    case Null => Ok(Unknown)
    case Bool(b) => Ok(Of(b))
    case _ => Err(InvalidArgument)
  }

  function AsTruth(r: Result<Value>): Result<Tri> {
    if r.Err? then Err(r.error) else Truth(r.value)
  }

  function Eval(e: Expr, row: Row): Result<Value>
    decreases e, 0
  {
    match e
    case Const(v) => Ok(v)
    case Var(name) => if name in row then Ok(row[name]) else Err(InvalidArgument)
    case ListOf(elements) =>
      var items := EvalAll(elements, row);
      if items.Err? then Err(items.error) else Ok(List(items.value))
    case Not(x) =>
      var t := AsTruth(Eval(x, row));
      if t.Err? then Err(t.error) else Ok(Answer(Negate(t.value)))
    case And(l, r) =>
      var left := Eval(l, row);
      if left.Err? || left.value == Bool(false) then left
      else
        var right := Eval(r, row);
        if right.Err? then right else Logical(left.value, right.value, AndOf)
    case Or(l, r) =>
      var left := Eval(l, row);
      if left.Err? || left.value == Bool(true) then left
      else
        var right := Eval(r, row);
        if right.Err? then right else Logical(left.value, right.value, OrOf)
    case Xor(l, r) =>
      var left, right := Eval(l, row), Eval(r, row);
      if left.Err? then left else if right.Err? then right else Logical(left.value, right.value, XorOf)
    case Equal(l, r) =>
      var left, right := Eval(l, row), Eval(r, row);
      if left.Err? then left else if right.Err? then right else Ok(Answer(CypherEqual(left.value, right.value)))
    case NotEqual(l, r) =>
      var left, right := Eval(l, row), Eval(r, row);
      if left.Err? then left else if right.Err? then right else Ok(Answer(Negate(CypherEqual(left.value, right.value))))
    case In(l, r) =>
      var left, right := Eval(l, row), Eval(r, row);
      if left.Err? then left else if right.Err? then right else Membership(left.value, right.value, false)
    case NotIn(l, r) =>
      var left, right := Eval(l, row), Eval(r, row);
      if left.Err? then left else if right.Err? then right else Membership(left.value, right.value, true)
    case Quantified(q, name, list, where) =>
      var collection := Eval(list, row);
      if collection.Err? || collection.value == Null then collection
      else if !collection.value.List? then Err(InvalidArgument)
      else
        var results := EvalEach(where, row, name, collection.value.items);
        if results.Err? then Err(results.error) else Ok(Answer(Decide(q, results.value)))
  }

  /** booleanBinary. */
  function Logical(left: Value, right: Value, op: (Tri, Tri) -> Tri): Result<Value> {
    var (a, b) := (Truth(left), Truth(right));
    if a.Err? then Err(a.error) else if b.Err? then Err(b.error) else Ok(Answer(op(a.value, b.value)))
  }

  function Membership(needle: Value, collection: Value, negated: bool): Result<Value> {
    if collection == Null then Ok(Null)
    else if !collection.List? then Err(InvalidArgument)
    else
      var t := Contains(collection.items, needle);
      Ok(Answer(if negated then Negate(t) else t))
  }

  function EvalAll(elements: seq<Expr>, row: Row): Result<seq<Value>>
    decreases elements, 0
  {
    if elements == [] then Ok([])
    else
      var first := Eval(elements[0], row);
      if first.Err? then Err(first.error)
      else
        var rest := EvalAll(elements[1..], row);
        if rest.Err? then rest else Ok([first.value] + rest.value)
  }

  /** The predicate of a quantifier, once per item under its variable. */
  function EvalEach(where: Expr, row: Row, name: string, items: seq<Value>): Result<seq<Tri>>
    decreases where, 1, |items|
  {
    if items == [] then Ok([])
    else
      var first := AsTruth(Eval(where, row[name := items[0]]));
      if first.Err? then Err(first.error)
      else
        var rest := EvalEach(where, row, name, items[1..]);
        if rest.Err? then rest else Ok([first.value] + rest.value)
  }

  // ---- monotonicity ----

  predicate RowRefines(a: Row, b: Row) {
    a.Keys == b.Keys && forall k | k in a :: Refines(a[k], b[k])
  }

  lemma RefinesItself(a: Value)
    ensures Refines(a, a)
  {
  }

  lemma AnswersRefine(a: Tri, b: Tri)
    ensures RefinesTri(a, b) ==> Refines(Answer(a), Answer(b)) && RefinesTri(Negate(a), Negate(b))
  {
  }

  /** A null operand or a boolean one: refining it refines its truth value. */
  lemma TruthsRefine(a: Value, b: Value)
    requires Refines(a, b) && Truth(a).Ok? && Truth(b).Ok?
    ensures RefinesTri(Truth(a).value, Truth(b).value)
  {
  }

  lemma ConnectivesAreMonotone(a: Tri, b: Tri, a': Tri, b': Tri)
    requires RefinesTri(a, a') && RefinesTri(b, b')
    ensures RefinesTri(AndOf(a, b), AndOf(a', b')) && RefinesTri(OrOf(a, b), OrOf(a', b')) && RefinesTri(XorOf(a, b), XorOf(a', b'))
  {
  }

  /** Replacing nulls by values never flips a true or a false result. */
  lemma {:induction false} EvalIsMonotone(e: Expr, row: Row, row': Row)
    requires RowRefines(row, row') && Eval(e, row).Ok? && Eval(e, row').Ok?
    ensures Refines(Eval(e, row).value, Eval(e, row').value)
    decreases e, 1
  {
    match e
    case Const(v) => RefinesItself(v);
    case Var(name) =>
    case ListOf(elements) => EvalAllIsMonotone(elements, row, row');
    case Not(x) =>
      EvalIsMonotone(x, row, row');
      TruthsRefine(Eval(x, row).value, Eval(x, row').value);
      AnswersRefine(Truth(Eval(x, row).value).value, Truth(Eval(x, row').value).value);
      AnswersRefine(Negate(Truth(Eval(x, row).value).value), Negate(Truth(Eval(x, row').value).value));
    case And(l, r) => AndIsMonotone(e, row, row');
    case Or(l, r) => OrIsMonotone(e, row, row');
    case Xor(l, r) =>
      EvalIsMonotone(l, row, row');
      EvalIsMonotone(r, row, row');
      LogicalIsMonotone(Eval(l, row).value, Eval(r, row).value, Eval(l, row').value, Eval(r, row').value);
    case Equal(l, r) => EqualityIsMonotone(e, row, row');
    case NotEqual(l, r) => EqualityIsMonotone(e, row, row');
    case In(l, r) => MembershipIsMonotone(e, row, row');
    case NotIn(l, r) => MembershipIsMonotone(e, row, row');
    case Quantified(q, name, list, where) => QuantifiedIsMonotone(e, row, row');
  }

  lemma LogicalIsMonotone(l: Value, r: Value, l': Value, r': Value)
    requires Refines(l, l') && Refines(r, r')
    ensures Logical(l, r, AndOf).Ok? && Logical(l', r', AndOf).Ok? ==> Refines(Logical(l, r, AndOf).value, Logical(l', r', AndOf).value)
    ensures Logical(l, r, OrOf).Ok? && Logical(l', r', OrOf).Ok? ==> Refines(Logical(l, r, OrOf).value, Logical(l', r', OrOf).value)
    ensures Logical(l, r, XorOf).Ok? && Logical(l', r', XorOf).Ok? ==> Refines(Logical(l, r, XorOf).value, Logical(l', r', XorOf).value)
  {
    if Truth(l).Ok? && Truth(r).Ok? && Truth(l').Ok? && Truth(r').Ok? {
      TruthsRefine(l, l');
      TruthsRefine(r, r');
      var (a, b, a', b') := (Truth(l).value, Truth(r).value, Truth(l').value, Truth(r').value);
      ConnectivesAreMonotone(a, b, a', b');
      AnswersRefine(AndOf(a, b), AndOf(a', b'));
      AnswersRefine(OrOf(a, b), OrOf(a', b'));
      AnswersRefine(XorOf(a, b), XorOf(a', b'));
      hide Refines, Truth, AndOf, OrOf, XorOf, Answer;
    }
  }

  /** The left operand alone may decide, before or after it is known better. */
  lemma {:induction false} AndIsMonotone(e: Expr, row: Row, row': Row)
    requires e.And? && RowRefines(row, row') && Eval(e, row).Ok? && Eval(e, row').Ok?
    ensures Refines(Eval(e, row).value, Eval(e, row').value)
    decreases e, 0
  {
    EvalIsMonotone(e.left, row, row');
    var l, l' := Eval(e.left, row).value, Eval(e.left, row').value;
    if l != Bool(false) && l' != Bool(false) {
      EvalIsMonotone(e.right, row, row');
      LogicalIsMonotone(l, Eval(e.right, row).value, l', Eval(e.right, row').value);
    } else if l != Bool(false) {
      assert Truth(l) == Ok(Unknown);
      UnknownAnd(Truth(Eval(e.right, row).value).value);
    }
  }

  lemma UnknownAnd(t: Tri)
    ensures Refines(Answer(AndOf(Unknown, t)), Bool(false)) && Refines(Answer(OrOf(Unknown, t)), Bool(true))
  {
  }

  lemma {:induction false} OrIsMonotone(e: Expr, row: Row, row': Row)
    requires e.Or? && RowRefines(row, row') && Eval(e, row).Ok? && Eval(e, row').Ok?
    ensures Refines(Eval(e, row).value, Eval(e, row').value)
    decreases e, 0
  {
    EvalIsMonotone(e.left, row, row');
    var l, l' := Eval(e.left, row).value, Eval(e.left, row').value;
    if l != Bool(true) && l' != Bool(true) {
      EvalIsMonotone(e.right, row, row');
      LogicalIsMonotone(l, Eval(e.right, row).value, l', Eval(e.right, row').value);
    } else if l != Bool(true) {
      assert Truth(l) == Ok(Unknown);
      UnknownAnd(Truth(Eval(e.right, row).value).value);
    }
  }

  lemma {:induction false} EqualityIsMonotone(e: Expr, row: Row, row': Row)
    requires (e.Equal? || e.NotEqual?) && RowRefines(row, row') && Eval(e, row).Ok? && Eval(e, row').Ok?
    ensures Refines(Eval(e, row).value, Eval(e, row').value)
    decreases e, 0
  {
    EvalIsMonotone(e.left, row, row');
    EvalIsMonotone(e.right, row, row');
    var (l, r, l', r') := (Eval(e.left, row).value, Eval(e.right, row).value, Eval(e.left, row').value, Eval(e.right, row').value);
    EqualIsMonotone(l, r, l', r');
    AnswersRefine(CypherEqual(l, r), CypherEqual(l', r'));
    AnswersRefine(Negate(CypherEqual(l, r)), Negate(CypherEqual(l', r')));
    hide Refines, CypherEqual, Answer, Negate;
  }

  lemma {:induction false} MembershipIsMonotone(e: Expr, row: Row, row': Row)
    requires (e.In? || e.NotIn?) && RowRefines(row, row') && Eval(e, row).Ok? && Eval(e, row').Ok?
    ensures Refines(Eval(e, row).value, Eval(e, row').value)
    decreases e, 0
  {
    EvalIsMonotone(e.left, row, row');
    EvalIsMonotone(e.right, row, row');
    var (l, r, l', r') := (Eval(e.left, row).value, Eval(e.right, row).value, Eval(e.left, row').value, Eval(e.right, row').value);
    if r.List? {
      ItemsRefine(r, r');
      ContainsIsMonotone(r.items, l, r'.items, l');
      AnswersRefine(Contains(r.items, l), Contains(r'.items, l'));
      AnswersRefine(Negate(Contains(r.items, l)), Negate(Contains(r'.items, l')));
      hide Refines, Contains, Answer, Negate;
    }
  }

  lemma {:induction false} QuantifiedIsMonotone(e: Expr, row: Row, row': Row)
    requires e.Quantified? && RowRefines(row, row') && Eval(e, row).Ok? && Eval(e, row').Ok?
    ensures Refines(Eval(e, row).value, Eval(e, row').value)
    decreases e, 0
  {
    EvalIsMonotone(e.list, row, row');
    var c, c' := Eval(e.list, row).value, Eval(e.list, row').value;
    if c.List? {
      ItemsRefine(c, c');
      EvalEachIsMonotone(e.where, row, row', e.name, c.items, c'.items);
      var a, b := EvalEach(e.where, row, e.name, c.items).value, EvalEach(e.where, row', e.name, c'.items).value;
      DecideIsMonotone(e.q, a, b);
      AnswersRefine(Decide(e.q, a), Decide(e.q, b));
      hide Refines, Decide, Answer, EvalEach;
    }
  }

  lemma {:induction false} EvalAllIsMonotone(elements: seq<Expr>, row: Row, row': Row)
    requires RowRefines(row, row') && EvalAll(elements, row).Ok? && EvalAll(elements, row').Ok?
    ensures var a, b := EvalAll(elements, row).value, EvalAll(elements, row').value;
            |a| == |b| && forall i | 0 <= i < |a| :: Refines(a[i], b[i])
    decreases elements, 0
  {
    if elements != [] {
      EvalIsMonotone(elements[0], row, row');
      EvalAllIsMonotone(elements[1..], row, row');
    }
  }

  lemma RowMore(row: Row, row': Row, name: string, x: Value, y: Value)
    requires RowRefines(row, row') && Refines(x, y)
    ensures RowRefines(row[name := x], row'[name := y])
  {
    hide Refines;
  }

  lemma {:induction false} EvalEachIsMonotone(where: Expr, row: Row, row': Row, name: string, items: seq<Value>,
          items': seq<Value>)
    requires RowRefines(row, row') && |items| == |items'| && forall i | 0 <= i < |items| :: Refines(items[i], items'[i])
    requires EvalEach(where, row, name, items).Ok? && EvalEach(where, row', name, items').Ok?
    ensures AllRefine(EvalEach(where, row, name, items).value, EvalEach(where, row', name, items').value)
    decreases where, 2, |items|
  {
    if items != [] {
      hide *;
      var r, r' := row[name := items[0]], row'[name := items'[0]];
      RowMore(row, row', name, items[0], items'[0]);
      OneEach(where, row, name, items);
      OneEach(where, row', name, items');
      EvalIsMonotone(where, r, r');
      TruthsRefine(Eval(where, r).value, Eval(where, r').value);
      EvalEachIsMonotone(where, row, row', name, items[1..], items'[1..]);
      ConsRefines(Truth(Eval(where, r).value).value, Truth(Eval(where, r').value).value,
                  EvalEach(where, row, name, items[1..]).value, EvalEach(where, row', name, items'[1..]).value);
    }
  }

  lemma OneEach(where: Expr, row: Row, name: string, items: seq<Value>)
    requires items != [] && EvalEach(where, row, name, items).Ok?
    ensures var first := Eval(where, row[name := items[0]]);
            first.Ok? && Truth(first.value).Ok? && EvalEach(where, row, name, items[1..]).Ok?
            && EvalEach(where, row, name, items).value == [Truth(first.value).value] + EvalEach(where, row, name, items[1..]).value
  {
    hide Eval, Truth;
  }

  lemma ConsRefines(x: Tri, y: Tri, a: seq<Tri>, b: seq<Tri>)
    requires RefinesTri(x, y) && AllRefine(a, b)
    ensures AllRefine([x] + a, [y] + b)
  {
    hide RefinesTri;
  }
}
