/** Three-valued answers are exact: an answer is known exactly when it is the same
    however the nulls are settled, and without nulls it is the two-valued one. */
module KleeneMeaning {
  import opened Base
  import opened Numbers
  import opened EngineValues
  import opened Kleene

  // ---- connectives ----

  predicate Settled1(t: Tri, b: bool) {
    t == Unknown || t == Of(b)
  }

  lemma ConnectivesAreExact(a: Tri, b: Tri)
    ensures AndOf(a, b) == True <==> forall x, y | Settled1(a, x) && Settled1(b, y) :: x && y
    ensures AndOf(a, b) == False <==> forall x, y | Settled1(a, x) && Settled1(b, y) :: !(x && y)
    ensures OrOf(a, b) == True <==> forall x, y | Settled1(a, x) && Settled1(b, y) :: x || y
    ensures OrOf(a, b) == False <==> forall x, y | Settled1(a, x) && Settled1(b, y) :: !(x || y)
    ensures XorOf(a, b) == True <==> forall x, y | Settled1(a, x) && Settled1(b, y) :: x != y
    ensures XorOf(a, b) == False <==> forall x, y | Settled1(a, x) && Settled1(b, y) :: x == y
    ensures Negate(a) == True <==> forall x | Settled1(a, x) :: !x
    ensures Negate(a) == False <==> forall x | Settled1(a, x) :: x
  {
    assert Settled1(a, true) <==> a != False;
    assert Settled1(a, false) <==> a != True;
    assert Settled1(b, true) <==> b != False;
    assert Settled1(b, false) <==> b != True;
  }

  /** A truth value: null, or a boolean; a null may turn out either way. */
  predicate IsTruth(v: Value) {
    v.Null? || v.Bool?
  }

  predicate May(v: Value, b: bool) {
    v == Null || v == Bool(b)
  }

  /** v is the answer to a question with these outcomes: known exactly if they agree. */
  ghost predicate AnswersAll(v: Value, outcome: (bool, bool) -> bool, l: Value, r: Value) {
    && IsTruth(v)
    && (v == Bool(true) <==> forall x, y | May(l, x) && May(r, y) :: outcome(x, y))
    && (v == Bool(false) <==> forall x, y | May(l, x) && May(r, y) :: !outcome(x, y))
  }

  lemma MayIs(v: Value, b: bool)
    requires IsTruth(v)
    ensures Truth(v).Ok? && (May(v, b) <==> Settled1(Truth(v).value, b))
  {
  }

  lemma LogicalIs(l: Value, r: Value, op: (Tri, Tri) -> Tri, outcome: (bool, bool) -> bool)
    requires IsTruth(l) && IsTruth(r)
    requires forall a, b :: (op(a, b) == True <==> forall x, y | Settled1(a, x) && Settled1(b, y) :: outcome(x, y))
                            && (op(a, b) == False <==> forall x, y | Settled1(a, x) && Settled1(b, y) :: !outcome(x, y))
    ensures Logical(l, r, op).Ok? && AnswersAll(Logical(l, r, op).value, outcome, l, r)
  {
    hide Settled1, May;
    forall b { MayIs(l, b); }
    forall b { MayIs(r, b); }
    var t := op(Truth(l).value, Truth(r).value);
    assert Logical(l, r, op) == Ok(Answer(t));
  }

  lemma ConnectiveIs(l: Expr, r: Expr, row: Row, x: Value, y: Value)
    requires Eval(l, row) == Ok(x) && Eval(r, row) == Ok(y)
    ensures Eval(And(l, r), row) == if x == Bool(false) then Ok(x) else Logical(x, y, AndOf)
    ensures Eval(Or(l, r), row) == if x == Bool(true) then Ok(x) else Logical(x, y, OrOf)
    ensures Eval(Xor(l, r), row) == Logical(x, y, XorOf)
    ensures Eval(Not(l), row) == if Truth(x).Err? then Err(Truth(x).error) else Ok(Answer(Negate(Truth(x).value)))
  {
    hide Logical, AndOf, OrOf, XorOf, Truth, Negate;
  }

  lemma LogicalsAre(x: Value, y: Value)
    requires IsTruth(x) && IsTruth(y)
    ensures Logical(x, y, AndOf).Ok? && AnswersAll(Logical(x, y, AndOf).value, (a, b) => a && b, x, y)
    ensures Logical(x, y, OrOf).Ok? && AnswersAll(Logical(x, y, OrOf).value, (a, b) => a || b, x, y)
    ensures Logical(x, y, XorOf).Ok? && AnswersAll(Logical(x, y, XorOf).value, (a, b) => a != b, x, y)
  {
    hide Settled1, AndOf, OrOf, XorOf, Negate, Logical, AnswersAll, IsTruth;
    forall a, b { ConnectivesAreExact(a, b); }
    LogicalIs(x, y, AndOf, (a, b) => a && b);
    LogicalIs(x, y, OrOf, (a, b) => a || b);
    LogicalIs(x, y, XorOf, (a, b) => a != b);
  }

  /** AND, OR, XOR and NOT of evaluated operands are known exactly when they are the
      same however null operands turn out. */
  lemma EvalConnectives(l: Expr, r: Expr, row: Row, x: Value, y: Value)
    requires Eval(l, row) == Ok(x) && Eval(r, row) == Ok(y) && IsTruth(x) && IsTruth(y)
    ensures Eval(And(l, r), row).Ok? && AnswersAll(Eval(And(l, r), row).value, (a, b) => a && b, x, y)
    ensures Eval(Or(l, r), row).Ok? && AnswersAll(Eval(Or(l, r), row).value, (a, b) => a || b, x, y)
    ensures Eval(Xor(l, r), row).Ok? && AnswersAll(Eval(Xor(l, r), row).value, (a, b) => a != b, x, y)
    ensures Eval(Not(l), row).Ok? && AnswersAll(Eval(Not(l), row).value, (a, b) => !a, x, Bool(true))
  {
    assert Truth(x).Ok?;
    hide Settled1, AndOf, OrOf, XorOf, Negate, Logical, AnswersAll, IsTruth, Eval, Truth, Answer;
    ConnectiveIs(l, r, row, x, y);
    LogicalsAre(x, y);
    Shortcuts(x, y);
    NegationIs(x);
  }

  lemma Shortcuts(x: Value, y: Value)
    requires IsTruth(x) && IsTruth(y)
    ensures x == Bool(false) ==> AnswersAll(x, (a, b) => a && b, x, y)
    ensures x == Bool(true) ==> AnswersAll(x, (a, b) => a || b, x, y)
  {
    assert May(y, true) || May(y, false);
    assert May(x, true) || May(x, false);
  }

  lemma NegationIs(x: Value)
    requires IsTruth(x)
    ensures AnswersAll(Answer(Negate(Truth(x).value)), (a, b) => !a, x, Bool(true))
  {
    assert May(Bool(true), true);
    assert May(x, true) <==> x != Bool(false);
    assert May(x, false) <==> x != Bool(true);
  }

  /** A left operand that decides is not followed by the right one; any other operand
      that is no truth value is an error. */
  lemma EvalErrors(l: Expr, r: Expr, row: Row, x: Value, y: Value)
    requires Eval(l, row) == Ok(x) && Eval(r, row) == Ok(y)
    ensures Eval(And(l, r), row).Ok? <==> x == Bool(false) || (IsTruth(x) && IsTruth(y))
    ensures Eval(Or(l, r), row).Ok? <==> x == Bool(true) || (IsTruth(x) && IsTruth(y))
    ensures Eval(Xor(l, r), row).Ok? <==> IsTruth(x) && IsTruth(y)
    ensures Eval(Not(l), row).Ok? <==> IsTruth(x)
  {
    ConnectiveIs(l, r, row, x, y);
    hide Eval, AndOf, OrOf, XorOf, Answer;
  }

  // ---- equality ----

  predicate NullFree(v: Value) {
    match v
    case Null => false
    case List(items) => forall x | x in items :: NullFree(x)
    case Map(fields) => forall k | k in fields :: NullFree(fields[k])
    case _ => true
  }

  predicate NaNFree(v: Value) {
    match v
    case Num(x) => !IsNaN(x)
    case List(items) => forall x | x in items :: NaNFree(x)
    case Map(fields) => forall k | k in fields :: NaNFree(fields[k])
    case _ => true
  }

  /** The same value: numbers at one place, lists item by item, maps key by key. */
  predicate Same(a: Value, b: Value)
    decreases a
  {
    match a
    case Num(x) => b.Num? && !IsNaN(x) && !IsNaN(b.x) && PlaceOf(x) == PlaceOf(b.x)
    case List(items) => b.List? && |items| == |b.items| && forall i | 0 <= i < |items| :: Same(items[i], b.items[i])
    case Map(fields) => b.Map? && fields.Keys == b.fields.Keys && forall k | k in fields :: Same(fields[k], b.fields[k])
    case _ => a == b
  }

  lemma NumbersSame(x: Number, y: Number)
    ensures EqualNumbers(x, y) <==> !IsNaN(x) && !IsNaN(y) && PlaceOf(x) == PlaceOf(y)
  {
    CompareIsByPlace(x, y);
    hide CompareNumbers;
  }

  lemma {:induction false} ItemsEqual(a: seq<Value>, b: seq<Value>)
    requires |a| == |b|
    ensures EqualItems(a, b) == False <==> exists i :: 0 <= i < |a| && CypherEqual(a[i], b[i]) == False
    ensures EqualItems(a, b) == True <==> forall i | 0 <= i < |a| :: CypherEqual(a[i], b[i]) == True
    decreases a
  {
    hide CypherEqual;
    if a != [] {
      ItemsEqual(a[1..], b[1..]);
      assert EqualItems(a, b) == Both(CypherEqual(a[0], b[0]), EqualItems(a[1..], b[1..]));
      assert forall i | 0 <= i < |a[1..]| :: a[1..][i] == a[i + 1] && b[1..][i] == b[i + 1];
      if i :| 0 <= i < |a| && CypherEqual(a[i], b[i]) == False { if i > 0 { assert CypherEqual(a[1..][i - 1], b[1..][i - 1]) == False; } }
      if EqualItems(a, b) == True {
        forall i | 0 <= i < |a| ensures CypherEqual(a[i], b[i]) == True { if i > 0 { assert CypherEqual(a[1..][i - 1], b[1..][i - 1]) == True; } }
      }
    }
  }

  /** Without nulls, equality is sameness. */
  lemma {:induction false} EqualIsSame(a: Value, b: Value)
    requires NullFree(a) && NullFree(b)
    ensures CypherEqual(a, b) == Of(Same(a, b))
    decreases a
  {
    if a.Num? && b.Num? {
      NumbersSame(a.x, b.x);
    } else if a.List? && b.List? && |a.items| == |b.items| {
      forall i | 0 <= i < |a.items| ensures CypherEqual(a.items[i], b.items[i]) == Of(Same(a.items[i], b.items[i])) {
        assert a.items[i] in a.items && b.items[i] in b.items;
        EqualIsSame(a.items[i], b.items[i]);
      }
      ItemsEqual(a.items, b.items);
      hide EqualItems;
    } else if a.Map? && b.Map? && a.fields.Keys == b.fields.Keys {
      forall k | k in a.fields ensures CypherEqual(a.fields[k], b.fields[k]) == Of(Same(a.fields[k], b.fields[k])) {
        EqualIsSame(a.fields[k], b.fields[k]);
      }
    }
  }

  // ---- equality with nulls ----

  /** Every null replaced by one value. */
  function Fill(v: Value): Value {
    match v
    case Null => Bool(true)
    case List(items) => List(Fills(items))
    case Map(fields) => Map(map k | k in fields :: Fill(fields[k]))
    case _ => v
  }

  function Fills(items: seq<Value>): (filled: seq<Value>)
    ensures |filled| == |items| && forall i | 0 <= i < |items| :: filled[i] == Fill(items[i])
  {
    if items == [] then [] else [Fill(items[0])] + Fills(items[1..])
  }

  lemma {:induction false} FillIsFull(v: Value)
    ensures NullFree(Fill(v)) && Refines(v, Fill(v)) && (NaNFree(v) ==> NaNFree(Fill(v)))
  {
    if v.List? {
      forall i | 0 <= i < |v.items| ensures NullFree(Fills(v.items)[i]) && Refines(v.items[i], Fills(v.items)[i]) { FillIsFull(v.items[i]); }
      if NaNFree(v) { forall i | 0 <= i < |v.items| ensures NaNFree(Fills(v.items)[i]) { FillIsFull(v.items[i]); assert v.items[i] in v.items; } }
    } else if v.Map? {
      forall k | k in v.fields ensures NullFree(Fill(v.fields[k])) && Refines(v.fields[k], Fill(v.fields[k])) && (NaNFree(v.fields[k]) ==> NaNFree(Fill(v.fields[k]))) {
        FillIsFull(v.fields[k]);
      }
    }
  }

  lemma {:induction false} SameAsItself(v: Value)
    requires NaNFree(v)
    ensures Same(v, v)
  {
    if v.List? {
      forall i | 0 <= i < |v.items| ensures Same(v.items[i], v.items[i]) { assert v.items[i] in v.items; SameAsItself(v.items[i]); }
    } else if v.Map? {
      forall k | k in v.fields ensures Same(v.fields[k], v.fields[k]) { SameAsItself(v.fields[k]); }
    }
  }

  /** Two ways to fill in the nulls. */
  ghost predicate Fillings(a: Value, b: Value, s: Value, t: Value) {
    Refines(a, s) && Refines(b, t) && NullFree(s) && NullFree(t)
  }

  /** Somewhere a null stands against a value with a NaN in it: whatever it is, the two are
      not the same. */
  predicate NaNMeetsNull(a: Value, b: Value)
    decreases a
  {
    if a == Null || b == Null then !NaNFree(a) || !NaNFree(b)
    else if a.List? && b.List? && |a.items| == |b.items| then exists i :: 0 <= i < |a.items| && NaNMeetsNull(a.items[i], b.items[i])
    else a.Map? && b.Map? && a.fields.Keys == b.fields.Keys && exists k :: k in a.fields && NaNMeetsNull(a.fields[k], b.fields[k])
  }

  lemma {:induction false} NaNStays(a: Value, s: Value)
    requires Refines(a, s) && !NaNFree(a)
    ensures !NaNFree(s)
  {
    if a.List? {
      var x :| x in a.items && !NaNFree(x);
      var i :| 0 <= i < |a.items| && a.items[i] == x;
      NaNStays(a.items[i], s.items[i]);
      assert s.items[i] in s.items;
    } else if a.Map? {
      var k :| k in a.fields && !NaNFree(a.fields[k]);
      NaNStays(a.fields[k], s.fields[k]);
    }
  }

  lemma {:induction false} NaNIsNotSame(s: Value, t: Value)
    requires Same(s, t)
    ensures NaNFree(s) && NaNFree(t)
    decreases s
  {
    if s.List? {
      forall i | 0 <= i < |s.items| ensures NaNFree(s.items[i]) && NaNFree(t.items[i]) { NaNIsNotSame(s.items[i], t.items[i]); }
    } else if s.Map? {
      forall k | k in s.fields ensures NaNFree(s.fields[k]) && NaNFree(t.fields[k]) { NaNIsNotSame(s.fields[k], t.fields[k]); }
    }
  }

  lemma {:induction false} NeverSame(a: Value, b: Value, s: Value, t: Value)
    requires NaNMeetsNull(a, b) && Fillings(a, b, s, t)
    ensures !Same(s, t)
    decreases a
  {
    if a == Null || b == Null {
      if !NaNFree(a) { NaNStays(a, s); } else { NaNStays(b, t); }
      if Same(s, t) { NaNIsNotSame(s, t); }
    } else if a.List? {
      var i :| 0 <= i < |a.items| && NaNMeetsNull(a.items[i], b.items[i]);
      assert s.items[i] in s.items && t.items[i] in t.items;
      NeverSame(a.items[i], b.items[i], s.items[i], t.items[i]);
    } else {
      var k :| k in a.fields && NaNMeetsNull(a.fields[k], b.fields[k]);
      NeverSame(a.fields[k], b.fields[k], s.fields[k], t.fields[k]);
    }
  }

  /** Unless they differ, values can be filled in to be the same. */
  lemma {:induction false} CanBeSame(a: Value, b: Value) returns (s: Value, t: Value)
    requires CypherEqual(a, b) != False && !NaNMeetsNull(a, b)
    ensures Fillings(a, b, s, t) && Same(s, t)
    decreases a
  {
    if a == Null {
      FillIsFull(b);
      s, t := Fill(b), Fill(b);
      SameAsItself(t);
    } else if b == Null {
      FillIsFull(a);
      s, t := Fill(a), Fill(a);
      SameAsItself(s);
    } else if a.List? {
      ItemsEqual(a.items, b.items);
      var xs, ys := ItemsCanBeSame(a.items, b.items);
      s, t := List(xs), List(ys);
    } else if a.Map? {
      s, t := FieldsCanBeSame(a, b);
    } else {
      s, t := a, b;
      if a.Num? { NumbersSame(a.x, b.x); }
      RefinesItself(a);
      RefinesItself(b);
    }
  }

  lemma {:induction false} ItemsCanBeSame(a: seq<Value>, b: seq<Value>) returns (s: seq<Value>, t: seq<Value>)
    requires |a| == |b| && forall i | 0 <= i < |a| :: CypherEqual(a[i], b[i]) != False && !NaNMeetsNull(a[i], b[i])
    ensures |s| == |t| == |a| && forall i | 0 <= i < |a| :: Fillings(a[i], b[i], s[i], t[i]) && Same(s[i], t[i])
    decreases a
  {
    hide CypherEqual, NaNMeetsNull, Same, Fillings;
    if a == [] { return [], []; }
    var x, y := CanBeSame(a[0], b[0]);
    var xs, ys := ItemsCanBeSame(a[1..], b[1..]);
    s, t := [x] + xs, [y] + ys;
  }

  lemma {:induction false} FieldsCanBeSame(a: Value, b: Value) returns (s: Value, t: Value)
    requires a.Map? && b.Map? && CypherEqual(a, b) != False && !NaNMeetsNull(a, b)
    ensures Fillings(a, b, s, t) && Same(s, t)
    decreases a, 0
  {
    assert a.fields.Keys == b.fields.Keys && forall k | k in a.fields :: CypherEqual(a.fields[k], b.fields[k]) != False && !NaNMeetsNull(a.fields[k], b.fields[k]);
    hide CypherEqual, NaNMeetsNull, Fillings, Same;
    var todo := a.fields.Keys;
    var x: map<string, Value>, y: map<string, Value> := map[], map[];
    while todo != {}
      invariant todo <= a.fields.Keys && x.Keys == y.Keys == a.fields.Keys - todo
      invariant forall k | k in x :: Fillings(a.fields[k], b.fields[k], x[k], y[k]) && Same(x[k], y[k])
    {
      var k :| k in todo;
      var u, v := CanBeSame(a.fields[k], b.fields[k]);
      x, y, todo := x[k := u], y[k := v], todo - {k};
    }
    FieldsFilled(a, b, x, y);
    return Map(x), Map(y);
  }

  lemma FieldsFilled(a: Value, b: Value, x: map<string, Value>, y: map<string, Value>)
    requires a.Map? && b.Map? && a.fields.Keys == b.fields.Keys == x.Keys == y.Keys
    requires forall k | k in x :: Fillings(a.fields[k], b.fields[k], x[k], y[k])
    ensures Fillings(a, b, Map(x), Map(y))
    ensures Same(Map(x), Map(y)) <==> forall k | k in x :: Same(x[k], y[k])
  {
  }

  /** A value unlike the given one. */
  function Unlike(v: Value): (u: Value)
    ensures NullFree(u) && !Same(u, v) && !Same(v, u)
  {
    if v.Str? then Bool(true) else Str("")
  }

  lemma NullUnlike(a: Value, b: Value)
    ensures a == Null ==> Fillings(a, b, Unlike(Fill(b)), Fill(b))
    ensures b == Null ==> Fillings(a, b, Fill(a), Unlike(Fill(a)))
  {
    FillIsFull(a);
    FillIsFull(b);
  }

  /** Unless they are equal, values can be filled in to differ. */
  lemma {:induction false} CanDiffer(a: Value, b: Value) returns (s: Value, t: Value)
    requires CypherEqual(a, b) != True
    ensures Fillings(a, b, s, t) && !Same(s, t)
    decreases a
  {
    BothFilled(a, b);
    s, t := Fill(a), Fill(b);
    NullUnlike(a, b);
    hide Fillings, Fill, Same;
    if a == Null {
      s := Unlike(t);
    } else if b == Null {
      t := Unlike(s);
    } else if a.List? && b.List? && |a.items| == |b.items| {
      ItemsEqual(a.items, b.items);
      assert CypherEqual(a, b) == EqualItems(a.items, b.items);
      hide CypherEqual, Fillings, Same;
      var i :| 0 <= i < |a.items| && CypherEqual(a.items[i], b.items[i]) != True;
      var x, y := CanDiffer(a.items[i], b.items[i]);
      s, t := ReplaceItem(a, b, i, x, y);
    } else if a.Map? && b.Map? && a.fields.Keys == b.fields.Keys {
      assert exists k :: k in a.fields && CypherEqual(a.fields[k], b.fields[k]) != True;
      hide CypherEqual, Fillings, Same;
      var k :| k in a.fields && CypherEqual(a.fields[k], b.fields[k]) != True;
      var x, y := CanDiffer(a.fields[k], b.fields[k]);
      s, t := ReplaceField(a, b, k, x, y);
    } else {
      FilledDiffer(a, b);
    }
  }

  lemma FilledDiffer(a: Value, b: Value)
    requires CypherEqual(a, b) == False
    ensures !Same(Fill(a), Fill(b))
  {
    FillIsFull(a);
    FillIsFull(b);
    hide CypherEqual, Fill, Same;
    EqualIsMonotone(a, b, Fill(a), Fill(b));
    EqualIsSame(Fill(a), Fill(b));
  }

  lemma ReplaceItem(a: Value, b: Value, i: nat, x: Value, y: Value) returns (s: Value, t: Value)
    requires a.List? && b.List? && |a.items| == |b.items| && i < |a.items| && Fillings(a.items[i], b.items[i], x, y) && !Same(x, y)
    ensures Fillings(a, b, s, t) && !Same(s, t)
  {
    forall j | 0 <= j < |a.items| ensures NullFree(Fills(a.items)[j]) && Refines(a.items[j], Fills(a.items)[j]) { FillIsFull(a.items[j]); }
    forall j | 0 <= j < |b.items| ensures NullFree(Fills(b.items)[j]) && Refines(b.items[j], Fills(b.items)[j]) { FillIsFull(b.items[j]); }
    s, t := List(Fills(a.items)[i := x]), List(Fills(b.items)[i := y]);
  }

  lemma ReplaceField(a: Value, b: Value, k: string, x: Value, y: Value) returns (s: Value, t: Value)
    requires a.Map? && b.Map? && a.fields.Keys == b.fields.Keys && k in a.fields && Fillings(a.fields[k], b.fields[k], x, y) && !Same(x, y)
    ensures Fillings(a, b, s, t) && !Same(s, t)
  {
    hide Fillings, Same;
    var x' := (map j | j in a.fields :: Fill(a.fields[j]))[k := x];
    var y' := (map j | j in b.fields :: Fill(b.fields[j]))[k := y];
    forall j | j in x' ensures Fillings(a.fields[j], b.fields[j], x'[j], y'[j]) {
      if j != k { BothFilled(a.fields[j], b.fields[j]); }
    }
    FieldsFilled(a, b, x', y');
    return Map(x'), Map(y');
  }

  lemma BothFilled(a: Value, b: Value)
    ensures Fillings(a, b, Fill(a), Fill(b))
  {
    FillIsFull(a);
    FillIsFull(b);
  }

  /** Equality is true, or false, exactly when the values are the same, or not, however
      their nulls are filled in; except that it stays unknown where a null stands against a
      NaN, which equals nothing. */
  lemma EqualIsExact(a: Value, b: Value)
    ensures CypherEqual(a, b) == True <==> forall s, t | Fillings(a, b, s, t) :: Same(s, t)
    ensures CypherEqual(a, b) == False ==> forall s, t | Fillings(a, b, s, t) :: !Same(s, t)
    ensures (CypherEqual(a, b) == False <==> forall s, t | Fillings(a, b, s, t) :: !Same(s, t))
            <==> !(CypherEqual(a, b) == Unknown && NaNMeetsNull(a, b))
  {
    forall s, t | Fillings(a, b, s, t) ensures RefinesTri(CypherEqual(a, b), Of(Same(s, t))) {
      EqualIsMonotone(a, b, s, t);
      EqualIsSame(s, t);
    }
    BothFilled(a, b);
    hide CypherEqual, Fillings, Same, NaNMeetsNull;
    if CypherEqual(a, b) != True { var s, t := CanDiffer(a, b); }
    if NaNMeetsNull(a, b) {
      forall s, t | Fillings(a, b, s, t) ensures !Same(s, t) { NeverSame(a, b, s, t); }
    } else if CypherEqual(a, b) != False { var s, t := CanBeSame(a, b); }
  }

  /** NaN = null is null, though NaN equals nothing. */
  lemma NaNIsUnknown()
    ensures var nan := Num(Float(NaN));
            CypherEqual(nan, Null) == Unknown && forall s, t | Fillings(nan, Null, s, t) :: !Same(s, t)
  {
    EqualIsExact(Num(Float(NaN)), Null);
  }

  // ---- evaluated equality, IN and list predicates ----

  /** = and <> of evaluated operands without nulls. */
  lemma EvalEquality(l: Expr, r: Expr, row: Row, x: Value, y: Value)
    requires Eval(l, row) == Ok(x) && Eval(r, row) == Ok(y)
    ensures NullFree(x) && NullFree(y) ==> Eval(Equal(l, r), row) == Ok(Bool(Same(x, y))) && Eval(NotEqual(l, r), row) == Ok(Bool(!Same(x, y)))
    ensures Eval(Equal(l, r), row).Ok? && Eval(NotEqual(l, r), row).Ok?
    ensures Eval(Equal(l, r), row).value == Bool(true) <==> forall s, t | Fillings(x, y, s, t) :: Same(s, t)
    ensures (Eval(Equal(l, r), row).value == Bool(false) <==> forall s, t | Fillings(x, y, s, t) :: !Same(s, t))
            <==> !(Eval(Equal(l, r), row).value == Null && NaNMeetsNull(x, y))
    ensures Eval(NotEqual(l, r), row).value == Bool(true) <==> Eval(Equal(l, r), row).value == Bool(false)
    ensures Eval(NotEqual(l, r), row).value == Null <==> Eval(Equal(l, r), row).value == Null
  {
    EqualityAnswers(l, r, row, x, y);
    if NullFree(x) && NullFree(y) { EqualIsSame(x, y); }
    EqualIsExact(x, y);
    hide Eval, CypherEqual, Fillings, Same, NullFree, NaNMeetsNull;
  }

  lemma EqualityAnswers(l: Expr, r: Expr, row: Row, x: Value, y: Value)
    requires Eval(l, row) == Ok(x) && Eval(r, row) == Ok(y)
    ensures Eval(Equal(l, r), row) == Ok(Answer(CypherEqual(x, y)))
    ensures Eval(NotEqual(l, r), row) == Ok(Answer(Negate(CypherEqual(x, y))))
  {
    hide CypherEqual, Answer, Negate;
  }

  ghost predicate AnyItem(items: seq<Value>, needle: Value) {
    exists i :: 0 <= i < |items| && Same(items[i], needle)
  }

  /** IN over a list without nulls says whether an item is the same value. */
  lemma ContainsIsSame(items: seq<Value>, needle: Value)
    requires NullFree(needle) && NullFree(List(items))
    ensures Contains(items, needle) == Of(AnyItem(items, needle))
  {
    forall i | 0 <= i < |items| ensures CypherEqual(items[i], needle) == Of(Same(items[i], needle)) {
      assert items[i] in items;
      EqualIsSame(items[i], needle);
    }
    hide CypherEqual, Same;
  }

  /** IN is true exactly if some item equals the needle whatever the nulls are, and false
      exactly if none can. */
  lemma ContainsIsExact(items: seq<Value>, needle: Value)
    ensures Contains(items, needle) == True <==> exists i :: 0 <= i < |items| && CypherEqual(items[i], needle) == True
    ensures Contains(items, needle) == False <==> forall i | 0 <= i < |items| :: CypherEqual(items[i], needle) == False
  {
    hide CypherEqual;
  }

  lemma EvalMembership(l: Expr, r: Expr, row: Row, x: Value, y: Value)
    requires Eval(l, row) == Ok(x) && Eval(r, row) == Ok(y)
    ensures y.List? && NullFree(x) && NullFree(y) ==>
              Eval(In(l, r), row) == Ok(Bool(AnyItem(y.items, x))) && Eval(NotIn(l, r), row) == Ok(Bool(!AnyItem(y.items, x)))
    ensures y == Null ==> Eval(In(l, r), row) == Ok(Null) && Eval(NotIn(l, r), row) == Ok(Null)
    ensures y != Null && !y.List? ==> Eval(In(l, r), row).Err? && Eval(NotIn(l, r), row).Err?
  {
    MembershipIs(l, r, row, x, y);
    if y.List? && NullFree(x) && NullFree(y) { ContainsIsSame(y.items, x); }
    hide Eval, Contains, NullFree, AnyItem;
  }

  lemma MembershipIs(l: Expr, r: Expr, row: Row, x: Value, y: Value)
    requires Eval(l, row) == Ok(x) && Eval(r, row) == Ok(y)
    ensures Eval(In(l, r), row) == Membership(x, y, false) && Eval(NotIn(l, r), row) == Membership(x, y, true)
  {
    hide Membership;
  }

  /** any, all, none and single over items whose predicate is a boolean. */
  lemma EvalQuantifier(q: Quantifier, name: string, list: Expr, where: Expr, row: Row, items: seq<Value>, known: seq<bool>)
    requires Eval(list, row) == Ok(List(items)) && |known| == |items|
    requires forall i | 0 <= i < |items| :: Eval(where, row[name := items[i]]) == Ok(Bool(known[i]))
    ensures Eval(Quantified(q, name, list, where), row) == Ok(Bool(Holds(q, known)))
  {
    EachIs(where, row, name, items, known);
    var results := EvalEach(where, row, name, items);
    DecideIsExact(q, results.value);
    QuantifiedIs(q, name, list, where, row, items);
    hide Eval, EvalEach, Decide, Holds;
    assert Settles(known, results.value);
    forall other | Settles(other, results.value) ensures other == known {
      forall i | 0 <= i < |known| ensures other[i] == known[i] { assert results.value[i] == Of(known[i]); }
    }
  }

  lemma QuantifiedIs(q: Quantifier, name: string, list: Expr, where: Expr, row: Row, items: seq<Value>)
    requires Eval(list, row) == Ok(List(items)) && EvalEach(where, row, name, items).Ok?
    ensures Eval(Quantified(q, name, list, where), row) == Ok(Answer(Decide(q, EvalEach(where, row, name, items).value)))
  {
    hide Decide, Answer;
  }

  lemma {:induction false} EachIs(where: Expr, row: Row, name: string, items: seq<Value>, known: seq<bool>)
    requires |known| == |items| && forall i | 0 <= i < |items| :: Eval(where, row[name := items[i]]) == Ok(Bool(known[i]))
    ensures var r := EvalEach(where, row, name, items);
            r.Ok? && |r.value| == |known| && forall i | 0 <= i < |known| :: r.value[i] == Of(known[i])
    decreases |items|
  {
    if items != [] {
      assert Eval(where, row[name := items[0]]) == Ok(Bool(known[0]));
      forall i | 0 <= i < |items[1..]| ensures Eval(where, row[name := items[1..][i]]) == Ok(Bool(known[1..][i])) { assert items[1..][i] == items[i + 1]; }
      EachIs(where, row, name, items[1..], known[1..]);
    }
  }

  /** A constant is its value, a variable that of its row, and a list has its elements. */
  lemma {:induction false} EvalElements(elements: seq<Expr>, row: Row, values: seq<Value>)
    requires |values| == |elements| && forall i | 0 <= i < |elements| :: Eval(elements[i], row) == Ok(values[i])
    ensures Eval(ListOf(elements), row) == Ok(List(values))
    decreases |elements|
  {
    AllAre(elements, row, values);
  }

  lemma {:induction false} AllAre(elements: seq<Expr>, row: Row, values: seq<Value>)
    requires |values| == |elements| && forall i | 0 <= i < |elements| :: Eval(elements[i], row) == Ok(values[i])
    ensures EvalAll(elements, row) == Ok(values)
    decreases |elements|
  {
    if elements != [] {
      AllAre(elements[1..], row, values[1..]);
      assert values == [values[0]] + values[1..];
    }
  }
}
