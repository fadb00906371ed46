/** buildPropertyScanPlan and numericIndexCandidates: turning a pattern's property
    constraints into exact index lookups, and counting with them. */
module NumericIndex {
  import opened Base
  import opened Text
  import opened Sorted
  import opened Numbers

  // ---- doubles that exist ----

  function Pow2(e: int): real
    decreases if e < 0 then -e else e
  {
    if e == 0 then 1.0 else if e > 0 then 2.0 * Pow2(e - 1) else Pow2(e + 1) / 2.0
  }

  /** A magnitude a double can hold: 53 bits times a power of two. */
  ghost predicate Representable(size: real) {
    exists m: nat, e: int {:trigger Scaled(m, e)} :: m < 0x20_0000_0000_0000 && -1074 <= e <= 971 && size == Scaled(m, e)
  }

  function Scaled(m: nat, e: int): real {
    m as real * Pow2(e)
  }

  ghost predicate IsDouble(d: Double) {
    d.Finite? ==> d.size >= 0.0 && Representable(d.size)
  }

  ghost predicate Stored(x: Number) {
    match x
    case Integer(n) => IsInt64(n)
    case Float(d) => IsDouble(d)
  }

  /** Conversion of an integer: exact when the integer is a double, positive zero
      for zero, some double otherwise. */
  ghost predicate Rounds(toFloat: int -> Double) {
    forall n | IsInt64(n) ::
      && toFloat(n).Finite? && IsDouble(toFloat(n))
      && (Representable(Size(n)) ==> toFloat(n) == Finite(n < 0, Size(n)))
  }

  function Size(n: int): real {
    (if n < 0 then -n else n) as real
  }

  // ---- candidates ----

  function EquivalentFloats(d: Double): seq<Number> {
    if d.Finite? && d.size == 0.0 then [Float(Finite(false, 0.0)), Float(Finite(true, 0.0))] else [Float(d)]
  }

  /** The integer a finite double is, if it is one in range. */
  function WholeNumber(d: Double): Option<int> {
    if d.Finite? && MIN_INT64 as real <= ValueOf(d) < -(MIN_INT64 as real) && ValueOf(d).Floor as real == ValueOf(d)
    then Some(ValueOf(d).Floor) else None
  }

  /** numericIndexCandidates; no candidates for NaN. */
  function Candidates(x: Number, toFloat: int -> Double): seq<Number> {
    if IsNaN(x) then []
    else
      match x
      case Integer(n) =>
        [x] + (if CompareNumbers(x, Float(toFloat(n))) == Some(0) then EquivalentFloats(toFloat(n)) else [])
      case Float(d) =>
        EquivalentFloats(d) + (if WholeNumber(d).Some? then [Integer(WholeNumber(d).value)] else [])
  }

  lemma EqualFloatsAreEquivalent(a: Double, b: Double)
    requires IsDouble(a) && IsDouble(b) && !a.NaN? && !b.NaN?
    ensures EqualNumbers(Float(a), Float(b)) <==> Float(b) in EquivalentFloats(a)
  {
    if a.Finite? && b.Finite? && a.size != 0.0 && ValueOf(a) == ValueOf(b) {
      assert a.negative == b.negative && a.size == b.size;
    }
  }

  lemma WholeNumberIs(d: Double, n: int)
    requires IsDouble(d) && IsInt64(n)
    ensures EqualNumbers(Float(d), Integer(n)) <==> WholeNumber(d) == Some(n)
  {
    if d.Finite? && ValueOf(d) == n as real {
      assert ValueOf(d).Floor == n;
    }
  }

  lemma IntegerFloats(n: int, d: Double, toFloat: int -> Double)
    requires IsInt64(n) && IsDouble(d) && !d.NaN? && Rounds(toFloat) && EqualNumbers(Integer(n), Float(d))
    ensures EqualNumbers(Integer(n), Float(toFloat(n))) && Float(d) in EquivalentFloats(toFloat(n))
  {
    assert d.Finite? && d.size == Size(n);
    assert Representable(Size(n));
    assert toFloat(n) == Finite(n < 0, Size(n));
  }

  /** Exactly the stored representations numerically equal to the value. */
  lemma CandidatesAreExact(x: Number, y: Number, toFloat: int -> Double)
    requires Stored(x) && Stored(y) && Rounds(toFloat)
    ensures y in Candidates(x, toFloat) <==> EqualNumbers(x, y)
  {
    if !IsNaN(x) && !IsNaN(y) {
      match (x, y)
      case (Integer(m), Integer(n)) => IntegersOnly(m, n, toFloat);
      case (Integer(m), Float(d)) => IntegerAndFloat(m, d, toFloat);
      case (Float(d), Float(f)) => EqualFloatsAreEquivalent(d, f);
      case (Float(d), Integer(n)) => WholeNumberIs(d, n);
    }
  }

  lemma IntegersOnly(m: int, n: int, toFloat: int -> Double)
    ensures Integer(n) in Candidates(Integer(m), toFloat) <==> m == n
  {
  }

  lemma IntegerAndFloat(m: int, d: Double, toFloat: int -> Double)
    requires IsInt64(m) && IsDouble(d) && !d.NaN? && Rounds(toFloat)
    ensures Float(d) in Candidates(Integer(m), toFloat) <==> EqualNumbers(Integer(m), Float(d))
  {
    if EqualNumbers(Integer(m), Float(d)) { IntegerFloats(m, d, toFloat); }
    if Float(d) in Candidates(Integer(m), toFloat) {
      EqualFloatsAreEquivalent(toFloat(m), d);
      SameComparison(m, toFloat(m), d);
    }
  }

  lemma SameComparison(m: int, a: Double, b: Double)
    requires !a.NaN? && !b.NaN? && EqualNumbers(Integer(m), Float(a)) && EqualNumbers(Float(a), Float(b))
    ensures EqualNumbers(Integer(m), Float(b))
  {
  }

  lemma CandidatesOnce(x: Number, toFloat: int -> Double)
    ensures NoDup(Candidates(x, toFloat))
  {
  }

  // ---- property constraints ----

  /** Property values; lists only as far as they can equal byte strings. */
  datatype Prop = Nil | Str(s: string) | Bool(b: bool) | Bytes(bytes: seq<int>) | Num(x: Number) | List(items: seq<Prop>)

  predicate BytesEqualItems(bytes: seq<int>, items: seq<Prop>) {
    |bytes| == |items| && forall i | 0 <= i < |bytes| :: items[i].Num? && EqualNumbers(Integer(bytes[i]), items[i].x)
  }

  /** equalValues: numbers by value, a byte string like the list of its bytes. */
  predicate EqualProps(a: Prop, b: Prop)
    decreases a
  {
    if a.Num? && b.Num? then EqualNumbers(a.x, b.x)
    else if a.Bytes? && b.List? then BytesEqualItems(a.bytes, b.items)
    else if a.List? && b.Bytes? then BytesEqualItems(b.bytes, a.items)
    else if a.List? && b.List? then |a.items| == |b.items| && forall i | 0 <= i < |a.items| :: EqualProps(a.items[i], b.items[i])
    else a == b
  }

  /** An entity: its properties, and the field a special name stands for. */
  datatype Entity = Entity(special: Prop, properties: map<string, Prop>)

  function PropertyOf(e: Entity, k: string, special: string): Prop {
    if k == special then e.special else if k in e.properties then e.properties[k] else Nil
  }

  predicate Matches(e: Entity, wanted: map<string, Prop>, special: string) {
    forall k | k in wanted :: PropertyOf(e, k, special) != Nil && wanted[k] != Nil && EqualProps(PropertyOf(e, k, special), wanted[k])
  }

  /** The index compares representations. */
  predicate Satisfies(e: Entity, exact: map<string, Prop>) {
    forall k | k in exact :: k in e.properties && e.properties[k] == exact[k]
  }

  ghost predicate StoredEntity(e: Entity) {
    forall k | k in e.properties :: e.properties[k].Num? ==> Stored(e.properties[k].x)
  }

  predicate StoreExact(v: Prop) {
    v.Bool? || v.Str? || v.Bytes?
  }

  // ---- what the matcher takes for equal ----

  /** A value as lists and scalars: a byte string is the list of its bytes. */
  function Unpacked(v: Prop): (plain: Prop)
    ensures !plain.Bytes?
    ensures v.List? ==> plain.List? && |plain.items| == |v.items| && forall i | 0 <= i < |v.items| :: plain.items[i] == Unpacked(v.items[i])
    decreases v
  {
    match v
    case Bytes(bytes) => List(seq(|bytes|, i requires 0 <= i < |bytes| => Num(Integer(bytes[i]))))
    case List(items) => List(seq(|items|, i requires 0 <= i < |items| => Unpacked(items[i])))
    case _ => v
  }

  /** Equal as unpacked: numbers at one place, lists item by item, and otherwise the same. */
  predicate SameProp(a: Prop, b: Prop)
    decreases a
  {
    match (a, b)
    case (Num(x), Num(y)) => !IsNaN(x) && !IsNaN(y) && PlaceOf(x) == PlaceOf(y)
    case (List(xs), List(ys)) => |xs| == |ys| && forall i | 0 <= i < |xs| :: SameProp(xs[i], ys[i])
    case _ => a == b
  }

  lemma NumbersAreSame(a: Number, b: Number)
    ensures EqualNumbers(a, b) <==> !IsNaN(a) && !IsNaN(b) && PlaceOf(a) == PlaceOf(b)
  {
    CompareIsByPlace(a, b);
    if !IsNaN(a) && !IsNaN(b) { PlacesAreOrdered(PlaceOf(a), PlaceOf(b), PlaceOf(b)); }
  }

  lemma BytesAreItems(bytes: seq<int>, items: seq<Prop>)
    ensures BytesEqualItems(bytes, items) <==> SameProp(Unpacked(Bytes(bytes)), Unpacked(List(items)))
    ensures BytesEqualItems(bytes, items) <==> SameProp(Unpacked(List(items)), Unpacked(Bytes(bytes)))
  {
    if |bytes| == |items| {
      forall i | 0 <= i < |bytes|
        ensures items[i].Num? && EqualNumbers(Integer(bytes[i]), items[i].x) <==> SameProp(Num(Integer(bytes[i])), Unpacked(items[i]))
        ensures items[i].Num? && EqualNumbers(Integer(bytes[i]), items[i].x) <==> SameProp(Unpacked(items[i]), Num(Integer(bytes[i])))
      {
        if items[i].Num? { NumbersAreSame(Integer(bytes[i]), items[i].x); }
      }
    }
    hide EqualNumbers, PlaceOf;
  }

  lemma {:induction false} EqualIsSame(a: Prop, b: Prop)
    ensures EqualProps(a, b) <==> SameProp(Unpacked(a), Unpacked(b))
    decreases a
  {
    hide EqualNumbers, PlaceOf;
    match (a, b)
    case (Num(x), Num(y)) => NumbersAreSame(x, y);
    case (Bytes(bytes), List(items)) => BytesAreItems(bytes, items);
    case (List(items), Bytes(bytes)) => BytesAreItems(bytes, items);
    case (List(xs), List(ys)) =>
      if |xs| == |ys| {
        forall i | 0 <= i < |xs| ensures EqualProps(xs[i], ys[i]) <==> SameProp(Unpacked(xs[i]), Unpacked(ys[i])) { EqualIsSame(xs[i], ys[i]); }
      }
    case (Bytes(x), Bytes(y)) => SameBytesAre(x, y);
    case _ =>
  }

  lemma SameBytesAre(a: seq<int>, b: seq<int>)
    ensures a == b <==> SameProp(Unpacked(Bytes(a)), Unpacked(Bytes(b)))
  {
    var (x, y) := (Unpacked(Bytes(a)).items, Unpacked(Bytes(b)).items);
    if SameProp(Unpacked(Bytes(a)), Unpacked(Bytes(b))) {
      forall i | 0 <= i < |a| ensures a[i] == b[i] { assert SameProp(x[i], y[i]); }
    }
  }

  /** A map asks for values under its keys, none of them null; the special key stands for
      a field, every other one for a property. */
  predicate AsksFor(e: Entity, wanted: map<string, Prop>, special: string) {
    forall k | k in wanted :: !wanted[k].Nil? &&
      if k == special then !e.special.Nil? && SameProp(Unpacked(e.special), Unpacked(wanted[k]))
      else k in e.properties && !e.properties[k].Nil? && SameProp(Unpacked(e.properties[k]), Unpacked(wanted[k]))
  }

  lemma MatchesMeans(e: Entity, wanted: map<string, Prop>, special: string)
    ensures Matches(e, wanted, special) <==> AsksFor(e, wanted, special)
  {
    hide EqualProps, SameProp, Unpacked;
    forall k | k in wanted
      ensures PropertyOf(e, k, special) != Nil && wanted[k] != Nil && EqualProps(PropertyOf(e, k, special), wanted[k])
              <==> !wanted[k].Nil? &&
                   if k == special then !e.special.Nil? && SameProp(Unpacked(e.special), Unpacked(wanted[k]))
                   else k in e.properties && !e.properties[k].Nil? && SameProp(Unpacked(e.properties[k]), Unpacked(wanted[k]))
    {
      EqualIsSame(PropertyOf(e, k, special), wanted[k]);
    }
  }

  // ---- the plan ----

  const MAX_TERMS := 256

  /** numericKey is the key of the constraint that the alternatives spell out; an empty
      one stands for none. */
  datatype Plan = Plan(base: map<string, Prop>, alternatives: seq<map<string, Prop>>, numericKey: string, complete: bool, empty: bool)

  function WithNumber(base: map<string, Prop>, key: string, values: seq<Number>): (maps: seq<map<string, Prop>>)
    ensures |maps| == |values| && forall i | 0 <= i < |values| :: maps[i] == base[key := Num(values[i])]
  {
    if values == [] then [] else [base[key := Num(values[0])]] + WithNumber(base, key, values[1..])
  }

  /** The first number in key order, if there is one. */
  ghost predicate IsFirstNumber(wanted: map<string, Prop>, special: string, key: Option<string>) {
    match key
    case None => forall j | j in wanted :: !IsNumber(wanted, special, j)
    case Some(k) => k in wanted && IsNumber(wanted, special, k) && forall j | j in wanted && IsNumber(wanted, special, j) :: j == k || Less(k, j)
  }

  predicate IsNumber(wanted: map<string, Prop>, special: string, k: string)
    requires k in wanted
  {
    k != special && wanted[k].Num?
  }

  /** The key kept for the first number; as an empty one stands for no number, one
      under the empty key is not told from none. */
  ghost predicate IsNumericKey(wanted: map<string, Prop>, special: string, key: string) {
    if key != "" then IsFirstNumber(wanted, special, Some(key))
    else IsFirstNumber(wanted, special, None) || IsFirstNumber(wanted, special, Some(""))
  }

  /** The first number asked for is NaN. */
  ghost predicate StartsWithNaN(wanted: map<string, Prop>, special: string) {
    exists k :: k in wanted && IsFirstNumber(wanted, special, Some(k)) && IsNaN(wanted[k].x)
  }

  predicate IsExact(wanted: map<string, Prop>, special: string, numericKey: string, k: string)
    requires k in wanted
  {
    k != numericKey && k != special && StoreExact(wanted[k])
  }

  /** The constraints of exact kinds; of too many of them, the first ones. */
  ghost predicate IsBase(wanted: map<string, Prop>, special: string, numericKey: string, limit: nat, base: map<string, Prop>) {
    && (forall k | k in base :: k in wanted && IsExact(wanted, special, numericKey, k) && base[k] == wanted[k])
    && (forall j | j in wanted && IsExact(wanted, special, numericKey, j) && j !in base :: |base| == limit && forall k | k in base :: Less(k, j))
  }

  function Limit(numericKey: string): nat {
    if numericKey != "" then MAX_TERMS - 1 else MAX_TERMS
  }

  /** What the plan is for given constraints. */
  ghost predicate IsPlan(wanted: map<string, Prop>, special: string, toFloat: int -> Double, plan: Plan) {
    && IsNumericKey(wanted, special, plan.numericKey)
    && (plan.empty <==> StartsWithNaN(wanted, special))
    && if plan.empty then plan.alternatives == [] && plan.base == map[] && plan.complete
       else
         && IsBase(wanted, special, plan.numericKey, Limit(plan.numericKey), plan.base) && |plan.base| <= Limit(plan.numericKey)
         && plan.alternatives == (if plan.numericKey == "" then [plan.base]
                                  else WithNumber(plan.base, plan.numericKey, Candidates(wanted[plan.numericKey].x, toFloat)))
         && (plan.complete <==> forall k | k in wanted :: k in plan.base || k == plan.numericKey)
  }

  /** buildPropertyScanPlan over the constraints in key order: the first number
      becomes alternatives, exact kinds go into the base, the rest is left over. */
  method BuildPlan(wanted: map<string, Prop>, special: string, toFloat: int -> Double) returns (plan: Plan)
    ensures IsPlan(wanted, special, toFloat, plan)
  {
    hide Less, Candidates, Limit, IsBase;
    if wanted == map[] {
      NoConstraints(special);
      return Plan(map[], [map[]], "", true, false);
    }
    var keys := SortedIds(wanted.Keys);
    SortedHolds(wanted.Keys);
    var first := FirstNumber(wanted, special, keys);
    FirstIsOnly(wanted, special, first);
    var numericKey := if first.Some? then first.value else "";
    if first.Some? && IsNaN(wanted[first.value].x) { return Plan(map[], [], numericKey, true, true); }
    var base, complete := BuildBase(wanted, special, keys, numericKey);
    if numericKey == "" { return Plan(base, [base], numericKey, complete, false); }
    return Plan(base, WithNumber(base, numericKey, Candidates(wanted[numericKey].x, toFloat)), numericKey, complete, false);
  }

  lemma NoConstraints(special: string)
    ensures IsBase(map[], special, "", Limit(""), map[]) && IsNumericKey(map[], special, "") && !StartsWithNaN(map[], special)
  {
  }

  lemma FirstIsOnly(wanted: map<string, Prop>, special: string, first: Option<string>)
    requires IsFirstNumber(wanted, special, first)
    ensures forall k | k in wanted && IsFirstNumber(wanted, special, Some(k)) :: first == Some(k)
  {
    forall k | k in wanted && IsFirstNumber(wanted, special, Some(k)) ensures first == Some(k) {
      if first.Some? { CompareFlips(k, first.value); CompareEqual(k, first.value); }
    }
  }

  method FirstNumber(wanted: map<string, Prop>, special: string, keys: seq<string>) returns (key: Option<string>)
    requires Increasing(keys) && forall k :: k in keys <==> k in wanted
    ensures IsFirstNumber(wanted, special, key)
  {
    hide Less, IsNumber;
    for i := 0 to |keys|
      invariant forall j | 0 <= j < i :: !IsNumber(wanted, special, keys[j])
    {
      assert keys[i] in keys;
      if IsNumber(wanted, special, keys[i]) { return Some(keys[i]); }
    }
    return None;
  }

  method BuildBase(wanted: map<string, Prop>, special: string, keys: seq<string>, numericKey: string)
      returns (base: map<string, Prop>, complete: bool)
    requires Increasing(keys) && forall k :: k in keys <==> k in wanted
    ensures IsBase(wanted, special, numericKey, Limit(numericKey), base) && |base| <= Limit(numericKey)
    ensures complete <==> forall k | k in wanted :: k in base || k == numericKey
  {
    hide *;
    var limit := Limit(numericKey);
    base, complete := map[], true;
    NothingTaken(wanted, special, numericKey, keys, limit);
    for i := 0 to |keys|
      invariant Taken(wanted, special, numericKey, keys, i, limit, base)
      invariant complete <==> AllUsed(keys, i, numericKey, base)
    {
      var key := keys[i];
      assert key in keys;
      NumberIsPassed(wanted, special, numericKey, key);
      if !IsExact(wanted, special, numericKey, key) || |base| == limit { PassedOver(wanted, special, numericKey, keys, i, limit, base); }
      if key == numericKey { continue; }
      if !IsExact(wanted, special, numericKey, key) || |base| == limit {
        complete := false;
        continue;
      }
      PutIn(wanted, special, numericKey, keys, i, limit, base);
      base := base[key := wanted[key]];
    }
    AllTaken(wanted, special, numericKey, keys, limit, base);
  }

  /** The base after some of the keys. */
  ghost predicate Taken(wanted: map<string, Prop>, special: string, numericKey: string, keys: seq<string>, i: nat, limit: nat, base: map<string, Prop>)
    requires i <= |keys| && forall k | k in keys :: k in wanted
  {
    |base| <= limit && Chosen(wanted, special, numericKey, keys[..i], base) && LeftAreLater(wanted, special, numericKey, keys[..i], limit, base)
  }

  ghost predicate Chosen(wanted: map<string, Prop>, special: string, numericKey: string, seen: seq<string>, base: map<string, Prop>) {
    forall k | k in base :: k in seen && k in wanted && IsExact(wanted, special, numericKey, k) && base[k] == wanted[k]
  }

  ghost predicate LeftAreLater(wanted: map<string, Prop>, special: string, numericKey: string, seen: seq<string>, limit: nat, base: map<string, Prop>) {
    forall j | j in seen && j in wanted && IsExact(wanted, special, numericKey, j) && j !in base :: |base| == limit && forall k | k in base :: Less(k, j)
  }

  ghost predicate AllUsed(keys: seq<string>, i: nat, numericKey: string, base: map<string, Prop>)
    requires i <= |keys|
  {
    forall j | 0 <= j < i :: keys[j] in base || keys[j] == numericKey
  }

  lemma NothingTaken(wanted: map<string, Prop>, special: string, numericKey: string, keys: seq<string>, limit: nat)
    requires forall k | k in keys :: k in wanted
    ensures Taken(wanted, special, numericKey, keys, 0, limit, map[]) && AllUsed(keys, 0, numericKey, map[])
  {
  }

  lemma NumberIsPassed(wanted: map<string, Prop>, special: string, numericKey: string, key: string)
    requires key in wanted
    ensures key == numericKey ==> !IsExact(wanted, special, numericKey, key)
  {
  }

  lemma PassedOver(wanted: map<string, Prop>, special: string, numericKey: string, keys: seq<string>, i: nat, limit: nat,
          base: map<string, Prop>)
    requires Increasing(keys) && i < |keys| && (forall k | k in keys :: k in wanted) && keys[i] in wanted
    requires Taken(wanted, special, numericKey, keys, i, limit, base) && (!IsExact(wanted, special, numericKey, keys[i]) || |base| == limit)
    ensures Taken(wanted, special, numericKey, keys, i + 1, limit, base)
    ensures AllUsed(keys, i + 1, numericKey, base) <==> AllUsed(keys, i, numericKey, base) && keys[i] == numericKey
  {
    KeyIsLater(keys, i);
    hide Less, Increasing, IsExact;
    assert keys[..i + 1] == keys[..i] + [keys[i]];
    assert keys[i] !in base;
    LeftOut(wanted, special, numericKey, keys[..i], keys[i], limit, base);
  }

  lemma LeftOut(wanted: map<string, Prop>, special: string, numericKey: string, seen: seq<string>, key: string, limit: nat, base: map<string, Prop>)
    requires Chosen(wanted, special, numericKey, seen, base) && LeftAreLater(wanted, special, numericKey, seen, limit, base)
    requires key in wanted && (forall k | k in seen :: Less(k, key)) && (!IsExact(wanted, special, numericKey, key) || |base| == limit)
    ensures Chosen(wanted, special, numericKey, seen + [key], base) && LeftAreLater(wanted, special, numericKey, seen + [key], limit, base)
  {
    hide Less, IsExact;
  }

  lemma PutIn(wanted: map<string, Prop>, special: string, numericKey: string, keys: seq<string>, i: nat, limit: nat,
          base: map<string, Prop>)
    requires Increasing(keys) && i < |keys| && (forall k | k in keys :: k in wanted) && keys[i] in wanted
    requires Taken(wanted, special, numericKey, keys, i, limit, base) && IsExact(wanted, special, numericKey, keys[i]) && |base| != limit
    ensures var more := base[keys[i] := wanted[keys[i]]];
            Taken(wanted, special, numericKey, keys, i + 1, limit, more)
            && (AllUsed(keys, i + 1, numericKey, more) <==> AllUsed(keys, i, numericKey, base))
  {
    KeyIsLater(keys, i);
    hide Less, Increasing, IsExact, Chosen, LeftAreLater;
    assert keys[..i + 1] == keys[..i] + [keys[i]];
    NotYetChosen(wanted, special, numericKey, keys[..i], base, keys[i]);
    OneKeyMore(base, keys[i], wanted[keys[i]]);
    OneChosen(wanted, special, numericKey, keys[..i], keys[i], limit, base);
    UsedBefore(keys, i, base, base[keys[i] := wanted[keys[i]]], numericKey);
  }

  lemma NotYetChosen(wanted: map<string, Prop>, special: string, numericKey: string, seen: seq<string>, base: map<string, Prop>, key: string)
    requires Chosen(wanted, special, numericKey, seen, base) && key !in seen
    ensures key !in base
  {
    hide IsExact;
  }

  lemma UsedBefore(keys: seq<string>, i: nat, base: map<string, Prop>, more: map<string, Prop>, numericKey: string)
    requires i < |keys| && keys[i] !in keys[..i] && more.Keys == base.Keys + {keys[i]}
    ensures AllUsed(keys, i + 1, numericKey, more) <==> AllUsed(keys, i, numericKey, base)
  {
    forall j | 0 <= j < i ensures keys[j] != keys[i] && (keys[j] in more <==> keys[j] in base) { assert keys[j] in keys[..i]; }
  }

  lemma OneChosen(wanted: map<string, Prop>, special: string, numericKey: string, seen: seq<string>, key: string, limit: nat, base: map<string, Prop>)
    requires Chosen(wanted, special, numericKey, seen, base) && LeftAreLater(wanted, special, numericKey, seen, limit, base)
    requires key in wanted && key !in seen && IsExact(wanted, special, numericKey, key) && |base| < limit
    ensures var more := base[key := wanted[key]];
            Chosen(wanted, special, numericKey, seen + [key], more) && LeftAreLater(wanted, special, numericKey, seen + [key], limit, more)
  {
    hide Less, IsExact;
  }

  lemma OneKeyMore(base: map<string, Prop>, k: string, v: Prop)
    requires k !in base
    ensures |base[k := v]| == |base| + 1 && base[k := v].Keys == base.Keys + {k}
  {
    var more := base[k := v];
    assert more.Keys == base.Keys + {k};
    assert |more| == |more.Keys| && |base| == |base.Keys|;
  }

  lemma KeyIsLater(keys: seq<string>, i: nat)
    requires Increasing(keys) && i < |keys|
    ensures keys[i] !in keys[..i] && forall k | k in keys[..i] :: Less(k, keys[i])
  {
    IncreasingNoDup(keys);
    hide Less;
  }

  lemma AllTaken(wanted: map<string, Prop>, special: string, numericKey: string, keys: seq<string>, limit: nat, base: map<string, Prop>)
    requires (forall k :: k in keys <==> k in wanted) && Taken(wanted, special, numericKey, keys, |keys|, limit, base)
    ensures IsBase(wanted, special, numericKey, limit, base) && |base| <= limit
    ensures AllUsed(keys, |keys|, numericKey, base) <==> forall k | k in wanted :: k in base || k == numericKey
  {
    hide Less, IsExact;
    forall j | j in wanted && IsExact(wanted, special, numericKey, j) && j !in base ensures |base| == limit && forall k | k in base :: Less(k, j) {
      assert j in keys;
    }
    forall k | k in wanted ensures exists j :: 0 <= j < |keys| && keys[j] == k { assert k in keys; }
    forall j | 0 <= j < |keys| ensures keys[j] in wanted { assert keys[j] in keys; }
  }

  /** The constraint under the empty key is passed over as if it were the number's: it
      is the first number itself, or there is no number. */
  predicate Drops(wanted: map<string, Prop>, special: string) {
    "" in wanted && (IsNumber(wanted, special, "") || forall j | j in wanted :: !IsNumber(wanted, special, j))
  }

  /** What is left of the constraints. */
  function Kept(wanted: map<string, Prop>, special: string): map<string, Prop> {
    if Drops(wanted, special) then wanted - {""} else wanted
  }

  lemma DropsIff(wanted: map<string, Prop>, special: string, numericKey: string)
    requires IsNumericKey(wanted, special, numericKey)
    ensures Drops(wanted, special) <==> "" in wanted && numericKey == ""
    ensures Kept(wanted, special) == if numericKey == "" then wanted - {""} else wanted
  {
    forall j: string ensures j == "" || (Less("", j) && !Less(j, "")) { EmptyIsLeast(j); }
    hide Less;
    assert numericKey == "" && "" !in wanted ==> wanted - {""} == wanted;
  }

  lemma EmptyIsLeast(j: string)
    ensures j == "" || (Less("", j) && !Less(j, ""))
  {
    CompareFlips("", j);
    CompareEqual("", j);
  }

  /** No special key, exact kinds and at most one number, and not too many; whatever
      stands under a key passed over does not count. */
  ghost predicate Indexable(wanted: map<string, Prop>, special: string) {
    && special !in Kept(wanted, special) && |Kept(wanted, special)| <= MAX_TERMS
    && (forall k | k in Kept(wanted, special) :: StoreExact(wanted[k]) || wanted[k].Num?)
    && (forall j, k | j in wanted && k in wanted && wanted[j].Num? && wanted[k].Num? :: j == k)
  }

  /** A plan is complete exactly for such constraints, and for those that nothing can
      meet as their first number is no number. */
  lemma CompleteIff(wanted: map<string, Prop>, special: string, toFloat: int -> Double, plan: Plan)
    requires IsPlan(wanted, special, toFloat, plan)
    ensures plan.complete <==> plan.empty || Indexable(wanted, special)
  {
    hide Less, Candidates, WithNumber, IsExact, StoreExact, IsNaN, IsNumericKey, Kept;
    if !plan.empty {
      if plan.complete {
        UsedIsIndexable(wanted, special, plan.numericKey, plan.base);
      }
      if Indexable(wanted, special) {
        forall k | k in wanted ensures k in plan.base || k == plan.numericKey {
          NothingLeft(wanted, special, plan.numericKey, plan.base, k);
        }
      }
    }
  }

  function Used(numericKey: string, base: map<string, Prop>): set<string> {
    base.Keys + if numericKey != "" then {numericKey} else {}
  }

  lemma UsedCount(wanted: map<string, Prop>, special: string, numericKey: string, base: map<string, Prop>)
    requires IsNumericKey(wanted, special, numericKey) && IsBase(wanted, special, numericKey, Limit(numericKey), base)
    ensures |Used(numericKey, base)| == |base| + MAX_TERMS - Limit(numericKey) && Used(numericKey, base) <= Kept(wanted, special).Keys
  {
    hide Less;
    DropsIff(wanted, special, numericKey);
    hide Kept;
    assert |base.Keys| == |base|;
  }

  lemma UsedIsIndexable(wanted: map<string, Prop>, special: string, numericKey: string, base: map<string, Prop>)
    requires IsNumericKey(wanted, special, numericKey) && IsBase(wanted, special, numericKey, Limit(numericKey), base) && |base| <= Limit(numericKey)
    requires forall k | k in wanted :: k in base || k == numericKey
    ensures Indexable(wanted, special)
  {
    hide *;
    UsedCount(wanted, special, numericKey, base);
    UsedKinds(wanted, special, numericKey, base);
    UsedIsKept(wanted, special, numericKey, base);
    LimitsAdd(numericKey);
    OneNumber(wanted, special, numericKey);
  }

  lemma UsedIsKept(wanted: map<string, Prop>, special: string, numericKey: string, base: map<string, Prop>)
    requires IsNumericKey(wanted, special, numericKey) && Used(numericKey, base) <= Kept(wanted, special).Keys
    requires forall k | k in wanted :: k in base || k == numericKey
    ensures |Used(numericKey, base)| == |Kept(wanted, special)|
  {
    DropsIff(wanted, special, numericKey);
    hide IsNumericKey, Kept;
    assert Used(numericKey, base) == Kept(wanted, special).Keys;
    assert |Kept(wanted, special).Keys| == |Kept(wanted, special)|;
  }

  lemma OneNumber(wanted: map<string, Prop>, special: string, numericKey: string)
    requires special !in Kept(wanted, special) && |Kept(wanted, special)| <= MAX_TERMS
    requires forall k | k in Kept(wanted, special) :: k in wanted && (StoreExact(wanted[k]) || wanted[k].Num?)
    requires forall k | k in wanted && wanted[k].Num? :: k == numericKey
    ensures Indexable(wanted, special)
  {
    hide Kept, StoreExact;
  }

  lemma LimitsAdd(numericKey: string)
    ensures 0 <= MAX_TERMS - Limit(numericKey) <= 1
  {
  }

  lemma UsedKinds(wanted: map<string, Prop>, special: string, numericKey: string, base: map<string, Prop>)
    requires IsNumericKey(wanted, special, numericKey) && IsBase(wanted, special, numericKey, Limit(numericKey), base)
    requires forall k | k in wanted :: k in base || k == numericKey
    ensures special !in Kept(wanted, special)
    ensures forall k | k in Kept(wanted, special) :: k in wanted && (StoreExact(wanted[k]) || wanted[k].Num?)
    ensures forall k | k in wanted && wanted[k].Num? :: k == numericKey
  {
    hide Less, Limit;
    DropsIff(wanted, special, numericKey);
    hide Kept;
    forall k | k in wanted ensures k == numericKey || (k != special && StoreExact(wanted[k]) && !wanted[k].Num?) {
      if k != numericKey { assert IsExact(wanted, special, numericKey, k); }
    }
  }

  lemma NothingLeft(wanted: map<string, Prop>, special: string, numericKey: string, base: map<string, Prop>, k: string)
    requires IsNumericKey(wanted, special, numericKey) && IsBase(wanted, special, numericKey, Limit(numericKey), base) && |base| <= Limit(numericKey)
    requires Indexable(wanted, special) && k in wanted
    ensures k in base || k == numericKey
  {
    hide Less;
    UsedCount(wanted, special, numericKey, base);
    DropsIff(wanted, special, numericKey);
    hide Kept;
    var kept := Kept(wanted, special);
    assert |kept.Keys| == |kept|;
    if k !in base && k != numericKey {
      KeptIsExact(wanted, special, numericKey, k);
      assert |base| == Limit(numericKey);
      SubsetSize(Used(numericKey, base) + {k}, kept.Keys);
    }
  }

  lemma KeptIsExact(wanted: map<string, Prop>, special: string, numericKey: string, k: string)
    requires IsNumericKey(wanted, special, numericKey) && Indexable(wanted, special) && k in wanted && k != numericKey
    ensures IsExact(wanted, special, numericKey, k) && k in Kept(wanted, special)
  {
    hide Less;
    DropsIff(wanted, special, numericKey);
    hide Kept;
  }

  // ---- what the plan finds ----

  ghost predicate StoredWanted(wanted: map<string, Prop>) {
    forall k | k in wanted && wanted[k].Num? :: Stored(wanted[k].x)
  }

  predicate NoBytes(wanted: map<string, Prop>) {
    forall k | k in wanted :: !wanted[k].Bytes?
  }

  predicate Covers(plan: Plan, e: Entity) {
    exists i :: 0 <= i < |plan.alternatives| && Satisfies(e, plan.alternatives[i])
  }

  /** Wherever a byte string is asked for, the entity has it and not an equal list. */
  predicate HoldsBytes(e: Entity, base: map<string, Prop>) {
    forall k | k in base && base[k].Bytes? :: k in e.properties && e.properties[k] == base[k]
  }

  /** A match satisfies the base and one of the alternatives, and is not missed, unless
      it holds a list in the place of an equal byte string. */
  lemma PlanCovers(wanted: map<string, Prop>, special: string, toFloat: int -> Double, plan: Plan, e: Entity)
    requires IsPlan(wanted, special, toFloat, plan) && Rounds(toFloat) && StoredWanted(wanted) && StoredEntity(e)
    requires Matches(e, wanted, special)
    ensures !plan.empty
    ensures Satisfies(e, plan.base) && Covers(plan, e) <==> HoldsBytes(e, plan.base)
  {
    hide Less, Candidates, Stored, IsNumericKey, StartsWithNaN;
    FirstIsMet(wanted, special, e);
    if HoldsBytes(e, plan.base) {
      forall k | k in plan.base ensures k in e.properties && e.properties[k] == plan.base[k] {
        assert EqualProps(PropertyOf(e, k, special), wanted[k]);
      }
      KeptAndDropped(e, wanted, special);
      SomeAlternative(wanted, special, toFloat, plan, e);
    }
  }

  lemma FirstIsMet(wanted: map<string, Prop>, special: string, e: Entity)
    requires Matches(e, wanted, special)
    ensures !StartsWithNaN(wanted, special)
  {
    forall k | k in wanted && IsFirstNumber(wanted, special, Some(k)) ensures !IsNaN(wanted[k].x) {
      assert EqualProps(PropertyOf(e, k, special), wanted[k]);
    }
  }

  lemma SomeAlternative(wanted: map<string, Prop>, special: string, toFloat: int -> Double, plan: Plan, e: Entity)
    requires IsPlan(wanted, special, toFloat, plan) && Rounds(toFloat) && StoredWanted(wanted) && StoredEntity(e)
    requires Matches(e, Kept(wanted, special), special) && !plan.empty && Satisfies(e, plan.base)
    ensures Covers(plan, e)
  {
    DropsIff(wanted, special, plan.numericKey);
    hide Less, Candidates, Stored, Kept;
    if plan.numericKey != "" {
      var k := plan.numericKey;
      assert EqualProps(PropertyOf(e, k, special), Kept(wanted, special)[k]);
      var x, y := wanted[k].x, e.properties[k].x;
      EqualIsSymmetric(y, x);
      CandidatesAreExact(x, y, toFloat);
      var values := Candidates(x, toFloat);
      var i :| 0 <= i < |values| && values[i] == y;
      assert Satisfies(e, plan.alternatives[i]);
    } else {
      assert Satisfies(e, plan.alternatives[0]);
    }
  }

  lemma EqualIsSymmetric(a: Number, b: Number)
    ensures EqualNumbers(a, b) == EqualNumbers(b, a)
  {
  }

  /** The constraint passed over, if there is one, is met. */
  predicate MeetsDropped(e: Entity, wanted: map<string, Prop>, special: string) {
    Drops(wanted, special) ==> Matches(e, map["" := wanted[""]], special)
  }

  lemma KeptAndDropped(e: Entity, wanted: map<string, Prop>, special: string)
    ensures Matches(e, wanted, special) <==> Matches(e, Kept(wanted, special), special) && MeetsDropped(e, wanted, special)
  {
    hide EqualProps, PropertyOf, Drops;
    if Drops(wanted, special) && "" in wanted {
      var (kept, dropped) := (wanted - {""}, map["" := wanted[""]]);
      assert forall k :: k in wanted <==> k in kept || k in dropped;
      assert forall k | k in kept :: wanted[k] == kept[k];
      assert "" in dropped;
    } else {
      DropsOnlyEmpty(wanted, special);
    }
  }

  lemma DropsOnlyEmpty(wanted: map<string, Prop>, special: string)
    ensures Drops(wanted, special) ==> "" in wanted
  {
  }

  /** Of a complete plan, what an alternative finds meets what was kept; it is a match
      exactly if it meets the constraint passed over too. */
  lemma PlanIsSound(wanted: map<string, Prop>, special: string, toFloat: int -> Double, plan: Plan, e: Entity, i: nat)
    requires IsPlan(wanted, special, toFloat, plan) && Rounds(toFloat) && StoredWanted(wanted) && StoredEntity(e)
    requires plan.complete && i < |plan.alternatives| && Satisfies(e, plan.alternatives[i])
    ensures Matches(e, Kept(wanted, special), special)
    ensures Matches(e, wanted, special) <==> MeetsDropped(e, wanted, special)
  {
    DropsIff(wanted, special, plan.numericKey);
    KeptAndDropped(e, wanted, special);
    hide *;
    var kept := Kept(wanted, special);
    forall k | k in kept ensures PropertyOf(e, k, special) != Nil && kept[k] != Nil && EqualProps(PropertyOf(e, k, special), kept[k]) {
      KeyIsMet(wanted, special, toFloat, plan, e, i, k);
    }
    MatchesIs(e, kept, special);
  }

  lemma MatchesIs(e: Entity, wanted: map<string, Prop>, special: string)
    ensures Matches(e, wanted, special) <==>
            forall k | k in wanted :: PropertyOf(e, k, special) != Nil && wanted[k] != Nil && EqualProps(PropertyOf(e, k, special), wanted[k])
  {
    hide PropertyOf, EqualProps;
  }

  lemma KeyIsMet(wanted: map<string, Prop>, special: string, toFloat: int -> Double, plan: Plan, e: Entity, i: nat, k: string)
    requires IsPlan(wanted, special, toFloat, plan) && Rounds(toFloat) && StoredWanted(wanted) && StoredEntity(e)
    requires plan.complete && i < |plan.alternatives| && Satisfies(e, plan.alternatives[i]) && k in Kept(wanted, special)
    ensures PropertyOf(e, k, special) != Nil && Kept(wanted, special)[k] != Nil && EqualProps(PropertyOf(e, k, special), Kept(wanted, special)[k])
  {
    DropsIff(wanted, special, plan.numericKey);
    hide Less, Candidates, Stored, Kept, Rounds;
    assert k in plan.alternatives[i];
    if k !in plan.base {
      var x, values := wanted[k].x, Candidates(wanted[k].x, toFloat);
      assert plan.alternatives[i][k] == Num(values[i]);
      assert values[i] in values;
      CandidatesAreExact(x, values[i], toFloat);
      EqualIsSymmetric(values[i], x);
    } else {
      assert plan.alternatives[i][k] == wanted[k];
      ExactEqualsItself(wanted[k]);
    }
  }

  /** All that a complete plan finds are matches exactly when it passes nothing over,
      or is empty. */
  lemma PlanIsSoundIff(wanted: map<string, Prop>, special: string, toFloat: int -> Double, plan: Plan)
    requires IsPlan(wanted, special, toFloat, plan) && Rounds(toFloat) && StoredWanted(wanted) && plan.complete
    ensures (forall e | StoredEntity(e) && Covers(plan, e) :: Matches(e, wanted, special)) <==> !Drops(wanted, special) || plan.empty
  {
    hide Less, Candidates, Rounds, Matches;
    if !Drops(wanted, special) || plan.empty {
      forall e | StoredEntity(e) && Covers(plan, e) ensures Matches(e, wanted, special) {
        var i :| 0 <= i < |plan.alternatives| && Satisfies(e, plan.alternatives[i]);
        PlanIsSound(wanted, special, toFloat, plan, e, i);
      }
    } else {
      var e := Entity(Nil, plan.base);
      FoundWithout(wanted, special, toFloat, plan, e);
    }
  }

  /** An entity that has nothing but what the plan asks for. */
  lemma FoundWithout(wanted: map<string, Prop>, special: string, toFloat: int -> Double, plan: Plan, e: Entity)
    requires IsPlan(wanted, special, toFloat, plan) && Drops(wanted, special) && !plan.empty && e == Entity(Nil, plan.base)
    ensures StoredEntity(e) && Covers(plan, e) && !Matches(e, wanted, special)
  {
    DropsIff(wanted, special, plan.numericKey);
    hide Less, Candidates, Kept, Drops;
    assert Satisfies(e, plan.alternatives[0]);
    assert PropertyOf(e, "", special) == Nil;
  }

  lemma ExactEqualsItself(v: Prop)
    requires StoreExact(v)
    ensures EqualProps(v, v)
  {
  }

  /** No entity is found by two alternatives. */
  lemma AlternativesAreApart(wanted: map<string, Prop>, special: string, toFloat: int -> Double, plan: Plan,
          e: Entity, i: nat, j: nat)
    requires IsPlan(wanted, special, toFloat, plan) && i < |plan.alternatives| && j < |plan.alternatives|
    requires Satisfies(e, plan.alternatives[i]) && Satisfies(e, plan.alternatives[j])
    ensures i == j
  {
    if plan.numericKey != "" {
      var k := plan.numericKey;
      CandidatesOnce(wanted[k].x, toFloat);
      var values := Candidates(wanted[k].x, toFloat);
      assert plan.alternatives[i][k] == Num(values[i]) && plan.alternatives[j][k] == Num(values[j]);
    }
  }

  predicate AreBytes(wanted: map<string, Prop>) {
    forall k | k in wanted && wanted[k].Bytes? :: forall i | 0 <= i < |wanted[k].bytes| :: 0 <= wanted[k].bytes[i] < 256
  }

  ghost predicate IsMatch(e: Entity, wanted: map<string, Prop>, special: string) {
    StoredEntity(e) && Matches(e, wanted, special)
  }

  /** No match is missed exactly when no byte string is pushed down, or nothing
      matches at all: the matcher takes a list of numbers for an equal byte string,
      the index does not. */
  lemma CoveredIffNoBytes(wanted: map<string, Prop>, special: string, toFloat: int -> Double, plan: Plan)
    requires IsPlan(wanted, special, toFloat, plan) && Rounds(toFloat) && StoredWanted(wanted) && AreBytes(wanted)
    ensures (forall e | IsMatch(e, wanted, special) :: Covers(plan, e))
            <==> NoBytes(plan.base) || !exists e :: IsMatch(e, wanted, special)
    ensures plan.complete && !plan.empty ==> (NoBytes(plan.base) <==> NoBytes(Kept(wanted, special)))
  {
    if plan.complete && !plan.empty { SameBytesAsked(wanted, special, toFloat, plan); }
    hide Less, Candidates, Covers, EqualProps, Kept;
    if NoBytes(plan.base) {
      forall e | IsMatch(e, wanted, special) ensures Covers(plan, e) { PlanCovers(wanted, special, toFloat, plan, e); }
    } else if e :| IsMatch(e, wanted, special) {
      var k :| k in plan.base && plan.base[k].Bytes?;
      PlanCovers(wanted, special, toFloat, plan, e);
      var other := WithList(e, k, wanted[k].bytes);
      ListMatches(e, wanted, special, k);
      PlanCovers(wanted, special, toFloat, plan, other);
      BaseIsCovered(wanted, special, toFloat, plan, other);
      assert !HoldsBytes(other, plan.base);
    }
  }

  function WithList(e: Entity, k: string, bytes: seq<int>): Entity {
    e.(properties := e.properties[k := List(seq(|bytes|, i requires 0 <= i < |bytes| => Num(Integer(bytes[i]))))])
  }

  lemma ListMatches(e: Entity, wanted: map<string, Prop>, special: string, k: string)
    requires IsMatch(e, wanted, special) && k in wanted && k != special && wanted[k].Bytes?
    ensures IsMatch(WithList(e, k, wanted[k].bytes), wanted, special)
  {
    var other := WithList(e, k, wanted[k].bytes);
    assert BytesEqualItems(wanted[k].bytes, other.properties[k].items);
    forall j | j in wanted && j != k ensures PropertyOf(other, j, special) == PropertyOf(e, j, special) { }
  }

  lemma BaseIsCovered(wanted: map<string, Prop>, special: string, toFloat: int -> Double, plan: Plan, e: Entity)
    requires IsPlan(wanted, special, toFloat, plan)
    ensures Covers(plan, e) ==> Satisfies(e, plan.base)
  {
    hide Less, Candidates, IsNaN;
    forall i, k | 0 <= i < |plan.alternatives| && k in plan.base ensures k in plan.alternatives[i] && plan.alternatives[i][k] == plan.base[k] { }
  }

  // ---- counting ----

  ghost function Found(nodes: map<Id, Entity>, alternatives: seq<map<string, Prop>>): set<Id> {
    set n | n in nodes && exists i :: 0 <= i < |alternatives| && Satisfies(nodes[n], alternatives[i])
  }

  function CountNodes(nodes: map<Id, Entity>, exact: map<string, Prop>): nat {
    |set n | n in nodes && Satisfies(nodes[n], exact)|
  }

  ghost predicate Apart(nodes: map<Id, Entity>, alternatives: seq<map<string, Prop>>) {
    forall n, i, j | n in nodes && 0 <= i < |alternatives| && 0 <= j < |alternatives|
                     && Satisfies(nodes[n], alternatives[i]) && Satisfies(nodes[n], alternatives[j]) :: i == j
  }

  /** Summing over the alternatives counts every node once. */
  method SumOfCounts(nodes: map<Id, Entity>, alternatives: seq<map<string, Prop>>) returns (count: nat)
    requires Apart(nodes, alternatives)
    ensures count == |Found(nodes, alternatives)|
  {
    count := 0;
    assert Found(nodes, []) == {};
    for i := 0 to |alternatives|
      invariant count == |Found(nodes, alternatives[..i])|
    {
      FoundMore(nodes, alternatives, i);
      count := count + CountNodes(nodes, alternatives[i]);
    }
    assert alternatives[..|alternatives|] == alternatives;
  }

  lemma FoundMore(nodes: map<Id, Entity>, alternatives: seq<map<string, Prop>>, i: nat)
    requires Apart(nodes, alternatives) && i < |alternatives|
    ensures |Found(nodes, alternatives[..i + 1])| == |Found(nodes, alternatives[..i])| + CountNodes(nodes, alternatives[i])
  {
    hide Satisfies, Found;
    var before, after, here := Found(nodes, alternatives[..i]), Found(nodes, alternatives[..i + 1]), set n | n in nodes && Satisfies(nodes[n], alternatives[i]);
    forall n ensures (n in after <==> n in before || n in here) && !(n in before && n in here) { FoundAt(nodes, alternatives, i, n); }
    assert after == before + here && before * here == {};
  }

  lemma FoundAt(nodes: map<Id, Entity>, alternatives: seq<map<string, Prop>>, i: nat, n: Id)
    requires Apart(nodes, alternatives) && i < |alternatives|
    ensures n in Found(nodes, alternatives[..i + 1]) <==> n in Found(nodes, alternatives[..i]) || (n in nodes && Satisfies(nodes[n], alternatives[i]))
    ensures !(n in Found(nodes, alternatives[..i]) && Satisfies(nodes[n], alternatives[i]))
  {
    hide Satisfies;
    if n in Found(nodes, alternatives[..i]) {
      var j :| 0 <= j < i && Satisfies(nodes[n], alternatives[..i][j]);
      assert alternatives[..i][j] == alternatives[j] == alternatives[..i + 1][j];
    }
    if n in nodes && Satisfies(nodes[n], alternatives[i]) { assert alternatives[..i + 1][i] == alternatives[i]; }
    if n in Found(nodes, alternatives[..i + 1]) {
      var j :| 0 <= j < i + 1 && Satisfies(nodes[n], alternatives[..i + 1][j]);
      if j < i { assert alternatives[..i][j] == alternatives[j]; }
    }
  }

  /** What a complete plan counts: what meets the constraints kept, and holds no list in
      the place of an equal byte string. */
  ghost predicate Counted(e: Entity, wanted: map<string, Prop>) {
    !StartsWithNaN(wanted, "body") && Matches(e, Kept(wanted, "body"), "body") && HoldsBytes(e, Kept(wanted, "body"))
  }

  /** executeDirectCount: when the shortcut applies and what it counts; it is the number
      of rows of the matcher, with no byte string asked for, exactly if every node
      counted meets the constraint passed over. */
  method DirectCount(nodes: map<Id, Entity>, wanted: map<string, Prop>,
          toFloat: int -> Double) returns (count: Option<nat>)
    requires Rounds(toFloat) && StoredWanted(wanted) && forall n | n in nodes :: StoredEntity(nodes[n])
    ensures count.Some? <==> Indexable(wanted, "body") || StartsWithNaN(wanted, "body")
    ensures count.Some? ==> count.value == |set n | n in nodes && Counted(nodes[n], wanted)|
    ensures count.Some? && NoBytes(Kept(wanted, "body")) ==>
              (count.value == |set n | n in nodes && Matches(nodes[n], wanted, "body")|
               <==> forall n | n in nodes && Counted(nodes[n], wanted) :: MeetsDropped(nodes[n], wanted, "body"))
  {
    hide Less, Candidates, Matches, HoldsBytes, Satisfies, IsPlan, Indexable, Rounds, Counted, Kept, StartsWithNaN, Drops;
    var plan := BuildPlan(wanted, "body", toFloat);
    CompleteIff(wanted, "body", toFloat, plan);
    PlanIsEmpty(wanted, "body", toFloat, plan);
    if !plan.complete { return None; }
    forall n, i, j | n in nodes && 0 <= i < |plan.alternatives| && 0 <= j < |plan.alternatives|
                     && Satisfies(nodes[n], plan.alternatives[i]) && Satisfies(nodes[n], plan.alternatives[j]) ensures i == j {
      AlternativesAreApart(wanted, "body", toFloat, plan, nodes[n], i, j);
    }
    var sum := SumOfCounts(nodes, plan.alternatives);
    forall n | n in nodes ensures n in Found(nodes, plan.alternatives) <==> Counted(nodes[n], wanted) {
      FoundIsCounted(nodes, n, wanted, toFloat, plan);
    }
    assert Found(nodes, plan.alternatives) == set n | n in nodes && Counted(nodes[n], wanted);
    if NoBytes(Kept(wanted, "body")) { CountIsExactIff(nodes, wanted); }
    return Some(sum);
  }

  lemma PlanIsEmpty(wanted: map<string, Prop>, special: string, toFloat: int -> Double, plan: Plan)
    requires IsPlan(wanted, special, toFloat, plan)
    ensures plan.empty <==> StartsWithNaN(wanted, special)
    ensures plan.empty ==> plan.alternatives == []
  {
  }

  lemma CountIsExactIff(nodes: map<Id, Entity>, wanted: map<string, Prop>)
    requires NoBytes(Kept(wanted, "body"))
    ensures |set n | n in nodes && Counted(nodes[n], wanted)| == |set n | n in nodes && Matches(nodes[n], wanted, "body")|
            <==> forall n | n in nodes && Counted(nodes[n], wanted) :: MeetsDropped(nodes[n], wanted, "body")
  {
    hide Matches, Kept, StartsWithNaN, MeetsDropped, Drops;
    var counted, matching := set n | n in nodes && Counted(nodes[n], wanted), set n | n in nodes && Matches(nodes[n], wanted, "body");
    forall n | n in nodes ensures n in matching <==> n in counted && MeetsDropped(nodes[n], wanted, "body") {
      KeptAndDropped(nodes[n], wanted, "body");
      if n in matching { FirstIsMet(wanted, "body", nodes[n]); }
    }
    assert matching <= counted;
    if |counted| == |matching| { SameSize(matching, counted); }
    else { assert matching != counted; }
  }

  lemma SameSize(a: set<Id>, b: set<Id>)
    requires a <= b && |a| == |b|
    ensures a == b
  {
    assert b == a + (b - a);
    assert |b| == |a| + |b - a|;
  }

  lemma FoundIsCounted(nodes: map<Id, Entity>, n: Id, wanted: map<string, Prop>, toFloat: int -> Double, plan: Plan)
    requires n in nodes && IsPlan(wanted, "body", toFloat, plan) && plan.complete
    requires Rounds(toFloat) && StoredWanted(wanted) && StoredEntity(nodes[n])
    ensures n in Found(nodes, plan.alternatives) <==> Counted(nodes[n], wanted)
  {
    var e := nodes[n];
    PlanIsEmpty(wanted, "body", toFloat, plan);
    assert n in Found(nodes, plan.alternatives) <==> Covers(plan, e);
    hide *;
    if !plan.empty {
      SameBytes(wanted, "body", toFloat, plan, e);
      if Covers(plan, e) {
        CoverIsSound(wanted, "body", toFloat, plan, e);
        BaseIsCovered(wanted, "body", toFloat, plan, e);
        BaseHoldsBytes(e, plan.base);
      } else if Matches(e, Kept(wanted, "body"), "body") && HoldsBytes(e, Kept(wanted, "body")) {
        KeptIsCovered(wanted, "body", toFloat, plan, e);
      }
    } else {
      NothingCovered(plan, e);
    }
    CountedIs(e, wanted);
  }

  lemma CountedIs(e: Entity, wanted: map<string, Prop>)
    ensures Counted(e, wanted) <==> !StartsWithNaN(wanted, "body") && Matches(e, Kept(wanted, "body"), "body") && HoldsBytes(e, Kept(wanted, "body"))
  {
    hide StartsWithNaN, Matches, HoldsBytes, Kept;
  }

  lemma NothingCovered(plan: Plan, e: Entity)
    ensures plan.alternatives == [] ==> !Covers(plan, e)
  {
  }

  lemma BaseHoldsBytes(e: Entity, base: map<string, Prop>)
    ensures Satisfies(e, base) ==> HoldsBytes(e, base)
  {
  }

  lemma CoverIsSound(wanted: map<string, Prop>, special: string, toFloat: int -> Double, plan: Plan, e: Entity)
    requires IsPlan(wanted, special, toFloat, plan) && Rounds(toFloat) && StoredWanted(wanted) && StoredEntity(e)
    requires plan.complete && Covers(plan, e)
    ensures Matches(e, Kept(wanted, special), special)
  {
    hide IsPlan, Rounds, Matches, Kept, Satisfies;
    var i :| 0 <= i < |plan.alternatives| && Satisfies(e, plan.alternatives[i]);
    PlanIsSound(wanted, special, toFloat, plan, e, i);
  }

  /** What meets the constraints kept is found, but for byte strings. */
  lemma KeptIsCovered(wanted: map<string, Prop>, special: string, toFloat: int -> Double, plan: Plan, e: Entity)
    requires IsPlan(wanted, special, toFloat, plan) && Rounds(toFloat) && StoredWanted(wanted) && StoredEntity(e)
    requires !plan.empty && Matches(e, Kept(wanted, special), special) && HoldsBytes(e, plan.base)
    ensures Covers(plan, e)
  {
    DropsIff(wanted, special, plan.numericKey);
    hide Less, Candidates, Stored, Kept, Drops;
    var kept := Kept(wanted, special);
    forall k | k in plan.base ensures k in e.properties && e.properties[k] == plan.base[k] {
      assert k in kept && kept[k] == wanted[k];
      assert EqualProps(PropertyOf(e, k, special), kept[k]);
    }
    SomeAlternative(wanted, special, toFloat, plan, e);
  }

  lemma SameBytesAsked(wanted: map<string, Prop>, special: string, toFloat: int -> Double, plan: Plan)
    requires IsPlan(wanted, special, toFloat, plan) && plan.complete && !plan.empty
    ensures forall k :: k in Kept(wanted, special) && Kept(wanted, special)[k].Bytes? <==> k in plan.base && plan.base[k].Bytes?
    ensures forall k | k in plan.base :: k in Kept(wanted, special) && Kept(wanted, special)[k] == plan.base[k]
  {
    DropsIff(wanted, special, plan.numericKey);
    hide Less, Candidates, Kept, Drops;
  }

  lemma SameBytes(wanted: map<string, Prop>, special: string, toFloat: int -> Double, plan: Plan, e: Entity)
    requires IsPlan(wanted, special, toFloat, plan) && plan.complete && !plan.empty
    ensures HoldsBytes(e, Kept(wanted, special)) <==> HoldsBytes(e, plan.base)
  {
    SameBytesAsked(wanted, special, toFloat, plan);
    hide IsPlan, Kept;
  }

  /** MATCH (n {``: v}) RETURN count(n), or the same with a map parameter: for every v
      but NaN all nodes are counted, and a node without properties is no match. */
  lemma EmptyKeyCountsAll(v: Prop, toFloat: int -> Double, plan: Plan, nodes: map<Id, Entity>, body: Prop)
    requires IsPlan(map["" := v], "body", toFloat, plan) && !(v.Num? && IsNaN(v.x))
    ensures plan.complete && plan.alternatives == [map[]]
    ensures Found(nodes, plan.alternatives) == nodes.Keys
    ensures !Matches(Entity(body, map[]), map["" := v], "body")
  {
    var wanted := map["" := v];
    DropsIff(wanted, "body", plan.numericKey);
    hide Less, Candidates, Drops, Kept;
    assert plan.base == map[];
    assert forall n | n in nodes :: Satisfies(nodes[n], plan.alternatives[0]);
    assert "" in wanted && PropertyOf(Entity(body, map[]), "", "body") == Nil;
  }
}
