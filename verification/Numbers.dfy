/** Numbers as the evaluator compares them: 64-bit integers and IEEE doubles, the two
    kinds compared exactly. */
module Numbers {
  import opened Base

  /** A double: its sign and its magnitude, a zero keeping its sign. */
  datatype Double = NaN | Inf(negative: bool) | Finite(negative: bool, size: real)

  datatype Number = Integer(n: int) | Float(d: Double)

  function ValueOf(d: Double): real
    requires d.Finite?
  {
    if d.negative then -d.size else d.size
  }

  function Sign(less: bool, equal: bool): int {
    if less then -1 else if equal then 0 else 1
  }

  function CompareReals(a: real, b: real): int {
    Sign(a < b, a == b)
  }

  /** compare on two doubles that are not NaN. */
  function CompareDoubles(a: Double, b: Double): int
    requires !a.NaN? && !b.NaN?
  {
    if a.Finite? && b.Finite? then CompareReals(ValueOf(a), ValueOf(b))
    else if a.Inf? && b.Inf? then Sign(a.negative && !b.negative, a.negative == b.negative)
    else if a.Inf? then (if a.negative then -1 else 1)
    else (if b.negative then 1 else -1)
  }

  predicate IsNaN(x: Number) {
    x.Float? && x.d.NaN?
  }

  /** compareNumbers: None for an unordered pair. */
  function CompareNumbers(a: Number, b: Number): Option<int> {
    if IsNaN(a) || IsNaN(b) then None
    else
      match (a, b)
      case (Integer(m), Integer(n)) => Some(Sign(m < n, m == n))
      case (Float(d), Float(f)) => Some(CompareDoubles(d, f))
      case (Integer(m), Float(f)) =>
        if f.Inf? then Some(if f.negative then 1 else -1) else Some(CompareReals(m as real, ValueOf(f)))
      case (Float(d), Integer(n)) =>
        if d.Inf? then Some(if d.negative then -1 else 1) else Some(CompareReals(ValueOf(d), n as real))
  }

  /** Where a number stands on the line: below, on, or above the reals. */
  datatype Place = Below | At(r: real) | Above

  function PlaceOf(x: Number): Place
    requires !IsNaN(x)
  {
    match x
    case Integer(n) => At(n as real)
    case Float(Finite(negative, size)) => At(if negative then -size else size)
    case Float(Inf(negative)) => if negative then Below else Above
  }

  function ComparePlaces(a: Place, b: Place): int {
    if a == b then 0
    else if a.Below? || b.Above? then -1
    else if a.Above? || b.Below? then 1
    else CompareReals(a.r, b.r)
  }

  /** Comparison is by place, whatever the representations. */
  lemma CompareIsByPlace(a: Number, b: Number)
    ensures IsNaN(a) || IsNaN(b) <==> CompareNumbers(a, b).None?
    ensures !IsNaN(a) && !IsNaN(b) ==> CompareNumbers(a, b) == Some(ComparePlaces(PlaceOf(a), PlaceOf(b)))
  {
  }

  lemma PlacesAreOrdered(a: Place, b: Place, c: Place)
    ensures ComparePlaces(a, b) == 0 <==> a == b
    ensures ComparePlaces(a, b) == -ComparePlaces(b, a)
    ensures ComparePlaces(a, b) <= 0 && ComparePlaces(b, c) <= 0 ==> ComparePlaces(a, c) <= 0
  {
  }

  /** equalValues on numbers. */
  predicate EqualNumbers(a: Number, b: Number) {
    CompareNumbers(a, b) == Some(0)
  }
}
