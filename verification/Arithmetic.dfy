/** numericBinary on integers and integerRange: 64-bit arithmetic that reports every
    overflow instead of wrapping. */
module Arithmetic {
  import opened Base

  const TWO_64: int := 0x1_0000_0000_0000_0000

  /** What the machine does with a sum or product: it wraps around. */
  function Wrap(n: int): (w: int)
    ensures IsInt64(w)
  {
    var m := n % TWO_64;
    if m > MAX_INT64 then m - TWO_64 else m
  }

  lemma WrapIsCongruent(n: int)
    ensures exists k :: Wrap(n) == n + k * TWO_64
    ensures IsInt64(n) ==> Wrap(n) == n
  {
    var k := -(n / TWO_64);
    assert n == n / TWO_64 * TWO_64 + n % TWO_64;
    if n % TWO_64 > MAX_INT64 {
      assert Wrap(n) == n + (k - 1) * TWO_64;
    } else {
      assert Wrap(n) == n + k * TWO_64;
    }
  }

  function Abs(n: int): nat {
    if n < 0 then -n else n
  }

  /** Go's division truncates toward zero, its remainder has the dividend's sign. */
  function Quo(a: int, b: int): int
    requires b != 0
  {
    var q := Abs(a) / Abs(b);
    if (a < 0) == (b < 0) then q else -q
  }

  function Rem(a: int, b: int): int
    requires b != 0
  {
    var r := Abs(a) % Abs(b);
    if a < 0 then -r else r
  }

  lemma QuoRem(a: int, b: int)
    requires b != 0
    ensures a == Quo(a, b) * b + Rem(a, b)
    ensures Abs(Rem(a, b)) < Abs(b) && (Rem(a, b) != 0 ==> (Rem(a, b) < 0) == (a < 0))
  {
    var q, m, n := Abs(a) / Abs(b), Abs(a), Abs(b);
    assert m == q * n + m % n;
    SignedProduct(q, b);
    SignedProduct(-q, b);
  }

  lemma SignedProduct(q: int, b: int)
    ensures q * b == if b < 0 then -q * Abs(b) else q * Abs(b)
  {
  }

  /** Dividing a product by a factor gives the other one. */
  lemma QuoIsUnique(a: int, b: int, q: int)
    requires b != 0 && a == q * b
    ensures Quo(a, b) == q
  {
    QuoRem(a, b);
    var d := Quo(a, b) - q;
    assert d * b == -Rem(a, b);
    if d != 0 { AtLeastOnce(d, b); }
  }

  lemma AtLeastOnce(d: int, b: int)
    requires d != 0 && b != 0
    ensures Abs(d * b) >= Abs(b)
  {
    if d > 0 { Scale(d, b); } else { Scale(-d, b); assert -d * b == -(d * b); }
  }

  lemma Scale(d: int, b: int)
    requires d >= 1
    ensures d * b == b + (d - 1) * b && ((d - 1) * b >= 0 <==> b >= 0 || d == 1)
  {
  }

  // ---- the operators ----

  /** A result, a reported error, or a run-time panic. */
  datatype Outcome = Value(n: int) | Overflow | DivisionByZero | Panic

  function Add(l: int, r: int): Outcome {
    if (r > 0 && l > MAX_INT64 - r) || (r < 0 && l < MIN_INT64 - r) then Overflow else Value(Wrap(l + r))
  }

  function Subtract(l: int, r: int): Outcome {
    if (r < 0 && l > MAX_INT64 + r) || (r > 0 && l < MIN_INT64 + r) then Overflow else Value(Wrap(l - r))
  }

  /** The guard divides the wrapped product by the right operand. */
  function Multiply(l: int, r: int): Outcome {
    if l != 0 then
      if (l == MIN_INT64 && r == -1) || (r == MIN_INT64 && l == -1) then Overflow
      else if r == 0 then Panic
      else if Quo(Wrap(l * r), r) != l then Overflow
      else Value(Wrap(l * r))
    else Value(Wrap(l * r))
  }

  function Divide(l: int, r: int): Outcome {
    if r == 0 then DivisionByZero
    else if l == MIN_INT64 && r == -1 then Overflow
    else Value(Quo(l, r))
  }

  function Modulo(l: int, r: int): Outcome {
    if r == 0 then DivisionByZero
    else if l == MIN_INT64 && r == -1 then Value(0)
    else Value(Rem(l, r))
  }

  /** The exact result, or an overflow when it is no 64-bit integer. */
  function Exactly(n: int): Outcome {
    if IsInt64(n) then Value(n) else Overflow
  }

  lemma SumIsExact(l: int, r: int)
    requires IsInt64(l) && IsInt64(r)
    ensures Add(l, r) == Exactly(l + r) && Subtract(l, r) == Exactly(l - r)
  {
    WrapIsCongruent(l + r);
    WrapIsCongruent(l - r);
  }

  /** The wrapped test is complete: it fires exactly on overflow. */
  lemma WrappedTest(l: int, r: int)
    requires IsInt64(l) && IsInt64(r) && r != 0
    ensures Quo(Wrap(l * r), r) == l <==> IsInt64(l * r)
  {
    var w := Wrap(l * r);
    WrapIsCongruent(l * r);
    if IsInt64(l * r) {
      QuoIsUnique(l * r, r, l);
    } else {
      var k :| w == l * r + k * TWO_64;
      QuoRem(w, r);
    }
  }

  /** Multiplication is exact unless a non-zero number is multiplied by zero: then
      the guard itself divides by zero. */
  lemma ProductIsExactIff(l: int, r: int)
    requires IsInt64(l) && IsInt64(r)
    ensures Multiply(l, r) == Exactly(l * r) <==> !(l != 0 && r == 0)
    ensures l != 0 && r == 0 ==> Multiply(l, r) == Panic
  {
    WrapIsCongruent(l * r);
    if r != 0 { WrappedTest(l, r); }
  }

  lemma QuotientIsExact(l: int, r: int)
    requires IsInt64(l) && IsInt64(r)
    ensures r == 0 ==> Divide(l, r) == DivisionByZero && Modulo(l, r) == DivisionByZero
    ensures r != 0 ==> Divide(l, r) == Exactly(Quo(l, r)) && Modulo(l, r) == Exactly(Rem(l, r))
  {
    if r != 0 {
      QuoRem(l, r);
      QuotientRange(l, r);
    }
  }

  lemma QuotientRange(l: int, r: int)
    requires IsInt64(l) && IsInt64(r) && r != 0
    ensures IsInt64(Quo(l, r)) <==> !(l == MIN_INT64 && r == -1)
    ensures IsInt64(Rem(l, r)) && (r == -1 ==> Rem(l, r) == 0)
  {
    QuoRem(l, r);
    Smaller(Abs(l), Abs(r));
  }

  lemma Smaller(a: nat, b: nat)
    requires b > 0
    ensures a / b <= a && (b >= 2 && a > 0 ==> a / b < a) && (b == 1 ==> a / b == a && a % b == 0)
  {
    assert a == a / b * b + a % b;
    if b >= 2 { Twice(a / b, b); }
  }

  lemma Twice(q: nat, b: nat)
    requires b >= 2
    ensures q * b >= q * 2
  {
  }

  // ---- range ----

  const MAX_RANGE := 1_048_576

  datatype Range = Items(items: seq<int>) | ZeroStep | TooLarge

  predicate Before(step: int, a: int, b: int) {
    if step > 0 then a < b else a > b
  }

  /** How many steps from start do not pass the end. */
  function Steps(start: int, end: int, step: int): nat
    requires step != 0
  {
    if Before(step, end, start) then 0 else Abs(end - start) / Abs(step) + 1
  }

  /** That many fit, and one more would pass the end. */
  lemma StepsHold(start: int, end: int, step: int, i: nat)
    requires step != 0
    ensures i < Steps(start, end, step) <==> !Before(step, end, start + i * step)
  {
    var d, s := Abs(end - start), Abs(step);
    assert d == d / s * s + d % s;
    SignedProduct(i, step);
    if Before(step, end, start) {
      assert i * s >= 0;
    } else if i <= d / s {
      Monotone(i, d / s, s);
    } else {
      Monotone(d / s + 1, i, s);
      assert (d / s + 1) * s == d / s * s + s;
    }
  }

  lemma Monotone(a: nat, b: nat, s: nat)
    requires a <= b
    ensures a * s <= b * s
  {
    assert b * s == a * s + (b - a) * s;
  }

  /** integerRange: exactly the progression from start by step up to the end, no
      addition leaving the 64-bit range. */
  method IntegerRange(start: int, end: int, step: int) returns (r: Range)
    requires IsInt64(start) && IsInt64(end) && IsInt64(step)
    ensures r.ZeroStep? <==> step == 0
    ensures step != 0 ==> (r.TooLarge? <==> Steps(start, end, step) > MAX_RANGE)
    ensures r.Items? ==> |r.items| == Steps(start, end, step)
    ensures r.Items? ==> forall i | 0 <= i < |r.items| :: r.items[i] == start + i * step
  {
    if step == 0 { return ZeroStep; }
    if (step > 0 && start > end) || (step < 0 && start < end) { return Items([]); }
    var count := Abs(end - start) / Abs(step) + 1;
    if count > MAX_RANGE { return TooLarge; }
    var result: seq<int> := [];
    var current := start;
    for index := 0 to count
      invariant |result| == index && current == start + (if index < count then index else count - 1) * step
      invariant forall i | 0 <= i < index :: result[i] == start + i * step
    {
      result := result + [current];
      if index + 1 < count {
        StepsHold(start, end, step, index);
        StepsHold(start, end, step, index + 1);
        assert (index + 1) * step == index * step + step;
        StaysBetween(start, end, step, current + step);
        WrapIsCongruent(current + step);
        current := Wrap(current + step);
      }
    }
    return Items(result);
  }

  lemma StaysBetween(start: int, end: int, step: int, n: int)
    requires IsInt64(start) && IsInt64(end) && IsInt64(step) && step != 0
    requires !Before(step, end, n) && !Before(step, end, n - step) && !Before(step, n - step, start)
    ensures IsInt64(n)
  {
  }
}
