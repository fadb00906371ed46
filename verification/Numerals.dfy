/** strconv's decimal and hexadecimal numerals: what is written, and the more that
    is read. */
module Numerals {
  import opened Base
  import opened Json


  function Digit(n: nat, base: nat): char
    requires n < base <= 16
  {
    HexDigit(n)
  }

  /** FormatUint. */
  function Format(n: nat, base: nat): string
    requires 2 <= base <= 16
    decreases n
  {
    if n < base then [Digit(n, base)] else Format(n / base, base) + [Digit(n % base, base)]
  }

  function DigitOf(c: char, base: nat): Option<nat> {
    var v := HexValue(c);
    if v.Some? && v.value < base then v else None
  }

  /** ParseUint without the range check: any number of leading zeros. */
  function Value(s: string, base: nat): Option<nat> {
    if s == "" then None
    else
      var last := DigitOf(s[|s| - 1], base);
      if last.None? then None
      else if |s| == 1 then last
      else
        var before := Value(s[..|s| - 1], base);
        if before.None? then None else Some(before.value * base + last.value)
  }

  function ParseUint(s: string, base: nat): Option<nat> {
    var v := Value(s, base);
    if v.Some? && v.value <= MAX_UINT64 then v else None
  }

  function FormatInt(n: int): string {
    if n < 0 then "-" + Format(-n, 10) else Format(n, 10)
  }

  /** ParseInt: an optional sign. */
  function ParseInt(s: string): Option<int> {
    var negative := s != "" && s[0] == '-';
    var digits := if s != "" && s[0] in "+-" then s[1..] else s;
    var v := Value(digits, 10);
    if v.None? then None
    else
      var n: int := if negative then 0 - v.value else v.value;
      if IsInt64(n) then Some(n) else None
  }

  lemma DivMod(n: nat, base: nat)
    requires 2 <= base
    ensures n == n / base * base + n % base && n % base < base
    ensures n >= base ==> n / base < n
  {
  }

  lemma AppendDigit(s: string, c: char, base: nat)
    requires DigitOf(c, base).Some? && Value(s, base).Some?
    ensures Value(s + [c], base) == Some(Value(s, base).value * base + DigitOf(c, base).value)
  {
    hide DigitOf;
    assert (s + [c])[..|s|] == s;
  }

  lemma {:induction false} FormatRoundTrip(n: nat, base: nat)
    requires 2 <= base <= 16
    ensures Format(n, base) != "" && Value(Format(n, base), base) == Some(n)
    ensures forall i | 0 <= i < |Format(n, base)| :: HexValue(Format(n, base)[i]).Some?
    decreases n
  {
    DivMod(n, base);
    HexRoundTrip(n % base);
    hide HexValue, HexDigit;
    if n >= base {
      FormatRoundTrip(n / base, base);
      AppendDigit(Format(n / base, base), Digit(n % base, base), base);
    } else {
      HexRoundTrip(n);
    }
  }

  lemma IntRoundTrip(n: int)
    requires IsInt64(n)
    ensures ParseInt(FormatInt(n)) == Some(n)
  {
    FormatRoundTrip(if n < 0 then -n else n, 10);
    if n < 0 {
      assert FormatInt(n)[1..] == Format(-n, 10);
    } else {
      assert HexValue(FormatInt(n)[0]).Some?;
    }
  }

  lemma UintRoundTrip(n: nat)
    requires n <= MAX_UINT64
    ensures ParseUint(Format(n, 16), 16) == Some(n)
  {
    FormatRoundTrip(n, 16);
  }

  function Eight(k: nat): nat {
    if k == 0 then 1 else 8 * Eight(k - 1)
  }

  lemma {:induction false} EightAdd(a: nat, b: nat)
    ensures Eight(a + b) == Eight(a) * Eight(b)
  {
    if a > 0 { EightAdd(a - 1, b); }
  }

  /** Numerals are short. */
  lemma {:induction false} FormatIsShort(n: nat, base: nat, k: nat)
    requires 10 <= base <= 16 && 0 < k && n < Eight(k)
    ensures |Format(n, base)| <= k
    decreases k
  {
    if n >= base {
      DivideBound(n, base);
      assert Eight(k) == 8 * Eight(k - 1);
      FormatIsShort(n / base, base, k - 1);
    }
  }

  lemma DivideBound(n: nat, base: nat)
    requires 8 <= base
    ensures n / base <= n / 8
  {
    DivMod(n, base);
    DivMod(n, 8);
    var q := n / base;
    Product(q, base);
  }

  lemma Product(q: nat, base: nat)
    requires 8 <= base
    ensures q * 8 <= q * base
  {
  }

  /** Every 64-bit numeral has at most 23 characters. */
  lemma NumeralsAreShort(n: int)
    requires -MAX_UINT64 <= n <= MAX_UINT64
    ensures |FormatInt(n)| <= 23
    ensures 0 <= n ==> |Format(n, 16)| <= 22
  {
    EightAdd(4, 4);
    EightAdd(8, 8);
    EightAdd(16, 4);
    EightAdd(20, 2);
    assert Eight(4) == 4096 && Eight(2) == 64;
    FormatIsShort(if n < 0 then -n else n, 10, 22);
    if 0 <= n { FormatIsShort(n, 16, 22); }
  }
}
