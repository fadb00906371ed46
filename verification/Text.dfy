/** Text as the program stores it: valid UTF-8, so a sequence of Unicode scalar
    values, with a length in bytes and the byte-wise order, which for UTF-8 is the
    order of the code points. */
module Text {

  function Width(c: char): nat {
    if c as int < 0x80 then 1
    else if c as int < 0x800 then 2
    else if c as int < 0x1_0000 then 3
    else 4
  }

  function ByteLen(s: string): nat {
    if s == [] then 0 else Width(s[0]) + ByteLen(s[1..])
  }

  lemma {:induction false} ByteLenAppend(s: string, t: string)
    ensures ByteLen(s + t) == ByteLen(s) + ByteLen(t)
  {
    if s == [] {
      assert s + t == t;
    } else {
      assert (s + t)[1..] == s[1..] + t;
      ByteLenAppend(s[1..], t);
    }
  }

  /** strings.Compare: -1, 0 or 1. */
  function Compare(s: string, t: string): int {
    if s == [] && t == [] then 0
    else if s == [] then -1
    else if t == [] then 1
    else if s[0] < t[0] then -1
    else if t[0] < s[0] then 1
    else Compare(s[1..], t[1..])
  }

  predicate Less(s: string, t: string) {
    Compare(s, t) < 0
  }

  lemma {:induction false} CompareEqual(s: string, t: string)
    ensures Compare(s, t) == 0 <==> s == t
  {
    if s != [] && t != [] {
      CompareEqual(s[1..], t[1..]);
      if s[0] == t[0] && s[1..] == t[1..] { assert s == [s[0]] + s[1..] == t; }
    }
  }

  lemma {:induction false} CompareFlips(s: string, t: string)
    ensures Compare(s, t) == -Compare(t, s)
  {
    if s != [] && t != [] { CompareFlips(s[1..], t[1..]); }
  }

  lemma {:induction false} CompareTransitive(s: string, t: string, u: string)
    requires Compare(s, t) <= 0 && Compare(t, u) <= 0
    ensures Compare(s, u) <= 0
    ensures Compare(s, t) < 0 || Compare(t, u) < 0 ==> Compare(s, u) < 0
  {
    if s != [] && t != [] && u != [] { 
      if s[0] == t[0] == u[0] { CompareTransitive(s[1..], t[1..], u[1..]); }
    }
  }
}
