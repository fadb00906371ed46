/** Standard base64 with padding, as bytes properties and binary payloads are written. */
module Base64 {
  import opened Base
  import opened Text

  type byte = b: int | 0 <= b < 256

  function Symbol(n: nat): char
    requires n < 64
  {
    if n < 26 then ('A' as int + n) as char
    else if n < 52 then ('a' as int + n - 26) as char
    else if n < 62 then ('0' as int + n - 52) as char
    else if n == 62 then '+' else '/'
  }

  function Sextet(c: char): Option<nat> {
    if 'A' <= c <= 'Z' then Some(c as int - 'A' as int)
    else if 'a' <= c <= 'z' then Some(c as int - 'a' as int + 26)
    else if '0' <= c <= '9' then Some(c as int - '0' as int + 52)
    else if c == '+' then Some(62)
    else if c == '/' then Some(63)
    else None
  }

  lemma SymbolRoundTrip(n: nat)
    requires n < 64
    ensures Sextet(Symbol(n)) == Some(n) && Symbol(n) as int < 0x80 && Symbol(n) != '='
  {
  }

  function EncodedLen(n: nat): nat {
    (n + 2) / 3 * 4
  }

  function Encode(s: seq<byte>): string {
    if s == [] then ""
    else if |s| == 1 then [Symbol(s[0] / 4), Symbol(s[0] % 4 * 16)] + "=="
    else if |s| == 2 then [Symbol(s[0] / 4), Symbol(s[0] % 4 * 16 + s[1] / 16), Symbol(s[1] % 16 * 4), '=']
    else
      [Symbol(s[0] / 4), Symbol(s[0] % 4 * 16 + s[1] / 16), Symbol(s[1] % 16 * 4 + s[2] / 64), Symbol(s[2] % 64)] + Encode(s[3..])
  }

  function First(w: nat, x: nat): byte {
    w * 4 % 256 + x / 16 % 4
  }

  function Second(x: nat, y: nat): byte {
    x % 16 * 16 + y / 4 % 16
  }

  function Third(y: nat, z: nat): byte {
    y % 4 * 64 + z % 64
  }

  lemma FirstByte(a: byte, r: nat)
    requires r < 16
    ensures First(a / 4, a % 4 * 16 + r) == a
  {
  }

  lemma SecondByte(b: byte, q: nat, r: nat)
    requires q < 4 && r < 4
    ensures Second(q * 16 + b / 16, b % 16 * 4 + r) == b
  {
  }

  lemma ThirdByte(c: byte, q: nat)
    requires q < 16
    ensures Third(q * 4 + c / 64, c % 64) == c
  {
  }

  /** One group of four symbols: one, two or three bytes. */
  function DecodeGroup(a: char, b: char, c: char, d: char): Option<seq<byte>> {
    var (w, x, y, z) := (Sextet(a), Sextet(b), Sextet(c), Sextet(d));
    if w.None? || x.None? then None
    else if c == '=' && d == '=' then Some([First(w.value, x.value)])
    else if y.None? then None
    else if d == '=' then Some([First(w.value, x.value), Second(x.value, y.value)])
    else if z.None? then None
    else Some([First(w.value, x.value), Second(x.value, y.value), Third(y.value, z.value)])
  }

  function Decode(text: string): Option<seq<byte>> {
    if text == "" then Some([])
    else if |text| < 4 then None
    else
      var group := DecodeGroup(text[0], text[1], text[2], text[3]);
      if group.None? then None
      else if |group.value| < 3 then (if |text| == 4 then group else None)
      else
        var rest := Decode(text[4..]);
        if rest.None? then None else Some(group.value + rest.value)
  }

  lemma {:induction false} RoundTrip(s: seq<byte>)
    ensures Decode(Encode(s)) == Some(s)
  {
    if s != [] {
      GroupRoundTrip(s);
      if |s| >= 3 {
        RoundTrip(s[3..]);
        assert Encode(s)[4..] == Encode(s[3..]);
        assert s == [s[0], s[1], s[2]] + s[3..];
      }
    }
  }

  lemma FirstGroup(s: seq<byte>)
    requires s != []
    ensures |Encode(s)| >= 4 && (|s| < 3 ==> |Encode(s)| == 4)
    ensures Encode(s)[0] == Symbol(s[0] / 4)
    ensures |s| == 1 ==> Encode(s)[1] == Symbol(s[0] % 4 * 16) && Encode(s)[2] == '='
    ensures |s| >= 2 ==> Encode(s)[1] == Symbol(s[0] % 4 * 16 + s[1] / 16)
    ensures |s| == 2 ==> Encode(s)[2] == Symbol(s[1] % 16 * 4)
    ensures |s| <= 2 ==> Encode(s)[3] == '='
    ensures |s| >= 3 ==> Encode(s)[2] == Symbol(s[1] % 16 * 4 + s[2] / 64) && Encode(s)[3] == Symbol(s[2] % 64)
  {
    hide Symbol;
  }

  lemma GroupRoundTrip(s: seq<byte>)
    requires s != []
    ensures |Encode(s)| >= 4 && (|s| < 3 ==> |Encode(s)| == 4)
    ensures DecodeGroup(Encode(s)[0], Encode(s)[1], Encode(s)[2], Encode(s)[3]) == Some(if |s| < 3 then s else s[..3])
  {
    hide Symbol, Sextet, Encode, First, Second, Third;
    FirstGroup(s);
    FirstByte(s[0], if |s| == 1 then 0 else s[1] / 16);
    if |s| >= 2 { SecondByte(s[1], s[0] % 4, if |s| == 2 then 0 else s[2] / 64); }
    if |s| >= 3 { ThirdByte(s[2], s[1] % 16); }
    SymbolRoundTrip(s[0] / 4);
    if |s| == 1 {
      SymbolRoundTrip(s[0] % 4 * 16);
      assert s == [s[0]];
    } else {
      SymbolRoundTrip(s[0] % 4 * 16 + s[1] / 16);
      if |s| == 2 {
        SymbolRoundTrip(s[1] % 16 * 4);
        assert s == [s[0], s[1]];
      } else {
        SymbolRoundTrip(s[1] % 16 * 4 + s[2] / 64);
        SymbolRoundTrip(s[2] % 64);
        assert s[..3] == [s[0], s[1], s[2]];
      }
    }
  }

  predicate Safe(c: char) {
    c as int < 0x80 && (Sextet(c).Some? || c == '=')
  }

  lemma {:induction false} EncodeIsSafe(s: seq<byte>)
    ensures |Encode(s)| == EncodedLen(|s|)
    ensures forall i | 0 <= i < |Encode(s)| :: Safe(Encode(s)[i])
  {
    hide Symbol, Sextet;
    if s != [] {
      SymbolRoundTrip(s[0] / 4);
      if |s| == 1 {
        SymbolRoundTrip(s[0] % 4 * 16);
      } else {
        SymbolRoundTrip(s[0] % 4 * 16 + s[1] / 16);
        if |s| == 2 {
          SymbolRoundTrip(s[1] % 16 * 4);
        } else {
          SymbolRoundTrip(s[1] % 16 * 4 + s[2] / 64);
          SymbolRoundTrip(s[2] % 64);
          EncodeIsSafe(s[3..]);
        }
      }
    }
  }
}
