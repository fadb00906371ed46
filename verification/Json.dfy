/** JSON text as encoding/json writes it: strings with HTML-safe escapes, no white
    space; a reader for that text; and the length of what is written. */
module Json {
  import opened Base
  import opened Text

  datatype Json =
    | JNull
    | JBool(b: bool)
    | JNumber(text: string)
    | JString(s: string)
    | JArray(items: seq<Json>)
    | JObject(members: seq<Member>)
  datatype Member = Member(name: string, value: Json)

  // ---- hexadecimal digits ----

  function HexDigit(n: nat): char
    requires n < 16
  {
    "0123456789abcdef"[n]
  }

  function HexValue(c: char): Option<nat> {
    if '0' <= c <= '9' then Some(c as int - '0' as int)
    else if 'a' <= c <= 'f' then Some(c as int - 'a' as int + 10)
    else if 'A' <= c <= 'F' then Some(c as int - 'A' as int + 10)
    else None
  }

  lemma HexRoundTrip(n: nat)
    requires n < 16
    ensures HexValue(HexDigit(n)) == Some(n)
  {
  }

  function Hex4(n: nat): (s: string)
    requires n < 0x1_0000
    ensures |s| == 4
  {
    var a, b := n / 16, n / 16 / 16;
    [HexDigit(b / 16), HexDigit(b % 16), HexDigit(a % 16), HexDigit(n % 16)]
  }

  function ReadHex4(s: string): Option<nat>
    requires |s| == 4
  {
    var (a, b, c, d) := (HexValue(s[0]), HexValue(s[1]), HexValue(s[2]), HexValue(s[3]));
    if a.Some? && b.Some? && c.Some? && d.Some?
    then Some(a.value * 4096 + b.value * 256 + c.value * 16 + d.value) else None
  }

  lemma Hex4RoundTrip(n: nat)
    requires n < 0x1_0000
    ensures ReadHex4(Hex4(n)) == Some(n)
  {
    hide HexValue, HexDigit;
    var a, b := n / 16, n / 16 / 16;
    HexRoundTrip(b / 16);
    HexRoundTrip(b % 16);
    HexRoundTrip(a % 16);
    HexRoundTrip(n % 16);
  }

  // ---- strings ----

  /** Characters written as a \u escape. */
  predicate Spelled(c: char) {
    c in "<>&" || c as int in {0x2028, 0x2029} || (c as int < 0x20 && c as int !in {8, 9, 10, 12, 13})
  }

  function Escape(c: char): string {
    if c == '\\' then "\\\\"
    else if c == '"' then "\\\""
    else if c as int == 8 then "\\b"
    else if c as int == 9 then "\\t"
    else if c as int == 10 then "\\n"
    else if c as int == 12 then "\\f"
    else if c as int == 13 then "\\r"
    else if Spelled(c) then "\\u" + Hex4(c as int)
    else [c]
  }

  function EscapeAll(s: string): string {
    if s == "" then "" else Escape(s[0]) + EscapeAll(s[1..])
  }

  function PrintString(s: string): string {
    "\"" + EscapeAll(s) + "\""
  }

  /** The character of a two-character escape. */
  function Short(c: char): Option<char> {
    if c == '\\' || c == '"' || c == '/' then Some(c)
    else if c == 'b' then Some(8 as char)
    else if c == 't' then Some(9 as char)
    else if c == 'n' then Some(10 as char)
    else if c == 'f' then Some(12 as char)
    else if c == 'r' then Some(13 as char)
    else None
  }

  /** One character, escaped or not, at the front of s, and how long it is there. */
  function ReadChar(s: string): (r: Option<(char, nat)>)
    ensures r.Some? ==> 0 < r.value.1 <= |s|
  {
    if s == "" || s[0] == '"' || s[0] as int < 0x20 then None
    else if s[0] != '\\' then Some((s[0], 1))
    else if |s| >= 2 && Short(s[1]).Some? then Some((Short(s[1]).value, 2))
    else if |s| >= 6 && s[1] == 'u' then
      var code := ReadHex4(s[2..6]);
      if code.Some? && code.value < 0xd800 then Some((code.value as char, 6)) else None
    else None
  }

  /** The characters up to the closing quote, and what follows it. */
  function ReadChars(s: string): (r: Option<(string, string)>)
    ensures r.Some? ==> |r.value.1| < |s|
  {
    if s == "" then None
    else if s[0] == '"' then Some(("", s[1..]))
    else
      var c := ReadChar(s);
      if c.None? then None
      else
        var rest := ReadChars(s[c.value.1..]);
        if rest.None? then None else Some(([c.value.0] + rest.value.0, rest.value.1))
  }

  lemma ReadOneChar(c: char, s: string)
    ensures ReadChar(Escape(c) + s) == Some((c, |Escape(c)|))
    ensures Escape(c) != "" && Escape(c)[0] != '"'
  {
    if Spelled(c) {
      Hex4RoundTrip(c as int);
      assert (Escape(c) + s)[2..6] == Hex4(c as int);
    }
  }

  lemma {:induction false} StringRoundTrip(t: string, s: string)
    ensures ReadChars(EscapeAll(t) + "\"" + s) == Some((t, s))
  {
    var all := EscapeAll(t) + "\"" + s;
    if t == "" {
      assert all == "\"" + s && all[1..] == s;
    } else {
      var rest := EscapeAll(t[1..]) + "\"" + s;
      StringRoundTrip(t[1..], s);
      ReadOneChar(t[0], rest);
      assert all == Escape(t[0]) + rest;
      assert all[|Escape(t[0])|..] == rest;
      assert t == [t[0]] + t[1..];
    }
  }

  // ---- values ----

  function PrintJson(j: Json): string {
    match j
    case JNull => "null"
    case JBool(b) => if b then "true" else "false"
    case JNumber(text) => text
    case JString(s) => PrintString(s)
    case JArray(items) => "[" + PrintItems(items) + "]"
    case JObject(members) => "{" + PrintMembers(members) + "}"
  }

  function PrintItems(items: seq<Json>): string {
    if items == [] then ""
    else if |items| == 1 then PrintJson(items[0])
    else PrintJson(items[0]) + "," + PrintItems(items[1..])
  }

  function PrintMember(m: Member): string {
    PrintString(m.name) + ":" + PrintJson(m.value)
  }

  function PrintMembers(members: seq<Member>): string {
    if members == [] then ""
    else if |members| == 1 then PrintMember(members[0])
    else PrintMember(members[0]) + "," + PrintMembers(members[1..])
  }

  predicate NumberChar(c: char) {
    c in "+-.0123456789eE"
  }

  predicate ValidJson(j: Json) {
    match j
    case JNumber(text) => text != "" && forall i | 0 <= i < |text| :: NumberChar(text[i])
    case JArray(items) => forall x | x in items :: ValidJson(x)
    case JObject(members) => forall m | m in members :: ValidJson(m.value)
    case _ => true
  }

  // ---- reading ----

  function NumberEnd(s: string): (n: nat)
    ensures n <= |s| && forall i | 0 <= i < n :: NumberChar(s[i])
    ensures n < |s| ==> !NumberChar(s[n])
  {
    if s == "" || !NumberChar(s[0]) then 0 else 1 + NumberEnd(s[1..])
  }

  predicate Starts(s: string, prefix: string) {
    |prefix| <= |s| && s[..|prefix|] == prefix
  }

  function ReadJson(s: string): (r: Option<(Json, string)>)
    ensures r.Some? ==> |r.value.1| < |s|
    decreases |s|, 0
  {
    if s == "" then None
    else if s[0] == '"' then
      var t := ReadChars(s[1..]);
      if t.None? then None else Some((JString(t.value.0), t.value.1))
    else if s[0] == '[' then
      if Starts(s, "[]") then Some((JArray([]), s[2..]))
      else
        var t := ReadItems(s[1..]);
        if t.None? then None else Some((JArray(t.value.0), t.value.1))
    else if s[0] == '{' then
      if Starts(s, "{}") then Some((JObject([]), s[2..]))
      else
        var t := ReadMembers(s[1..]);
        if t.None? then None else Some((JObject(t.value.0), t.value.1))
    else if Starts(s, "null") then Some((JNull, s[4..]))
    else if Starts(s, "true") then Some((JBool(true), s[4..]))
    else if Starts(s, "false") then Some((JBool(false), s[5..]))
    else if NumberEnd(s) > 0 then Some((JNumber(s[..NumberEnd(s)]), s[NumberEnd(s)..]))
    else None
  }

  /** One or more items and the closing bracket. */
  function ReadItems(s: string): (r: Option<(seq<Json>, string)>)
    ensures r.Some? ==> |r.value.1| < |s|
    decreases |s|, 1
  {
    var first := ReadJson(s);
    if first.None? || first.value.1 == "" then None
    else
      var (item, rest) := first.value;
      if rest[0] == ']' then Some(([item], rest[1..]))
      else if rest[0] == ',' then
        var more := ReadItems(rest[1..]);
        if more.None? then None else Some(([item] + more.value.0, more.value.1))
      else None
  }

  function ReadMember(s: string): (r: Option<(Member, string)>)
    ensures r.Some? ==> |r.value.1| < |s|
    decreases |s|, 1
  {
    if s == "" || s[0] != '"' then None
    else
      var name := ReadChars(s[1..]);
      if name.None? || name.value.1 == "" || name.value.1[0] != ':' then None
      else
        var value := ReadJson(name.value.1[1..]);
        if value.None? then None else Some((Member(name.value.0, value.value.0), value.value.1))
  }

  function ReadMembers(s: string): (r: Option<(seq<Member>, string)>)
    ensures r.Some? ==> |r.value.1| < |s|
    decreases |s|, 2
  {
    var first := ReadMember(s);
    if first.None? || first.value.1 == "" then None
    else
      var (member, rest) := first.value;
      if rest[0] == '}' then Some(([member], rest[1..]))
      else if rest[0] == ',' then
        var more := ReadMembers(rest[1..]);
        if more.None? then None else Some(([member] + more.value.0, more.value.1))
      else None
  }

  /** A whole text. */
  function Read(s: string): Option<Json> {
    var r := ReadJson(s);
    if r.Some? && r.value.1 == "" then Some(r.value.0) else None
  }

  // ---- reading what was written ----

  /** What follows a value: nothing, or a separator or closing bracket. */
  predicate Stops(s: string) {
    s == "" || s[0] in ",]}"
  }

  lemma {:induction false} NumberEndsThere(text: string, s: string)
    requires Stops(s) && forall i | 0 <= i < |text| :: NumberChar(text[i])
    ensures NumberEnd(text + s) == |text|
  {
    if text == "" {
      assert text + s == s;
    } else {
      assert (text + s)[1..] == text[1..] + s;
      NumberEndsThere(text[1..], s);
    }
  }

  /** A value never starts like a closing bracket. */
  lemma PrintStarts(j: Json)
    requires ValidJson(j)
    ensures PrintJson(j) != "" && PrintJson(j)[0] !in ",]}:"
  {
    hide PrintItems, PrintMembers, EscapeAll;
    if j.JNumber? {
      assert NumberChar(j.text[0]);
    } else {
      assert PrintJson(j)[0] in "ntf\"[{";
    }
  }

  lemma {:induction false} JsonRoundTrip(j: Json, s: string)
    requires ValidJson(j) && Stops(s)
    ensures ReadJson(PrintJson(j) + s) == Some((j, s))
    decreases j, 0
  {
    hide ReadJson, Stops;
    match j
    case JNull => LiteralRoundTrip(s);
    case JBool(b) => LiteralRoundTrip(s);
    case JNumber(text) => NumberRoundTrip(text, s);
    case JString(t) => StringValueRoundTrip(t, s);
    case JArray(items) => ArrayRoundTrip(items, s);
    case JObject(members) => ObjectRoundTrip(members, s);
  }

  lemma LiteralRoundTrip(s: string)
    ensures ReadJson("null" + s) == Some((JNull, s))
    ensures ReadJson("true" + s) == Some((JBool(true), s))
    ensures ReadJson("false" + s) == Some((JBool(false), s))
  {
    hide ReadItems, ReadMembers, ReadChars, NumberEnd;
    assert ("null" + s)[..4] == "null" && ("null" + s)[4..] == s;
    assert ("true" + s)[..4] == "true" && ("true" + s)[4..] == s;
    assert ("false" + s)[..5] == "false" && ("false" + s)[5..] == s;
  }

  lemma NumberRoundTrip(text: string, s: string)
    requires text != "" && (forall i | 0 <= i < |text| :: NumberChar(text[i])) && Stops(s)
    ensures ReadJson(text + s) == Some((JNumber(text), s))
  {
    NumberEndsThere(text, s);
    hide ReadItems, ReadMembers, ReadChars, NumberEnd;
    var all := text + s;
    assert all[..|text|] == text && all[|text|..] == s;
    assert NumberChar(text[0]) && all[0] == text[0];
    assert all[0] !in "\"[{ntf";
    OtherStart(all, "null");
    OtherStart(all, "true");
    OtherStart(all, "false");
  }

  lemma OtherStart(s: string, prefix: string)
    requires s != "" && prefix != "" && s[0] != prefix[0]
    ensures !Starts(s, prefix)
  {
  }

  lemma StringValueRoundTrip(t: string, s: string)
    ensures ReadJson(PrintString(t) + s) == Some((JString(t), s))
  {
    StringRoundTrip(t, s);
    hide ReadItems, ReadMembers, ReadChars, NumberEnd, EscapeAll;
    assert (PrintString(t) + s)[1..] == EscapeAll(t) + "\"" + s;
  }

  lemma {:induction false} ArrayRoundTrip(items: seq<Json>, s: string)
    requires (forall x | x in items :: ValidJson(x)) && Stops(s)
    ensures ReadJson("[" + PrintItems(items) + "]" + s) == Some((JArray(items), s))
    decreases items, 1
  {
    hide ReadItems, ReadMembers, ReadChars, NumberEnd, PrintJson, ValidJson;
    var all := "[" + PrintItems(items) + "]" + s;
    if items == [] {
      assert all[..2] == "[]" && all[2..] == s;
    } else {
      ItemsRoundTrip(items, s);
      ItemsStart(items);
      assert all[1..] == PrintItems(items) + "]" + s;
      assert all[..2][1] == PrintItems(items)[0];
    }
  }

  lemma ItemsStart(items: seq<Json>)
    requires items != [] && forall x | x in items :: ValidJson(x)
    ensures PrintItems(items) != "" && PrintItems(items)[0] !in ",]}:"
  {
    PrintStarts(items[0]);
  }

  lemma {:induction false} ItemsRoundTrip(items: seq<Json>, s: string)
    requires items != [] && (forall x | x in items :: ValidJson(x))
    ensures ReadItems(PrintItems(items) + "]" + s) == Some((items, s))
    decreases items, 0
  {
    hide ReadJson, PrintJson, ValidJson;
    var all := PrintItems(items) + "]" + s;
    assert items[0] in items;
    if |items| == 1 {
      JsonRoundTrip(items[0], "]" + s);
      assert all == PrintJson(items[0]) + ("]" + s);
      assert ("]" + s)[1..] == s && items == [items[0]];
    } else {
      var rest := PrintItems(items[1..]) + "]" + s;
      JsonRoundTrip(items[0], "," + rest);
      ItemsRoundTrip(items[1..], s);
      assert all == PrintJson(items[0]) + ("," + rest);
      assert ("," + rest)[1..] == rest;
      assert items == [items[0]] + items[1..];
    }
  }

  lemma {:induction false} ObjectRoundTrip(members: seq<Member>, s: string)
    requires (forall m | m in members :: ValidJson(m.value)) && Stops(s)
    ensures ReadJson("{" + PrintMembers(members) + "}" + s) == Some((JObject(members), s))
    decreases members, 2
  {
    hide ReadItems, ReadMembers, ReadChars, NumberEnd, PrintJson, ValidJson, EscapeAll;
    var all := "{" + PrintMembers(members) + "}" + s;
    if members == [] {
      assert all[..2] == "{}" && all[2..] == s;
    } else {
      MembersRoundTrip(members, s);
      assert all[1..] == PrintMembers(members) + "}" + s;
      assert all[..2][1] == PrintMembers(members)[0] == '"';
    }
  }

  lemma {:induction false} MemberRoundTrip(m: Member, s: string)
    requires ValidJson(m.value) && Stops(s)
    ensures ReadMember(PrintMember(m) + s) == Some((m, s))
    decreases m
  {
    hide ReadJson, ReadChars, PrintJson, EscapeAll, ValidJson;
    var all := PrintMember(m) + s;
    var after := ":" + (PrintJson(m.value) + s);
    StringRoundTrip(m.name, after);
    assert all[1..] == EscapeAll(m.name) + "\"" + after;
    assert after[1..] == PrintJson(m.value) + s;
    JsonRoundTrip(m.value, s);
  }

  lemma {:induction false} MembersRoundTrip(members: seq<Member>, s: string)
    requires members != [] && (forall m | m in members :: ValidJson(m.value))
    ensures ReadMembers(PrintMembers(members) + "}" + s) == Some((members, s))
    decreases members, 1
  {
    hide ReadMember, PrintMember, ValidJson;
    var all := PrintMembers(members) + "}" + s;
    assert members[0] in members;
    if |members| == 1 {
      MemberRoundTrip(members[0], "}" + s);
      assert all == PrintMember(members[0]) + ("}" + s);
      assert ("}" + s)[1..] == s && members == [members[0]];
    } else {
      var rest := PrintMembers(members[1..]) + "}" + s;
      MemberRoundTrip(members[0], "," + rest);
      MembersRoundTrip(members[1..], s);
      assert all == PrintMember(members[0]) + ("," + rest);
      assert ("," + rest)[1..] == rest;
      assert members == [members[0]] + members[1..];
    }
  }

  /** Reading gives back what was written. */
  lemma ReadPrinted(j: Json)
    requires ValidJson(j)
    ensures Read(PrintJson(j)) == Some(j)
  {
    JsonRoundTrip(j, "");
    assert PrintJson(j) + "" == PrintJson(j);
  }

  // ---- lengths ----

  /** jsonStringSize. */
  function EscapeSize(c: char): nat {
    if c in "\\\"" || c as int in {8, 9, 10, 12, 13} then 2
    else if c in "<>&" || c as int < 0x20 || c as int in {0x2028, 0x2029} then 6
    else Width(c)
  }

  method StringSize(s: string) returns (size: int)
    ensures size == ByteLen(PrintString(s))
  {
    size := 2;
    ghost var written := "\"";
    for i := 0 to |s|
      invariant size == 2 + ByteLen(EscapeAll(s[..i]))
    {
      assert s[..i + 1][..i] == s[..i];
      EscapeAllAppend(s[..i], s[i]);
      ByteLenAppend(EscapeAll(s[..i]), Escape(s[i]));
      EscapeSizeHolds(s[i]);
      size := size + EscapeSize(s[i]);
      assert s[..i + 1] == s[..i] + [s[i]];
    }
    assert s[..|s|] == s;
    StringLength(s);
  }

  lemma StringLength(s: string)
    ensures ByteLen(PrintString(s)) == 2 + ByteLen(EscapeAll(s))
  {
    ByteLenAppend("\"" + EscapeAll(s), "\"");
    ByteLenAppend("\"", EscapeAll(s));
  }

  lemma {:induction false} EscapeAllAppend(s: string, c: char)
    ensures EscapeAll(s + [c]) == EscapeAll(s) + Escape(c)
  {
    if s == "" {
      assert s + [c] == [c];
      assert EscapeAll([c]) == Escape(c) + EscapeAll([c][1..]);
    } else {
      assert (s + [c])[1..] == s[1..] + [c];
      EscapeAllAppend(s[1..], c);
    }
  }

  lemma EscapeSizeHolds(c: char)
    ensures ByteLen(Escape(c)) == EscapeSize(c)
  {
    if Escape(c) != [c] {
      EscapeIsAscii(c);
      AsciiLength(Escape(c));
      hide Ascii, Hex4;
    } else {
      assert ByteLen([c]) == Width(c) + ByteLen([c][1..]);
    }
  }

  lemma EscapeIsAscii(c: char)
    requires Escape(c) != [c]
    ensures Ascii(Escape(c))
  {
    if Spelled(c) { HexIsAscii(c as int); }
  }

  lemma HexIsAscii(n: nat)
    requires n < 0x1_0000
    ensures Ascii(Hex4(n))
  {
    hide HexDigit;
    var a, b := n / 16, n / 16 / 16;
    HexDigitIsAscii(b / 16);
    HexDigitIsAscii(b % 16);
    HexDigitIsAscii(a % 16);
    HexDigitIsAscii(n % 16);
  }

  lemma HexDigitIsAscii(n: nat)
    requires n < 16
    ensures HexDigit(n) as int < 0x80
  {
  }

  predicate Ascii(s: string) {
    forall i | 0 <= i < |s| :: s[i] as int < 0x80
  }

  lemma {:induction false} AsciiLength(s: string)
    requires Ascii(s)
    ensures ByteLen(s) == |s|
  {
    if s != "" { AsciiLength(s[1..]); }
  }
}
