/** The stored form of property values and labels, spelled out: the bytes other releases
    have written and will read. */
module WireFormat {
  import opened Base
  import opened Text
  import opened Sorted
  import opened Json
  import opened Numerals
  import opened Base64
  import opened PropertyTree
  import opened PropertyValues
  import LabelCodec

  // ---- characters and digits ----

  /** Strings are printed with the escapes of encoding/json that keep them safe in HTML. */
  lemma EscapesAre()
    ensures Escape('"') == "\\\"" && Escape('\\') == "\\\\"
    ensures Escape('\n') == "\\n" && Escape('\t') == "\\t" && Escape('\r') == "\\r"
    ensures Escape('<') == "\\u003c" && Escape('>') == "\\u003e" && Escape('&') == "\\u0026"
    ensures Escape('\0') == "\\u0000" && Escape('\U{1f}') == "\\u001f"
    ensures Escape('\U{2028}') == "\\u2028" && Escape('\U{2029}') == "\\u2029"
  {
    HexIs();
    hide Hex4;
  }

  lemma DigitsAre()
    ensures HexDigit(0) == '0' && HexDigit(1) == '1' && HexDigit(2) == '2' && HexDigit(3) == '3' && HexDigit(6) == '6'
    ensures HexDigit(8) == '8' && HexDigit(9) == '9' && HexDigit(12) == 'c' && HexDigit(14) == 'e' && HexDigit(15) == 'f'
  {
  }

  lemma HexIs()
    ensures Hex4('<' as int) == "003c" && Hex4('>' as int) == "003e" && Hex4('&' as int) == "0026"
    ensures Hex4(0) == "0000" && Hex4(0x1f) == "001f" && Hex4(0x2028) == "2028" && Hex4(0x2029) == "2029"
  {
    DigitsAre();
    hide HexDigit;
  }

  /** All other characters from the space on are printed as they are. */
  lemma OthersAre(c: char)
    requires c as int >= 0x20 && c !in "\"\\<>&" && c as int !in {0x2028, 0x2029}
    ensures Escape(c) == [c]
  {
  }

  /** A string is quoted and escaped character by character. */
  lemma StringsAre(c: char, rest: string)
    ensures PrintString("") == "\"\"" && PrintString([c] + rest) == "\"" + Escape(c) + EscapeAll(rest) + "\""
    ensures PrintString(rest) == "\"" + EscapeAll(rest) + "\""
  {
    hide Escape;
    assert ([c] + rest)[1..] == rest;
  }

  /** Characters take one to four bytes. */
  lemma WidthsAre()
    ensures ByteLen("a") == 1 && ByteLen("\U{e9}") == 2 && ByteLen("\U{20ac}") == 3 && ByteLen("\U{1f600}") == 4
  {
    assert "a"[1..] == "" && "\U{e9}"[1..] == "" && "\U{20ac}"[1..] == "" && "\U{1f600}"[1..] == "";
  }

  const DIGITS := "0123456789abcdef"

  /** The value of a numeral, read from its first digit on. */
  function Numeral(s: string, base: nat): int {
    if s == "" then 0 else Numeral(s[..|s| - 1], base) * base + DigitValue(s[|s| - 1])
  }

  function DigitValue(c: char): int {
    if '0' <= c <= '9' then c as int - '0' as int else c as int - 'a' as int + 10
  }

  /** Numerals are written most significant digit first, in lower case, without leading
      zeros. */
  lemma {:induction false} FormatIs(n: nat, base: nat)
    requires 2 <= base <= 16
    ensures var s := Format(n, base);
            && s != "" && (forall c | c in s :: c in DIGITS[..base]) && Numeral(s, base) == n && (s[0] == '0' ==> n == 0)
    decreases n
  {
    if n < base {
      assert Format(n, base)[..0] == "";
      assert DIGITS[..base][n] == HexDigit(n);
    } else {
      DivMod(n, base);
      FormatIs(n / base, base);
      var (front, last) := (Format(n / base, base), HexDigit(n % base));
      assert Format(n, base) == front + [last];
      assert (front + [last])[..|front|] == front;
      assert DIGITS[..base][n % base] == last;
      assert DigitValue(last) == n % base by { DigitValues(n % base); }
    }
  }

  lemma DigitValues(n: nat)
    requires n < 16
    ensures DigitValue(HexDigit(n)) == n
  {
  }

  lemma FormatIntIs(n: int)
    ensures n >= 0 ==> FormatInt(n) == Format(n, 10)
    ensures n < 0 ==> FormatInt(n) == "-" + Format(-n, 10)
  {
  }

  /** The alphabet of section 4 of RFC 4648. */
  predicate IsSymbol(c: char, n: nat) {
    || ('A' <= c <= 'Z' && n == c as int - 'A' as int)
    || ('a' <= c <= 'z' && n == c as int - 'a' as int + 26)
    || ('0' <= c <= '9' && n == c as int - '0' as int + 52)
    || (c == '+' && n == 62) || (c == '/' && n == 63)
  }

  lemma SymbolIs(n: nat)
    requires n < 64
    ensures IsSymbol(Symbol(n), n)
  {
  }

  /** Three bytes become four symbols, most significant first. */
  lemma GroupIs(a: byte, b: byte, c: byte) returns (i: nat, j: nat, k: nat, l: nat)
    ensures i < 64 && j < 64 && k < 64 && l < 64 && 0x4_0000 * i + 0x1000 * j + 0x40 * k + l == 0x1_0000 * a + 0x100 * b + c
    ensures var s := Encode([a, b, c]); |s| == 4 && IsSymbol(s[0], i) && IsSymbol(s[1], j) && IsSymbol(s[2], k) && IsSymbol(s[3], l)
  {
    i, j, k, l := a / 4, a % 4 * 16 + b / 16, b % 16 * 4 + c / 64, c % 64;
    SymbolIs(i);
    SymbolIs(j);
    SymbolIs(k);
    SymbolIs(l);
    hide Symbol, IsSymbol;
    assert [a, b, c][3..] == [];
  }

  /** One or two bytes at the end are filled with zero bits and padded. */
  lemma EndsAre(a: byte, b: byte)
    ensures Encode([]) == ""
    ensures var s := Encode([a]); |s| == 4 && IsSymbol(s[0], a / 4) && IsSymbol(s[1], a % 4 * 16) && s[2] == s[3] == '='
    ensures var s := Encode([a, b]); |s| == 4 && IsSymbol(s[0], a / 4) && IsSymbol(s[1], a % 4 * 16 + b / 16) && IsSymbol(s[2], b % 16 * 4) && s[3] == '='
  {
    SymbolIs(a / 4);
    SymbolIs(a % 4 * 16);
    SymbolIs(a % 4 * 16 + b / 16);
    SymbolIs(b % 16 * 4);
    hide Symbol, IsSymbol;
  }

  /** Longer strings are encoded three bytes at a time. */
  lemma GroupsJoin(a: byte, b: byte, c: byte, rest: seq<byte>)
    ensures Encode([a, b, c] + rest) == Encode([a, b, c]) + Encode(rest)
  {
    hide Symbol;
    var s := [a, b, c] + rest;
    assert s[3..] == rest && [a, b, c][3..] == [];
  }

  // ---- property values ----

  function Field(name: string, value: Json): seq<Member> {
    [Member(name, value)]
  }

  /** A kind with its payload, which is left out when it is empty. */
  function Tagged(kind: string, text: string): Json {
    JObject(Field("k", JString(kind)) + if text == "" then [] else Field("s", JString(text)))
  }

  lemma TaggedIs(kind: string, text: string)
    ensures Tree(Plain(kind).(text := text)) == Tagged(kind, text) && Tree(Plain(kind)) == Tagged(kind, "")
  {
    HeadIs(Plain(kind).(text := text));
    HeadIs(Plain(kind));
  }

  lemma HeadIs(e: Encoded)
    requires !e.flag && e.zone == "" && e.offset == 0 && e.items == [] && e.fields == map[]
    ensures Tree(e) == JObject(Field("k", JString(e.kind)) + if e.text == "" then [] else Field("s", JString(e.text)))
  {
    assert Body(e) == [];
    assert Head(e) == Field("k", JString(e.kind)) + if e.text == "" then [] else Field("s", JString(e.text));
  }

  /** The tags and payloads of the scalar kinds. */
  lemma ScalarTrees(v: Value)
    ensures v == Null ==> Tree(Shape(v)) == Tagged("null", "")
    ensures v == Bool(true) ==> Tree(Shape(v)) == JObject(Field("k", JString("bool")) + Field("b", JBool(true)))
    ensures v == Bool(false) ==> Tree(Shape(v)) == Tagged("bool", "")
    ensures v.Text? ==> Tree(Shape(v)) == Tagged("string", v.s)
    ensures v.Bytes? ==> Tree(Shape(v)) == Tagged("bytes", Encode(v.bytes))
    ensures v.Int? ==> Tree(Shape(v)) == Tagged("int", FormatInt(v.n))
    ensures v.Uint? ==> Tree(Shape(v)) == Tagged("int", FormatInt(v.u))
    ensures v.Float? ==> Tree(Shape(v)) == Tagged("float", Format(v.bits, 16))
  {
    hide Encode, Format, FormatInt, Tree, Tagged;
    match v
    case Null => TaggedIs("null", "");
    case Bool(b) => if b { TrueIs(); } else { TaggedIs("bool", ""); }
    case Text(s) => TaggedIs("string", s);
    case Bytes(bytes) => TaggedIs("bytes", Encode(bytes));
    case Int(n) => TaggedIs("int", FormatInt(n));
    case Uint(u) => TaggedIs("int", FormatInt(u));
    case Float(bits) => TaggedIs("float", Format(bits, 16));
    case _ =>
  }

  lemma TrueIs()
    ensures Tree(Plain("bool").(flag := true)) == JObject(Field("k", JString("bool")) + Field("b", JBool(true)))
  {
    var e := Plain("bool").(flag := true);
    assert Body(e) == [];
    assert Head(e) == Field("k", JString("bool")) + Field("b", JBool(true));
  }

  /** A list has its items in order, a map its fields in the order of their keys. */
  lemma ListTree(items: seq<Value>)
    ensures items == [] ==> Tree(Shape(List(items))) == JObject(Field("k", JString("list")))
    ensures items != [] ==> Tree(Shape(List(items))) == JObject(Field("k", JString("list")) + Field("a", JArray(TreeItems(Shapes(items)))))
    ensures |TreeItems(Shapes(items))| == |items| && forall i | 0 <= i < |items| :: TreeItems(Shapes(items))[i] == Tree(Shape(items[i]))
  {
    forall i | 0 <= i < |items| ensures TreeItems(Shapes(items))[i] == Tree(Shape(items[i])) { ItemTree(items, i); }
    hide TreeItems;
  }

  lemma {:induction false} ItemTree(items: seq<Value>, i: nat)
    requires i < |items|
    ensures |TreeItems(Shapes(items))| == |items| && TreeItems(Shapes(items))[i] == Tree(Shape(items[i]))
    decreases |items|
  {
    hide Tree, Shape;
    if i > 0 { ItemTree(items[1..], i - 1); }
  }

  lemma MapTree(fields: map<string, Value>)
    ensures fields == map[] ==> Tree(Shape(Map(fields))) == JObject(Field("k", JString("map")))
    ensures fields != map[] ==> Tree(Shape(Map(fields))) == JObject(Field("k", JString("map")) + Field("o", JObject(FieldTrees(fields, SortedIds(fields.Keys)))))
  {
    SortedHolds(fields.Keys);
    FieldTreesAre(fields, SortedIds(fields.Keys));
    MapShape(fields);
    MapIs(Shape(Map(fields)));
    hide *;
  }

  lemma MapShape(fields: map<string, Value>)
    ensures var e := Shape(Map(fields));
            && e.kind == "map" && !e.flag && e.text == "" && e.zone == "" && e.offset == 0 && e.items == []
            && e.fields.Keys == fields.Keys && (e.fields == map[] <==> fields == map[])
  {
    var e := Shape(Map(fields));
    assert e.fields.Keys == fields.Keys;
  }

  lemma MapIs(e: Encoded)
    requires !e.flag && e.text == "" && e.zone == "" && e.offset == 0 && e.items == []
    ensures Tree(e) == JObject(Field("k", JString(e.kind)) + if e.fields == map[] then [] else Field("o", JObject(TreeFields(e, SortedIds(e.fields.Keys)))))
  {
    hide TreeFields, SortedIds;
    assert Head(e) == Field("k", JString(e.kind));
  }

  /** Each key with the tree of its value. */
  function FieldTrees(fields: map<string, Value>, keys: seq<string>): seq<Member> {
    if keys == [] then []
    else (if keys[0] in fields then Field(keys[0], Tree(Shape(fields[keys[0]]))) else []) + FieldTrees(fields, keys[1..])
  }

  lemma {:induction false} FieldTreesAre(fields: map<string, Value>, keys: seq<string>)
    requires forall k | k in keys :: k in fields
    ensures TreeFields(Shape(Map(fields)), keys) == FieldTrees(fields, keys)
    decreases |keys|
  {
    var e := Shape(Map(fields));
    assert forall k | k in fields :: e.fields[k] == Shape(fields[k]);
    assert FieldTrees(fields, []) == [] && TreeFields(e, []) == [];
    hide Tree, Shape;
    if keys != [] {
      assert keys[0] in keys;
      FieldTreesAre(fields, keys[1..]);
    }
  }

  /** JSON is printed without white space. */
  lemma ArraysAre(value: Json, items: seq<Json>)
    ensures PrintJson(JNull) == "null" && PrintJson(JBool(true)) == "true" && PrintJson(JBool(false)) == "false"
    ensures PrintJson(JArray(items)) == "[" + PrintItems(items) + "]" && PrintItems([]) == "" && PrintItems([value]) == PrintJson(value)
    ensures items != [] ==> PrintItems([value] + items) == PrintJson(value) + "," + PrintItems(items)
  {
    assert ([value] + items)[1..] == items;
  }

  lemma ObjectsAre(name: string, value: Json, members: seq<Member>)
    ensures PrintJson(JObject(members)) == "{" + PrintMembers(members) + "}" && PrintMembers([]) == ""
    ensures PrintMembers([Member(name, value)]) == PrintString(name) + ":" + PrintJson(value)
    ensures members != [] ==> PrintMembers([Member(name, value)] + members) == PrintString(name) + ":" + PrintJson(value) + "," + PrintMembers(members)
  {
    hide PrintString, PrintJson;
    var all := [Member(name, value)] + members;
    assert all[1..] == members && all[0] == Member(name, value);
    assert PrintMember(Member(name, value)) == PrintString(name) + ":" + PrintJson(value);
    if members != [] { assert PrintMembers(all) == PrintMember(all[0]) + "," + PrintMembers(all[1..]); }
    ObjectIs(members);
  }

  lemma ObjectIs(members: seq<Member>)
    ensures PrintJson(JObject(members)) == "{" + PrintMembers(members) + "}"
  {
  }

  // ---- labels ----

  /** Labels are an array of strings, or null. */
  lemma NoLabels()
    ensures LabelCodec.Written(None) == "null" && LabelCodec.Written(Some([])) == "[]"
  {
    assert LabelCodec.Strings([]) == [];
  }

  /** One label after the other, with commas between them. */
  lemma LabelTexts(first: string, rest: seq<string>)
    ensures LabelCodec.Written(Some(rest)) == "[" + PrintItems(LabelCodec.Strings(rest)) + "]"
    ensures rest == [] ==> PrintItems(LabelCodec.Strings([first] + rest)) == PrintString(first)
    ensures rest != [] ==> PrintItems(LabelCodec.Strings([first] + rest)) == PrintString(first) + "," + PrintItems(LabelCodec.Strings(rest))
  {
    TextIs(first);
    LabelCodec.WrittenIs(rest);
    assert LabelCodec.Strings([first] + rest) == [JString(first)] + LabelCodec.Strings(rest);
    assert [JString(first)] + [] == [JString(first)];
    ArraysAre(JString(first), LabelCodec.Strings(rest));
    hide PrintString, PrintJson, PrintItems;
  }

  lemma TextIs(s: string)
    ensures PrintJson(JString(s)) == PrintString(s)
  {
  }
}
