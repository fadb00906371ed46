/** preflightSmallPropertyDepth: counting brackets outside strings, and what the
    count comes to on text the JSON writer produced. */
module Nesting {
  import opened Text
  import opened Json

  const MAX_DEPTH := 128
  const MAX_STRUCTURAL_DEPTH := 2 * MAX_DEPTH + 2

  datatype Scan = Scan(depth: int, inString: bool, escaped: bool, peak: int)

  function Step(st: Scan, c: char): Scan {
    if st.inString then
      if st.escaped then st.(escaped := false)
      else if c == '\\' then st.(escaped := true)
      else if c == '"' then st.(inString := false)
      else st
    else if c == '"' then st.(inString := true)
    else if c == '{' || c == '[' then st.(depth := st.depth + 1, peak := Max(st.peak, st.depth + 1))
    else if c == '}' || c == ']' then st.(depth := st.depth - 1)
    else st
  }

  function Max(a: int, b: int): int {
    if a < b then b else a
  }

  function Run(st: Scan, s: string): Scan
    decreases |s|
  {
    if s == "" then st else Run(Step(st, s[0]), s[1..])
  }

  const START := Scan(0, false, false, 0)

  /** How deep the brackets of a text go, strings apart. */
  function Peak(s: string): int {
    Run(START, s).peak
  }

  lemma {:induction false} RunAppend(st: Scan, s: string, t: string)
    ensures Run(st, s + t) == Run(Run(st, s), t)
    decreases |s|
  {
    if s == "" {
      assert s + t == t;
    } else {
      assert (s + t)[1..] == s[1..] + t;
      RunAppend(Step(st, s[0]), s[1..], t);
    }
  }

  lemma {:induction false} PeakGrows(st: Scan, s: string)
    ensures st.peak <= Run(st, s).peak
    decreases |s|
  {
    if s != "" { PeakGrows(Step(st, s[0]), s[1..]); }
  }

  /** The scanner accepts exactly the texts whose brackets stay within the bound. */
  method ScanDepth(data: string) returns (ok: bool)
    ensures ok <==> Peak(data) <= MAX_STRUCTURAL_DEPTH
  {
    var depth, inString, escaped := 0, false, false;
    ghost var st := START;
    for i := 0 to |data|
      invariant st == Run(START, data[..i])
      invariant st.depth == depth && st.inString == inString && st.escaped == escaped && st.peak <= MAX_STRUCTURAL_DEPTH
    {
      assert data[..i + 1] == data[..i] + [data[i]];
      RunAppend(START, data[..i], [data[i]]);
      RunOne(st, data[i]);
      st := Step(st, data[i]);
      var c := data[i];
      if inString {
        if escaped { escaped := false; }
        else if c == '\\' { escaped := true; }
        else if c == '"' { inString := false; }
      } else if c == '"' {
        inString := true;
      } else if c == '{' || c == '[' {
        depth := depth + 1;
        if depth > MAX_STRUCTURAL_DEPTH {
          assert data == data[..i + 1] + data[i + 1..];
          RunAppend(START, data[..i + 1], data[i + 1..]);
          PeakGrows(st, data[i + 1..]);
          return false;
        }
      } else if c == '}' || c == ']' {
        depth := depth - 1;
      }
    }
    assert data[..|data|] == data;
    return true;
  }

  lemma RunOne(st: Scan, c: char)
    ensures Run(st, [c]) == Step(st, c)
  {
    assert [c][1..] == "";
  }

  // ---- written text ----

  function Depth(j: Json): nat {
    match j
    case JArray(items) => 1 + ItemsDepth(items)
    case JObject(members) => 1 + MembersDepth(members)
    case _ => 0
  }

  function ItemsDepth(items: seq<Json>): nat {
    if items == [] then 0
    else if Depth(items[0]) < ItemsDepth(items[1..]) then ItemsDepth(items[1..]) else Depth(items[0])
  }

  function MembersDepth(members: seq<Member>): nat {
    if members == [] then 0
    else if Depth(members[0].value) < MembersDepth(members[1..]) then MembersDepth(members[1..]) else Depth(members[0].value)
  }

  predicate Outside(st: Scan) {
    !st.inString && !st.escaped && st.depth <= st.peak
  }

  function Deepened(st: Scan, d: nat): Scan {
    st.(peak := Max(st.peak, st.depth + d))
  }

  predicate Quiet(c: char) {
    c !in "\"\\{}[]"
  }

  lemma {:induction false} QuietRuns(st: Scan, s: string)
    requires Outside(st) && forall i | 0 <= i < |s| :: Quiet(s[i])
    ensures Run(st, s) == st
  {
    if s != "" { QuietRuns(st, s[1..]); }
  }

  lemma HexIsQuiet(n: nat)
    requires n < 0x1_0000
    ensures forall i | 0 <= i < 4 :: Hex4(n)[i] !in "\"\\"
  {
    var a, b := n / 16, n / 16 / 16;
    HexDigitIsQuiet(b / 16);
    HexDigitIsQuiet(b % 16);
    HexDigitIsQuiet(a % 16);
    HexDigitIsQuiet(n % 16);
    hide HexDigit;
  }

  lemma HexDigitIsQuiet(n: nat)
    requires n < 16
    ensures HexDigit(n) !in "\"\\"
  {
  }

  lemma {:induction false} PlainRuns(st: Scan, s: string)
    requires st.inString && !st.escaped && forall i | 0 <= i < |s| :: s[i] !in "\"\\"
    ensures Run(st, s) == st
  {
    if s != "" { PlainRuns(st, s[1..]); }
  }

  /** A character is written as itself, or behind a backslash. */
  lemma EscapeForms(c: char)
    ensures var e := Escape(c);
            if e != "" && e[0] == '\\' then |e| >= 2 && (e[2..] == "" || (c as int < 0x1_0000 && e[2..] == Hex4(c as int))) else e == [c] && c !in "\"\\"
  {
    hide Hex4;
    var e := Escape(c);
    if Spelled(c) && |e| == 6 { assert e[2..] == Hex4(c as int); }
  }

  /** An escaped character leaves the scanner inside the string. */
  lemma EscapeRuns(st: Scan, c: char)
    requires st.inString && !st.escaped
    ensures Run(st, Escape(c)) == st
  {
    EscapeForms(c);
    hide Escape, Step, Hex4;
    var e := Escape(c);
    if e != "" && e[0] == '\\' {
      BackslashRuns(st, e);
      if e[2..] != "" {
        HexIsQuiet(c as int);
        PlainRuns(st, Hex4(c as int));
      }
    } else {
      PlainRuns(st, e);
    }
  }

  /** A backslash and the character after it leave the scan where it was. */
  lemma BackslashRuns(st: Scan, e: string)
    requires st.inString && !st.escaped && |e| >= 2 && e[0] == '\\'
    ensures Run(st, e) == Run(st, e[2..])
  {
    var after := st.(escaped := true);
    assert Step(st, e[0]) == after && Step(after, e[1]) == st;
    hide Step;
    assert e[1..][1..] == e[2..];
  }

  lemma {:induction false} EscapesRun(st: Scan, s: string)
    requires st.inString && !st.escaped
    ensures Run(st, EscapeAll(s)) == st
  {
    if s != "" {
      EscapeRuns(st, s[0]);
      EscapesRun(st, s[1..]);
      RunAppend(st, Escape(s[0]), EscapeAll(s[1..]));
    }
  }

  lemma StringRuns(st: Scan, s: string)
    requires Outside(st)
    ensures Run(st, PrintString(s)) == st
  {
    var inside := st.(inString := true);
    EscapesRun(inside, s);
    RunOne(st, '"');
    RunOne(inside, '"');
    RunAppend(st, "\"", EscapeAll(s));
    RunAppend(st, "\"" + EscapeAll(s), "\"");
  }

  lemma {:induction false} JsonRuns(st: Scan, j: Json)
    requires ValidJson(j) && Outside(st)
    ensures Run(st, PrintJson(j)) == Deepened(st, Depth(j))
    decreases j, 1
  {
    match j
    case JNull => QuietRuns(st, "null");
    case JBool(b) => QuietRuns(st, if b then "true" else "false");
    case JNumber(text) => NumberIsQuiet(text); QuietRuns(st, text);
    case JString(s) => StringRuns(st, s);
    case JArray(items) =>
      Bracketed(st, '[', PrintItems(items), ']', ItemsDepth(items)) by { ItemsRun(Opened(st), items); }
    case JObject(members) =>
      Bracketed(st, '{', PrintMembers(members), '}', MembersDepth(members)) by { MembersRun(Opened(st), members); }
  }

  function Opened(st: Scan): Scan {
    st.(depth := st.depth + 1, peak := Max(st.peak, st.depth + 1))
  }

  lemma NumberIsQuiet(text: string)
    requires forall i | 0 <= i < |text| :: NumberChar(text[i])
    ensures forall i | 0 <= i < |text| :: Quiet(text[i])
  {
    forall i | 0 <= i < |text| ensures Quiet(text[i]) { assert NumberChar(text[i]); }
  }

  lemma Bracketed(st: Scan, open: char, body: string, close: char, d: nat)
    requires Outside(st) && (open == '[' || open == '{') && (close == ']' || close == '}')
    requires Run(Opened(st), body) == Deepened(Opened(st), d)
    ensures Run(st, [open] + body + [close]) == Deepened(st, 1 + d)
  {
    RunOne(st, open);
    RunAppend(st, [open], body);
    RunAppend(st, [open] + body, [close]);
    RunOne(Deepened(Opened(st), d), close);
  }

  lemma {:induction false} ItemsRun(st: Scan, items: seq<Json>)
    requires (forall x | x in items :: ValidJson(x)) && Outside(st)
    ensures Run(st, PrintItems(items)) == Deepened(st, ItemsDepth(items))
    decreases items, 0
  {
    if items != [] {
      assert items[0] in items;
      JsonRuns(st, items[0]);
      if |items| > 1 {
        var mid := Deepened(st, Depth(items[0]));
        ItemsRun(mid, items[1..]);
        Separated(st, PrintJson(items[0]), mid, PrintItems(items[1..]));
      }
    }
  }

  lemma Separated(st: Scan, a: string, mid: Scan, b: string)
    requires Run(st, a) == mid && Outside(mid)
    ensures Run(st, a + "," + b) == Run(mid, b)
  {
    RunAppend(st, a, ",");
    RunOne(mid, ',');
    RunAppend(st, a + ",", b);
  }

  lemma {:induction false} MembersRun(st: Scan, members: seq<Member>)
    requires (forall m | m in members :: ValidJson(m.value)) && Outside(st)
    ensures Run(st, PrintMembers(members)) == Deepened(st, MembersDepth(members))
    decreases members, 1
  {
    if members != [] {
      assert members[0] in members;
      MemberRuns(st, members[0]);
      if |members| > 1 {
        var mid := Deepened(st, Depth(members[0].value));
        MembersRun(mid, members[1..]);
        Separated(st, PrintMember(members[0]), mid, PrintMembers(members[1..]));
      }
    }
  }

  lemma {:induction false} MemberRuns(st: Scan, m: Member)
    requires ValidJson(m.value) && Outside(st)
    ensures Run(st, PrintMember(m)) == Deepened(st, Depth(m.value))
    decreases m, 0
  {
    StringRuns(st, m.name);
    JsonRuns(st, m.value);
    RunAppend(st, PrintString(m.name), ":");
    RunOne(st, ':');
    RunAppend(st, PrintString(m.name) + ":", PrintJson(m.value));
  }

  /** On written text the count is the depth of the value. */
  lemma PeakIsDepth(j: Json)
    requires ValidJson(j)
    ensures Peak(PrintJson(j)) == Depth(j)
  {
    JsonRuns(START, j);
  }
}
