/** encodeLabels and decodeLabels: label lists are stored sorted and without
    repetition, as one JSON array of strings, or null for no label. */
module LabelCodec {
  import opened Base
  import opened Text
  import opened Sorted
  import opened Json

  const MAX_LABELS: nat := 4_096
  const MAX_LABEL_BYTES: nat := 65_536
  const MAX_DERIVED_BYTES: nat := 16_777_216
  const MAX_ENCODED_BYTES: nat := 67_108_864

  type Labels = Option<seq<string>>

  // ---- normal form ----

  /** sort.Strings. */
  function Insert(x: string, sorted: seq<string>): seq<string> {
    if sorted == [] || Compare(x, sorted[0]) <= 0 then [x] + sorted else [sorted[0]] + Insert(x, sorted[1..])
  }

  function SortStrings(s: seq<string>): seq<string> {
    if s == [] then [] else Insert(s[0], SortStrings(s[1..]))
  }

  ghost predicate Ascending(s: seq<string>) {
    forall i, j | 0 <= i < j < |s| :: Compare(s[i], s[j]) <= 0
  }

  lemma {:induction false} InsertHolds(x: string, sorted: seq<string>)
    requires Ascending(sorted)
    ensures Ascending(Insert(x, sorted)) && forall y :: y in Insert(x, sorted) <==> y == x || y in sorted
  {
    hide Compare;
    if sorted == [] {
    } else if Compare(x, sorted[0]) <= 0 {
      forall j | 0 < j < |sorted| ensures Compare(x, sorted[j]) <= 0 { CompareTransitive(x, sorted[0], sorted[j]); }
    } else {
      InsertHolds(x, sorted[1..]);
      CompareFlips(x, sorted[0]);
      var rest := Insert(x, sorted[1..]);
      forall j | 0 <= j < |rest| ensures Compare(sorted[0], rest[j]) <= 0 {
        assert rest[j] in rest;
        if rest[j] != x { var i :| 0 <= i < |sorted[1..]| && sorted[1..][i] == rest[j]; assert sorted[i + 1] == rest[j]; }
      }
    }
  }

  lemma {:induction false} SortHolds(s: seq<string>)
    ensures Ascending(SortStrings(s)) && forall y :: y in SortStrings(s) <==> y in s
  {
    if s != [] {
      SortHolds(s[1..]);
      InsertHolds(s[0], SortStrings(s[1..]));
    }
  }

  function LabelSet(labels: seq<string>): set<string> {
    set l | l in labels
  }

  /** normalizeLabels, for a list that is there. */
  method Normalize(labels: seq<string>) returns (out: seq<string>)
    ensures out == SortedIds(LabelSet(labels))
  {
    hide Compare, SortedIds, SortStrings;
    var copyOf := SortStrings(labels);
    SortHolds(labels);
    out := [];
    for i := 0 to |copyOf|
      invariant Increasing(out) && (forall y :: y in out <==> y in copyOf[..i])
      invariant if i == 0 then out == [] else out != [] && out[|out| - 1] == copyOf[i - 1]
    {
      assert copyOf[..i + 1] == copyOf[..i] + [copyOf[i]];
      if out == [] || out[|out| - 1] != copyOf[i] {
        if i > 0 { AppendIncreasing(out, copyOf[i]); } else { assert out == [] && Increasing([copyOf[i]]); }
        out := out + [copyOf[i]];
      } else {
        assert copyOf[i] == out[|out| - 1] && copyOf[i] in out;
      }
    }
    assert copyOf[..|copyOf|] == copyOf;
    IncreasingIsSorted(out, LabelSet(labels));
  }

  lemma AppendIncreasing(out: seq<string>, x: string)
    requires Increasing(out) && out != [] && out[|out| - 1] != x && Compare(out[|out| - 1], x) <= 0
    ensures Increasing(out + [x])
  {
    hide Compare;
    var last := out[|out| - 1];
    CompareEqual(last, x);
    forall i | 0 <= i < |out| ensures Less(out[i], x) {
      if i < |out| - 1 { assert Less(out[i], last); CompareTransitive(out[i], last, x); }
    }
  }

  // ---- what is written ----

  function Strings(labels: seq<string>): (items: seq<Json>)
    ensures |items| == |labels| && forall i | 0 <= i < |items| :: items[i] == JString(labels[i])
  {
    seq(|labels|, i requires 0 <= i < |labels| => JString(labels[i]))
  }

  function Written(labels: Labels): string {
    PrintJson(if labels.None? then JNull else JArray(Strings(labels.value)))
  }

  function TotalBytes(labels: seq<string>): nat {
    if labels == [] then 0 else TotalBytes(labels[..|labels| - 1]) + ByteLen(labels[|labels| - 1])
  }

  predicate LabelAllowed(name: string) {
    ByteLen(name) <= MAX_LABEL_BYTES && (0 as char) !in name
  }

  /** A label list that is in order and within bounds. */
  ghost predicate IsCanonical(labels: Labels) {
    labels.Some? ==>
      && |labels.value| <= MAX_LABELS && Increasing(labels.value)
      && (forall l | l in labels.value :: LabelAllowed(l))
      && TotalBytes(labels.value) <= MAX_DERIVED_BYTES
      && ByteLen(Written(labels)) <= MAX_ENCODED_BYTES
  }

  /** A label list as it may be stored; a list of no label is none. */
  ghost predicate IsStored(labels: Labels) {
    IsCanonical(labels) && labels != Some([])
  }

  lemma {:induction false} ItemsAppend(items: seq<Json>, last: Json)
    ensures PrintItems(items + [last]) == PrintItems(items) + (if items == [] then "" else ",") + PrintJson(last)
  {
    hide PrintJson;
    if |items| <= 1 {
    } else {
      ItemsAppend(items[1..], last);
      assert (items + [last])[1..] == items[1..] + [last];
      assert PrintItems(items + [last]) == PrintJson(items[0]) + "," + PrintItems(items[1..] + [last]);
    }
  }

  /** One more label. */
  lemma StringsAppend(labels: seq<string>, i: nat)
    requires i < |labels|
    ensures PrintItems(Strings(labels[..i + 1])) == PrintItems(Strings(labels[..i])) + (if i == 0 then "" else ",") + PrintString(labels[i])
    ensures TotalBytes(labels[..i + 1]) == TotalBytes(labels[..i]) + ByteLen(labels[i])
  {
    hide ByteLen, PrintString;
    assert Strings(labels[..i + 1]) == Strings(labels[..i]) + [JString(labels[i])];
    ItemsAppend(Strings(labels[..i]), JString(labels[i]));
    assert labels[..i + 1][..i] == labels[..i];
  }

  lemma {:induction false} TotalGrows(labels: seq<string>, i: nat)
    requires i <= |labels|
    ensures TotalBytes(labels[..i]) <= TotalBytes(labels)
    decreases |labels|
  {
    hide ByteLen;
    if i < |labels| {
      TotalGrows(labels[..|labels| - 1], i);
      assert labels[..|labels| - 1][..i] == labels[..i];
    } else {
      assert labels[..i] == labels;
    }
  }

  // ---- encoding ----

  /** A list is written exactly when each label, their number, their total and the
      text are within bounds; the size is known before anything is printed. */
  method EncodeLabels(labels: Labels) returns (r: Result<(string, Labels)>)
    ensures r.Ok? <==> Encodable(labels)
    ensures r.Ok? ==> r.value.1 == NormalLabels(labels) && r.value.0 == Written(r.value.1) && IsStored(r.value.1)
  {
    hide *;
    EncodableIs(labels);
    if labels.Some? && |labels.value| > MAX_LABELS { return Err(InvalidArgument); }
    if labels.Some? {
      for i := 0 to |labels.value|
        invariant forall j | 0 <= j < i :: LabelAllowed(labels.value[j])
      {
        if !LabelAllowed(labels.value[i]) { return Err(InvalidArgument); }
      }
    }
    var normalized := NormalizeLabels(labels);
    NormalIs(labels);
    if normalized.Some? {
      var size := SizeOf(normalized.value);
      if size.None? || size.value > MAX_ENCODED_BYTES { return Err(InvalidArgument); }
    }
    return Ok((Written(normalized), normalized));
  }

  /** normalizeLabels: the copy that is sorted is appended to nil, and so stays nil when
      there is no label. */
  method NormalizeLabels(labels: Labels) returns (out: Labels)
    ensures out == NormalLabels(labels)
  {
    if labels.None? { return None; }
    var normalized := Normalize(labels.value);
    return if labels.value == [] then None else Some(normalized);
  }

  function NormalLabels(labels: Labels): Labels {
    if labels.None? || labels.value == [] then None else Some(SortedIds(LabelSet(labels.value)))
  }

  /** What a caller can check before: the list given, and what it normalizes to. */
  ghost predicate Encodable(labels: Labels) {
    && (labels.Some? ==> |labels.value| <= MAX_LABELS && forall i | 0 <= i < |labels.value| :: LabelAllowed(labels.value[i]))
    && FitsText(NormalLabels(labels))
  }

  ghost predicate FitsText(labels: Labels) {
    labels.Some? ==> TotalBytes(labels.value) <= MAX_DERIVED_BYTES && ByteLen(Written(labels)) <= MAX_ENCODED_BYTES
  }

  lemma EncodableIs(labels: Labels)
    ensures Encodable(labels) <==>
              && (labels.Some? ==> |labels.value| <= MAX_LABELS && forall i | 0 <= i < |labels.value| :: LabelAllowed(labels.value[i]))
              && FitsText(NormalLabels(labels))
    ensures FitsText(NormalLabels(labels)) <==>
              (NormalLabels(labels).Some? ==> TotalBytes(NormalLabels(labels).value) <= MAX_DERIVED_BYTES
                                              && ByteLen(Written(NormalLabels(labels))) <= MAX_ENCODED_BYTES)
  {
    hide LabelAllowed, TotalBytes, ByteLen, Written, NormalLabels;
  }

  lemma NormalIs(labels: Labels)
    ensures Encodable(labels) ==> IsStored(NormalLabels(labels))
  {
    hide LabelAllowed, TotalBytes, ByteLen, Written, SortedIds;
    if labels.Some? && labels.value != [] {
      SortedHolds(LabelSet(labels.value));
      var n := SortedIds(LabelSet(labels.value));
      assert |n| <= |labels.value| by { DistinctCount(labels.value); SortedLength(LabelSet(labels.value)); }
      assert labels.value[0] in n;
    }
  }

  /** What is stored is written as it is. */
  lemma StoredIsEncoded(labels: Labels)
    requires IsStored(labels)
    ensures Encodable(labels) && NormalLabels(labels) == labels
  {
    hide LabelAllowed, TotalBytes, ByteLen, Written, SortedIds;
    if labels.Some? {
      IncreasingIsSorted(labels.value, LabelSet(labels.value));
      forall i | 0 <= i < |labels.value| ensures LabelAllowed(labels.value[i]) { assert labels.value[i] in labels.value; }
    }
  }

  /** A text that encodeLabels writes. */
  ghost predicate IsWritten(data: string) {
    exists labels: Labels :: Encodable(labels) && Written(NormalLabels(labels)) == data
  }

  /** Among the texts of canonical lists the only one never written is `[]`. */
  lemma CanonicalIsWrittenIff(labels: Labels)
    requires IsCanonical(labels)
    ensures IsWritten(Written(labels)) <==> Written(labels) != "[]"
  {
    hide Encodable, NormalLabels, IsCanonical;
    EmptyIsBrackets();
    NullIsCanonical();
    if labels != Some([]) {
      StoredIsEncoded(labels);
      if labels.Some? { OnlyEmptyIsBrackets(labels.value); }
    } else {
      forall other: Labels | Encodable(other) ensures Written(NormalLabels(other)) != "[]" {
        NormalIs(other);
        if NormalLabels(other).Some? { OnlyEmptyIsBrackets(NormalLabels(other).value); }
      }
    }
  }

  lemma EmptyIsBrackets()
    ensures Written(Some([])) == "[]" && IsCanonical(Some([])) && NormalLabels(Some([])) == None
  {
    NoLabelText();
  }

  lemma NoLabelText()
    ensures Strings([]) == [] && ByteLen("[]") == 2
  {
    assert "[]"[1..] == "]" && "]"[1..] == "";
  }

  lemma OnlyEmptyIsBrackets(labels: seq<string>)
    requires labels != []
    ensures Written(Some(labels)) != "[]"
  {
    hide PrintItems;
    WrittenIs(labels);
    StringsAppend(labels, 0);
    PrintedPrefix(labels, 1);
    PrintedOne(labels[0]);
  }

  lemma PrintedOne(s: string)
    ensures |PrintString(s)| >= 2
  {
  }

  lemma {:induction false} DistinctCount(labels: seq<string>)
    ensures |LabelSet(labels)| <= |labels|
  {
    if labels != [] {
      var n := |labels| - 1;
      DistinctCount(labels[..n]);
      assert labels == labels[..n] + [labels[n]];
      assert LabelSet(labels) == LabelSet(labels[..n]) + {labels[n]};
    }
  }

  lemma {:induction false} SortedLength(s: set<string>)
    ensures |SortedIds(s)| == |s|
    decreases |s|
  {
    if s != {} { SortedLength(s - {Least(s)}); }
  }

  /** The bytes of the text, or nothing when the labels together are too long. */
  method SizeOf(labels: seq<string>) returns (r: Option<nat>)
    ensures r.Some? <==> TotalBytes(labels) <= MAX_DERIVED_BYTES
    ensures r.Some? ==> r.value == ByteLen(Written(Some(labels)))
  {
    hide *;
    var size, derived := 2, 0;
    NothingYet(labels);
    for i := 0 to |labels|
      invariant derived == TotalBytes(labels[..i]) <= MAX_DERIVED_BYTES
      invariant size == 2 + ByteLen(PrintItems(Strings(labels[..i])))
    {
      StringsAppend(labels, i);
      derived := derived + ByteLen(labels[i]);
      if derived > MAX_DERIVED_BYTES {
        TotalGrows(labels, i + 1);
        return None;
      }
      var comma := if i > 0 then 1 else 0;
      var text := StringSize(labels[i]);
      SizeStep(PrintItems(Strings(labels[..i])), i > 0, PrintString(labels[i]));
      size := size + comma + text;
    }
    assert labels[..|labels|] == labels;
    WrittenSize(labels);
    return Some(size);
  }

  lemma NothingYet(labels: seq<string>)
    ensures TotalBytes(labels[..0]) == 0 && ByteLen(PrintItems(Strings(labels[..0]))) == 0
  {
  }

  lemma SizeStep(before: string, comma: bool, text: string)
    ensures ByteLen(before + (if comma then "," else "") + text) == ByteLen(before) + (if comma then 1 else 0) + ByteLen(text)
  {
    assert ByteLen(",") == 1 && ByteLen("") == 0;
    hide ByteLen;
    ByteLenAppend(before + (if comma then "," else ""), text);
    ByteLenAppend(before, if comma then "," else "");
  }

  lemma WrittenSize(labels: seq<string>)
    ensures ByteLen(Written(Some(labels))) == 2 + ByteLen(PrintItems(Strings(labels)))
  {
    hide PrintItems;
    var items := PrintItems(Strings(labels));
    ByteLenAppend("[" + items, "]");
    ByteLenAppend("[", items);
    assert ByteLen("[") == 1 && ByteLen("]") == 1;
  }

  // ---- decoding ----

  /** The JSON reader the program calls reads at least printed lists of strings. */
  ghost predicate ReadsPrinted(read: string -> Option<Json>) {
    forall labels :: ReadsList(read, labels)
  }

  predicate ReadsList(read: string -> Option<Json>, labels: seq<string>) {
    read(Written(Some(labels))) == Some(JArray(Strings(labels)))
  }

  /** The model's own reader is such a reader. */
  lemma OwnReaderReads()
    ensures ReadsPrinted(Read)
  {
    forall labels ensures ReadsList(Read, labels) {
      hide PrintJson, Read;
      ReadPrinted(JArray(Strings(labels)));
    }
  }

  /** Decoding a token into a Go string: null leaves it empty. */
  function AsLabel(j: Json): Option<string> {
    match j
    case JString(s) => Some(s)
    case JNull => Some("")
    case _ => None
  }

  predicate PartIs(data: string, position: nat, part: string) {
    position + |part| <= |data| && data[position..position + |part|] == part
  }

  /** preflightLabels and decodeLabels on the items of an array. */
  method DecodeItems(data: string, items: seq<Json>) returns (r: Option<seq<string>>)
    ensures r.Some? ==> IsList(data, items, r.value)
    ensures r.None? ==> !exists labels :: IsList(data, items, labels)
  {
    hide *;
    if !PartIs(data, 0, "[") {
      NoOpening(data, items);
      return None;
    }
    var position: nat, derived: nat, labels: seq<string> := 1, 0, [];
    ReadNothing(data);
    for i := 0 to |items|
      invariant |labels| == i && ReadSoFar(data, items[..i], labels, position) && derived == TotalBytes(labels)
    {
      var comma := if i > 0 then "," else "";
      var name := AsLabel(items[i]);
      OneMore(data, items, labels, position, i);
      if i + 1 > MAX_LABELS || !PartIs(data, position, comma) || name.None? || !LabelAllowed(name.value)
         || (i > 0 && Compare(name.value, labels[i - 1]) <= 0) { return None; }
      derived := derived + ByteLen(name.value);
      if derived > MAX_DERIVED_BYTES || !PartIs(data, position + |comma|, PrintString(name.value)) { return None; }
      position := position + |comma| + |PrintString(name.value)|;
      labels := labels + [name.value];
    }
    assert items[..|items|] == items;
    AllRead(data, items, labels, position);
    if position != |data| - 1 || !PartIs(data, position, "]") { return None; }
    return Some(labels);
  }

  /** The labels are those of the items, they may be stored, and the text is theirs. */
  ghost predicate IsList(data: string, items: seq<Json>, labels: seq<string>) {
    && Decoded(items, labels) && data == Written(Some(labels)) && Bounded(labels)
  }

  ghost predicate Decoded(items: seq<Json>, labels: seq<string>) {
    |items| == |labels| && forall i | 0 <= i < |items| :: AsLabel(items[i]) == Some(labels[i])
  }

  ghost predicate Bounded(labels: seq<string>) {
    |labels| <= MAX_LABELS && Increasing(labels) && (forall l | l in labels :: LabelAllowed(l)) && TotalBytes(labels) <= MAX_DERIVED_BYTES
  }

  ghost predicate ReadSoFar(data: string, items: seq<Json>, labels: seq<string>, position: nat) {
    && Decoded(items, labels) && Bounded(labels)
    && position <= |data| && data[..position] == "[" + PrintItems(Strings(labels))
  }

  lemma WrittenIs(labels: seq<string>)
    ensures Written(Some(labels)) == "[" + PrintItems(Strings(labels)) + "]"
  {
    hide PrintItems;
  }

  lemma WrittenOpens(labels: seq<string>)
    ensures PartIs(Written(Some(labels)), 0, "[")
  {
    hide PrintItems, Written;
    WrittenIs(labels);
    assert Written(Some(labels))[0..1] == "[";
  }

  lemma NoOpening(data: string, items: seq<Json>)
    requires !PartIs(data, 0, "[")
    ensures !exists labels :: IsList(data, items, labels)
  {
    hide PrintItems, Written, Bounded;
    forall labels ensures PartIs(Written(Some(labels)), 0, "[") { WrittenOpens(labels); }
  }

  lemma ReadNothing(data: string)
    requires PartIs(data, 0, "[")
    ensures ReadSoFar(data, [], [], 1) && TotalBytes([]) == 0
  {
  }

  /** The next item can be taken. */
  predicate Takes(data: string, items: seq<Json>, labels: seq<string>, position: nat, i: nat)
    requires i < |items| && |labels| == i
  {
    var comma := if i > 0 then "," else "";
    var name := AsLabel(items[i]);
    && i + 1 <= MAX_LABELS && PartIs(data, position, comma) && name.Some? && LabelAllowed(name.value)
    && (i > 0 ==> Compare(name.value, labels[i - 1]) > 0)
    && TotalBytes(labels) + ByteLen(name.value) <= MAX_DERIVED_BYTES
    && PartIs(data, position + |comma|, PrintString(name.value))
  }

  lemma OneMore(data: string, items: seq<Json>, labels: seq<string>, position: nat, i: nat)
    requires i < |items| && |labels| == i && ReadSoFar(data, items[..i], labels, position)
    ensures Takes(data, items, labels, position, i) <==>
            var comma := if i > 0 then "," else ""; var name := AsLabel(items[i]);
            i + 1 <= MAX_LABELS && PartIs(data, position, comma) && name.Some? && LabelAllowed(name.value)
            && (i > 0 ==> Compare(name.value, labels[i - 1]) > 0)
            && TotalBytes(labels) + ByteLen(name.value) <= MAX_DERIVED_BYTES
            && PartIs(data, position + |comma|, PrintString(name.value))
    ensures Takes(data, items, labels, position, i) ==>
            var comma := if i > 0 then "," else ""; var name := AsLabel(items[i]);
            ReadSoFar(data, items[..i + 1], labels + [name.value], position + |comma| + |PrintString(name.value)|)
            && TotalBytes(labels + [name.value]) == TotalBytes(labels) + ByteLen(name.value)
    ensures !Takes(data, items, labels, position, i) ==> !exists all :: IsList(data, items, all)
  {
    hide *;
    TakesIs(data, items, labels, position, i);
    if Takes(data, items, labels, position, i) {
      Taken(data, items, labels, position, i);
    } else if all :| IsList(data, items, all) {
      ListTakes(data, items, labels, position, i, all);
    }
  }

  lemma TakesIs(data: string, items: seq<Json>, labels: seq<string>, position: nat, i: nat)
    requires i < |items| && |labels| == i
    ensures Takes(data, items, labels, position, i) <==>
            var comma := if i > 0 then "," else ""; var name := AsLabel(items[i]);
            i + 1 <= MAX_LABELS && PartIs(data, position, comma) && name.Some? && LabelAllowed(name.value)
            && (i > 0 ==> Compare(name.value, labels[i - 1]) > 0)
            && TotalBytes(labels) + ByteLen(name.value) <= MAX_DERIVED_BYTES
            && PartIs(data, position + |comma|, PrintString(name.value))
  {
    hide PartIs, LabelAllowed, Compare, TotalBytes, ByteLen, PrintString;
  }

  lemma Taken(data: string, items: seq<Json>, labels: seq<string>, position: nat, i: nat)
    requires i < |items| && |labels| == i && ReadSoFar(data, items[..i], labels, position) && Takes(data, items, labels, position, i)
    ensures var comma := if i > 0 then "," else ""; var name := AsLabel(items[i]);
            ReadSoFar(data, items[..i + 1], labels + [name.value], position + |comma| + |PrintString(name.value)|)
            && TotalBytes(labels + [name.value]) == TotalBytes(labels) + ByteLen(name.value)
  {
    hide PrintItems, PrintString, LabelAllowed, TotalBytes, ByteLen, Compare, AsLabel;
    var (comma, name) := (if i > 0 then "," else "", AsLabel(items[i]).value);
    var more := labels + [name];
    assert more[..i] == labels && more[..i + 1] == more;
    StringsAppend(more, i);
    if i > 0 {
      CompareFlips(name, labels[i - 1]);
      CompareEqual(labels[i - 1], name);
      AppendIncreasing(labels, name);
    }
    JoinParts(data, position, comma, PrintString(name));
  }

  lemma JoinParts(data: string, position: nat, comma: string, text: string)
    requires position <= |data| && PartIs(data, position, comma) && PartIs(data, position + |comma|, text)
    ensures position + |comma| + |text| <= |data|
    ensures data[..position + |comma| + |text|] == data[..position] + comma + text
  {
  }

  /** What is left of a stored text starts with its next label. */
  lemma ListTakes(data: string, items: seq<Json>, labels: seq<string>, position: nat, i: nat, all: seq<string>)
    requires i < |items| && |labels| == i && ReadSoFar(data, items[..i], labels, position) && IsList(data, items, all)
    ensures Takes(data, items, labels, position, i)
  {
    hide PrintItems, PrintString, LabelAllowed, TotalBytes, ByteLen, Compare, AsLabel, Written;
    PrefixDecoded(items, labels, all);
    WrittenIs(all);
    StringsAppend(all, i);
    TotalGrows(all, i + 1);
    var comma := if i > 0 then "," else "";
    assert all[i] in all;
    if i > 0 { assert Less(all[i - 1], all[i]); CompareFlips(all[i - 1], all[i]); }
    PrintedPrefix(all, i + 1);
    var (before, text) := ("[" + PrintItems(Strings(labels)), PrintString(all[i]));
    assert before + comma + text == "[" + PrintItems(Strings(all[..i + 1]));
    assert data[..|before + comma + text|] == before + comma + text;
    assert data[position..position + |comma|] == comma;
    assert data[position + |comma|..position + |comma| + |text|] == text;
  }

  lemma PrefixDecoded(items: seq<Json>, labels: seq<string>, all: seq<string>)
    requires |labels| <= |items| && Decoded(items[..|labels|], labels) && Decoded(items, all)
    ensures labels == all[..|labels|]
  {
    hide AsLabel;
    forall j | 0 <= j < |labels| ensures labels[j] == all[j] { assert items[..|labels|][j] == items[j]; }
  }

  lemma {:induction false} PrintedPrefix(all: seq<string>, n: nat)
    requires n <= |all|
    ensures PrintItems(Strings(all[..n])) <= PrintItems(Strings(all))
    decreases |all|
  {
    hide PrintItems, PrintString, Strings;
    if n < |all| {
      var m := |all| - 1;
      PrintedPrefix(all[..m], n);
      assert all[..m][..n] == all[..n] && all[..m + 1] == all;
      StringsAppend(all, m);
    } else {
      assert all[..n] == all;
    }
  }

  lemma AllRead(data: string, items: seq<Json>, labels: seq<string>, position: nat)
    requires ReadSoFar(data, items, labels, position)
    ensures position == |data| - 1 && PartIs(data, position, "]") ==> IsList(data, items, labels)
    ensures !(position == |data| - 1 && PartIs(data, position, "]")) ==> !exists all :: IsList(data, items, all)
  {
    hide PrintItems, Bounded, AsLabel, Written;
    WrittenIs(labels);
    if position == |data| - 1 && PartIs(data, position, "]") {
      assert data == data[..position] + data[position..position + 1];
    }
    forall all | IsList(data, items, all) ensures position == |data| - 1 && PartIs(data, position, "]") {
      assert items[..|labels|] == items;
      PrefixDecoded(items, labels, all);
      assert all[..|labels|] == all;
      assert data[position..position + 1] == "]";
    }
  }

  /** decodeLabels accepts exactly the texts that encodeLabels writes, and `[]`; the list
      is the one the text stands for. */
  method DecodeLabels(read: string -> Option<Json>, data: string) returns (r: Result<Labels>)
    requires ReadsPrinted(read)
    ensures r.Ok? <==> IsWritten(data) || data == "[]"
    ensures r.Ok? ==> IsCanonical(r.value) && data == Written(r.value) && (IsStored(r.value) <==> data != "[]")
  {
    hide *;
    AcceptedTexts(data);
    r := DecodeCanonical(read, data);
    if r.Ok? { StoredUnlessEmpty(r.value); }
  }

  lemma AcceptedTexts(data: string)
    ensures (exists labels: Labels :: IsCanonical(labels) && data == Written(labels)) <==> IsWritten(data) || data == "[]"
  {
    hide Encodable, NormalLabels, IsCanonical, Written;
    EmptyIsBrackets();
    if labels: Labels :| IsCanonical(labels) && data == Written(labels) { CanonicalIsWrittenIff(labels); }
    if labels: Labels :| Encodable(labels) && Written(NormalLabels(labels)) == data { NormalIs(labels); }
  }

  lemma StoredUnlessEmpty(labels: Labels)
    requires IsCanonical(labels)
    ensures IsStored(labels) <==> Written(labels) != "[]"
  {
    hide IsCanonical, Written;
    EmptyIsBrackets();
    NullIsCanonical();
    if labels.Some? && labels.value != [] { OnlyEmptyIsBrackets(labels.value); }
  }

  method DecodeCanonical(read: string -> Option<Json>, data: string) returns (r: Result<Labels>)
    requires ReadsPrinted(read)
    ensures r.Ok? ==> IsCanonical(r.value) && data == Written(r.value)
    ensures r.Err? ==> !exists labels: Labels :: IsCanonical(labels) && data == Written(labels)
  {
    hide *;
    if ByteLen(data) > MAX_ENCODED_BYTES {
      TooLong(data);
      return Err(InvalidArgument);
    }
    NullIsCanonical();
    if data == "null" { return Ok(None); }
    var tree := read(data);
    if tree.None? || !tree.value.JArray? {
      CanonicalIsArray(read, data);
      return Err(InvalidArgument);
    }
    var labels := DecodeItems(data, tree.value.items);
    ListIsCanonical(read, data, tree.value.items);
    return if labels.Some? then Ok(Some(labels.value)) else Err(InvalidArgument);
  }

  lemma TooLong(data: string)
    requires ByteLen(data) > MAX_ENCODED_BYTES
    ensures !exists labels: Labels :: IsCanonical(labels) && data == Written(labels)
  {
    hide ByteLen, LabelAllowed, TotalBytes, PrintJson;
    assert ByteLen("null") == 4 by { NullLength(); }
    assert Written(None) == "null" by { NullIsCanonical(); }
  }

  lemma NullLength()
    ensures ByteLen("null") == 4
  {
    assert "null"[1..] == "ull" && "ull"[1..] == "ll" && "ll"[1..] == "l" && "l"[1..] == "";
  }

  lemma NullIsCanonical()
    ensures IsCanonical(None) && Written(None) == "null"
  {
  }

  lemma CanonicalIsArray(read: string -> Option<Json>, data: string)
    requires ReadsPrinted(read) && data != "null" && (read(data).None? || !read(data).value.JArray?)
    ensures !exists labels: Labels :: IsCanonical(labels) && data == Written(labels)
  {
    hide PrintJson, LabelAllowed, TotalBytes, ByteLen, Written;
    NullIsCanonical();
    forall labels: Labels ensures labels.None? || read(Written(labels)) == Some(JArray(Strings(labels.value))) { WrittenReads(read, labels); }
  }

  lemma WrittenReads(read: string -> Option<Json>, labels: Labels)
    requires ReadsPrinted(read)
    ensures labels.Some? ==> read(Written(labels)) == Some(JArray(Strings(labels.value)))
  {
    hide PrintJson, Written;
    if labels.Some? { assert ReadsList(read, labels.value); }
  }

  lemma ListIsCanonical(read: string -> Option<Json>, data: string, items: seq<Json>)
    requires ReadsPrinted(read) && read(data) == Some(JArray(items)) && ByteLen(data) <= MAX_ENCODED_BYTES && data != "null"
    ensures forall labels | IsList(data, items, labels) :: IsCanonical(Some(labels)) && data == Written(Some(labels))
    ensures (exists labels: Labels :: IsCanonical(labels) && data == Written(labels)) ==> exists labels :: IsList(data, items, labels)
  {
    hide PrintJson, LabelAllowed, TotalBytes, ByteLen;
    NullIsCanonical();
    if labels: Labels :| IsCanonical(labels) && data == Written(labels) {
      WrittenReads(read, labels);
      assert items == Strings(labels.value);
      assert IsList(data, items, labels.value);
    }
  }

  /** Decoding what was encoded gives the list sorted, without repetition, or none if it
      has no label. */
  method RoundTrip(read: string -> Option<Json>, labels: Labels) returns (r: Result<Labels>)
    requires ReadsPrinted(read)
    ensures r == if Encodable(labels) then Ok(NormalLabels(labels)) else Err(InvalidArgument)
  {
    hide *;
    var written := EncodeLabels(labels);
    if written.Err? { return Err(InvalidArgument); }
    r := DecodeLabels(read, written.value.0);
    WrittenIsAccepted(labels);
    if r.Ok? { WrittenOnce(read, r.value, written.value.1); }
  }

  lemma WrittenIsAccepted(labels: Labels)
    requires Encodable(labels)
    ensures IsWritten(Written(NormalLabels(labels)))
  {
  }

  /** A text is written for one list only. */
  lemma WrittenOnce(read: string -> Option<Json>, a: Labels, b: Labels)
    requires ReadsPrinted(read) && Written(a) == Written(b)
    ensures a == b
  {
    hide Written;
    NullIsCanonical();
    if a.Some? { NoListIsNull(a.value); WrittenReads(read, a); }
    if b.Some? { NoListIsNull(b.value); WrittenReads(read, b); }
    if a.Some? && b.Some? { StringsApart(a.value, b.value); }
  }

  lemma NoListIsNull(labels: seq<string>)
    ensures Written(Some(labels)) != "null"
  {
    hide Written;
    WrittenOpens(labels);
    assert Written(Some(labels))[0..1][0] == '[';
  }

  lemma StringsApart(a: seq<string>, b: seq<string>)
    requires Strings(a) == Strings(b)
    ensures a == b
  {
    assert |a| == |Strings(a)| == |b|;
    forall i | 0 <= i < |a| ensures a[i] == b[i] { assert Strings(a)[i] == Strings(b)[i]; }
  }
}
