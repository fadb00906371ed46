/** The preflight of large texts, decodeProperties as a whole, and what the codec
    promises: it accepts exactly the texts it writes and gives the values back. */
module PropertyRoundTrip {
  import opened Base
  import opened Text
  import opened Sorted
  import opened Sums
  import opened Json
  import opened Numerals
  import opened Base64
  import opened PropertyTree
  import opened PropertySize
  import opened PropertyValues
  import opened PropertyEncoder
  import opened PropertyCodec
  import opened PropertyDecoder
  import Nesting

  const FIELD_NAMES := ["k", "b", "s", "z", "u", "a", "o"]

  // ---- the fields a written value has ----

  /** The one field beside its kind that a value may have. */
  predicate Payload(v: Value, m: Member) {
    || (m == Member("b", JBool(true)) && Scalar(v))
    || (m == Member("s", JString(Shape(v).text)) && Scalar(v) && Shape(v).text != "")
    || (v.List? && v.items != [] && m == Member("a", JArray(TreeItems(Shapes(v.items)))))
    || (v.Map? && v.fields != map[] && m == Member("o", JObject(TreeFields(Shape(v), SortedIds(v.fields.Keys)))))
  }

  predicate Childless(v: Value) {
    (v.List? ==> v.items == []) && (v.Map? ==> v.fields == map[])
  }

  lemma ShapeMembers(v: Value)
    ensures var members := Head(Shape(v)) + Body(Shape(v));
            && 1 <= |members| <= 2 && members[0] == Member("k", JString(Shape(v).kind))
            && (|members| == 2 ==> Payload(v, members[1]) && (Shape(v).text != "" ==> members[1].name == "s"))
            && (|members| == 1 ==> Childless(v) && Shape(v).text == "")
  {
    hide TreeItems, TreeFields, SortedIds;
    if v.List? { ListMembers(v); } else if v.Map? { MapMembers(v); } else { ScalarMembers(v); }
  }

  lemma ListMembers(v: Value)
    requires v.List?
    ensures Head(Shape(v)) == [Member("k", JString("list"))] && Shape(v).text == "" && Shape(v).kind == "list"
    ensures Body(Shape(v)) == if v.items == [] then [] else [Member("a", JArray(TreeItems(Shapes(v.items))))]
  {
    hide TreeItems, TreeFields, SortedIds;
  }

  lemma MapMembers(v: Value)
    requires v.Map?
    ensures Head(Shape(v)) == [Member("k", JString("map"))] && Shape(v).text == "" && Shape(v).kind == "map"
    ensures Body(Shape(v)) == if v.fields == map[] then [] else [Member("o", JObject(TreeFields(Shape(v), SortedIds(v.fields.Keys))))]
  {
    hide TreeItems, TreeFields, SortedIds;
    ShapeKeys(v);
    assert Shape(v).fields == map[] <==> v.fields == map[] by {
      assert Shape(v).fields == map[] <==> Shape(v).fields.Keys == {};
      assert v.fields == map[] <==> v.fields.Keys == {};
    }
  }

  lemma ScalarMembers(v: Value)
    requires Scalar(v)
    ensures Body(Shape(v)) == []
    ensures var e := Shape(v);
            Head(e) == [Member("k", JString(e.kind))] + (if e.flag then [Member("b", JBool(true))] else [])
                       + (if e.text != "" then [Member("s", JString(e.text))] else [])
            && !(e.flag && e.text != "")
  {
  }

  /** A scalar's text passes the limit of its kind. */
  predicate TextAllowed(kind: string, length: int, tail: string) {
    if length < 0 then true
    else if kind == "string" then length <= MAX_SCALAR
    else if kind == "bytes" then length <= EncodedLen(MAX_SCALAR) && (length == EncodedLen(MAX_SCALAR) ==> tail == "==")
    else if kind == "date" then length <= EncodedLen(7)
    else if kind == "local_time" then length <= EncodedLen(9)
    else if kind == "offset_time" then length <= EncodedLen(13)
    else if kind == "local_datetime" then length <= EncodedLen(15)
    else if kind == "zoned_datetime" then length <= EncodedLen(20 + 65535)
    else if kind == "cypher_duration" then length <= EncodedLen(29)
    else if kind == "time" then length <= EncodedLen(32)
    else if kind in ["duration", "int", "float"] then length <= 64
    else length <= EncodedLen(MAX_SCALAR)
  }

  function Tail(text: string): string {
    if |text| > 2 then text[|text| - 2..] else text
  }

  lemma {:induction false} PaddedEnd(bytes: seq<byte>)
    requires |bytes| % 3 == 1
    ensures |Encode(bytes)| >= 4 && Encode(bytes)[|Encode(bytes)| - 2..] == "=="
  {
    if |bytes| > 1 {
      PaddedEnd(bytes[3..]);
      assert Encode(bytes)[|Encode(bytes)| - 2..] == Encode(bytes[3..])[|Encode(bytes[3..])| - 2..];
    } else {
      assert Encode(bytes)[2..] == "==";
    }
  }

  /** The preflight limits never reject the text of a value that fits. */
  lemma ShapeTextAllowed(v: Value)
    requires Scalar(v) && Fits(v, 0)
    ensures Shape(v).text != "" ==> TextAllowed(Shape(v).kind, ByteLen(Shape(v).text), Tail(Shape(v).text))
    ensures ByteLen(Shape(v).text) <= EncodedLen(MAX_SCALAR)
  {
    assert ByteLen("") == 0;
    hide Encode, Format, FormatInt, ByteLen;
    match v
    case Bytes(bytes) => BytesAllowed(bytes);
    case Int(n) => ShortNumeral(n, 0);
    case Uint(u) => ShortNumeral(u, 0);
    case Float(bits) => ShortNumeral(0, bits);
    case _ =>
  }

  lemma BytesAllowed(bytes: seq<byte>)
    requires |bytes| <= MAX_SCALAR
    ensures ByteLen(Encode(bytes)) <= EncodedLen(MAX_SCALAR)
    ensures TextAllowed("bytes", ByteLen(Encode(bytes)), Tail(Encode(bytes)))
  {
    hide Encode, ByteLen, Unescaped;
    Base64IsUnescaped(bytes);
    UnescapedIsItself(Encode(bytes));
    if EncodedLen(|bytes|) == EncodedLen(MAX_SCALAR) {
      assert |bytes| == MAX_SCALAR;
      PaddedEnd(bytes);
    }
  }

  lemma ShortNumeral(n: int, bits: nat)
    requires -MAX_UINT64 <= n <= MAX_UINT64 && bits <= MAX_UINT64
    ensures ByteLen(FormatInt(n)) <= 64 && ByteLen(Format(bits, 16)) <= 64
  {
    NumeralsAreShort(n);
    NumeralsAreShort(bits);
    NumeralsAreUnescaped(n, bits);
    UnescapedIsItself(FormatInt(n));
    UnescapedIsItself(Format(bits, 16));
  }

  // ---- the preflight ----

  /** encodedPropertyPreflight over the tokens of a text. */
  class TreePreflight {
    var values: nat

    constructor ()
      ensures values == 0
    {
      values := 0;
    }

    /** The kind and the exact size; nothing written within the limits is rejected. */
    method Admit(j: Json, depth: nat, ghost v: Value, ghost p: nat) returns (r: Option<(string, int)>)
      modifies this
      ensures r.Some? ==> r.value.1 == ByteLen(PrintJson(j))
      ensures j == Tree(Shape(v)) && Room(old(values), p, v, depth) && (depth == 0 ==> IndexFits(v))
              ==> r.Some? && r.value.0 == Shape(v).kind && values == old(values) + Cost(v, Counting)
      decreases j, 3
    {
      ghost var good := j == Tree(Shape(v)) && Room(values, p, v, depth) && (depth == 0 ==> IndexFits(v));
      hide *;
      if good { TrackStart(j, v, values, p, depth); }
      if depth > Nesting.MAX_DEPTH { return None; }
      values := values + 1;
      if values > MAX_VALUES || !j.JObject? { return None; }
      EmptyMembers();
      var kind, tail, size := "", "", 2;
      var length: int := -1;
      var seen: set<string> := {};
      var i := 0;
      while i < |j.members|
        invariant 0 <= i <= |j.members|
        invariant size == 2 + ByteLen(PrintMembers(j.members[..i]))
        invariant good ==> Track(v, j.members, i, kind, length, tail, seen, values - old(values))
      {
        var m := j.members[i];
        if good { TrackField(v, j.members, i, kind, length, tail, seen, values - old(values), old(values), p, depth); }
        if m.name !in FIELD_NAMES || m.name in seen { return None; }
        ghost var before := values;
        var value := AdmitValue(m, depth, v, p);
        if value.None? { return None; }
        ghost var (k0, l0, t0) := (kind, length, tail);
        if m.name == "k" { kind := m.value.s; }
        if m.name == "s" { length, tail := ByteLen(m.value.s), Tail(m.value.s); }
        if good { TrackStep(v, j.members, i, k0, l0, t0, seen, before - old(values), values - old(values)); }
        seen := seen + {m.name};
        assert j.members[..i + 1] == j.members[..i] + [m];
        size := AddField(j.members[..i], m.name, m.value, size, i, value.value);
        i := i + 1;
      }
      assert j.members[..i] == j.members;
      ObjectLength(j.members);
      if good { TrackEnd(v, j.members, kind, length, tail, seen, values - old(values), old(values), p, depth); }
      if !TextAllowed(kind, length, tail) { return None; }
      return Some((kind, size));
    }

    /** One field of an encoded value: what it must be, and the size of its value. */
    method AdmitValue(m: Member, depth: nat, ghost v: Value, ghost p: nat) returns (r: Option<int>)
      requires m.name in FIELD_NAMES
      modifies this
      ensures r.Some? ==> r.value == ByteLen(PrintJson(m.value)) && (m.name == "k" || m.name == "s" ==> m.value.JString?)
      ensures m.name == "k" && m.value.JString? ==> r.Some? && values == old(values)
      ensures Payload(v, m) && PayloadRoom(old(values), p, v, depth) ==> r.Some? && values == old(values) + Cost(v, Counting) - 1
      decreases m, 2
    {
      ghost var good := Payload(v, m) && PayloadRoom(values, p, v, depth);
      if good { PayloadCases(v, m, values, p, depth); }
      hide Payload, PayloadRoom, Cost, CostItems, CostFields, Sum, Fits, IndexFits, Shape, PrintJson, PrintItems, PrintMembers;
      if m.name == "k" || m.name == "s" || m.name == "z" {
        if !m.value.JString? { return None; }
        if m.name == "s" && ByteLen(m.value.s) > EncodedLen(MAX_SCALAR) { return None; }
        if m.name == "z" && ByteLen(m.value.s) > MAX_KEY { return None; }
        var text := StringValueSize(m.value.s);
        return Some(text);
      }
      if m.name == "b" {
        if !m.value.JBool? { return None; }
        BoolLengths();
        return Some(if m.value.b then 4 else 5);
      }
      if m.name == "u" {
        if !m.value.JNumber? { return None; }
        NumberLength(m.value.text);
        return Some(ByteLen(m.value.text));
      }
      if m.name == "a" {
        if !m.value.JArray? { return None; }
        r := AdmitArray(m.value.items, depth, if good then v.items else [], p);
        return;
      }
      if !m.value.JObject? { return None; }
      r := AdmitMap(m.value.members, depth, if good then v else Map(map[]), p);
    }

    method AdmitArray(items: seq<Json>, depth: nat, ghost vs: seq<Value>, ghost p: nat) returns (r: Option<int>)
      modifies this
      ensures r.Some? ==> r.value == ByteLen(PrintJson(JArray(items)))
      ensures items == TreeItems(Shapes(vs)) && RoomItems(old(values), p, vs, depth + 1) ==> r.Some? && values == old(values) + CostItems(vs, Counting)
      decreases items, 1
    {
      hide *;
      ghost var good := items == TreeItems(Shapes(vs)) && RoomItems(values, p, vs, depth + 1);
      if good { EnoughRoom(values, p, vs, depth + 1); }
      NoLength();
      var size, i := 2, 0;
      while i < |items|
        invariant 0 <= i <= |items| && size == 2 + ByteLen(PrintItems(items[..i]))
        invariant good ==> Progress(vs, i, vs[..i], values - old(values))
      {
        if good { ProgressSpent(vs, i, vs[..i], values - old(values)); }
        ghost var child, spent := Null, p;
        if good {
          ChildRoom(old(values), p, vs, items, i, depth + 1);
          child, spent := vs[i], p + CostItems(vs[..i], Paying);
        }
        ghost var before := values;
        var item := Admit(items[i], depth + 1, child, spent);
        if item.None? { return None; }
        AddItem(items[..i], items[i]);
        assert items[..i + 1] == items[..i] + [items[i]];
        if i > 0 { size := size + 1; }
        size := size + item.value.1;
        if good {
          MoreProgress(vs, i, vs[..i], before - old(values), values - old(values));
          assert vs[..i + 1] == vs[..i] + [vs[i]];
        }
        i := i + 1;
      }
      assert items[..i] == items;
      ArrayLength(items);
      if good { assert vs[..i] == vs; AllProgress(vs, vs, values - old(values)); }
      return Some(size);
    }

    method AdmitMap(members: seq<Member>, depth: nat, ghost v: Value, ghost p: nat) returns (r: Option<int>)
      requires v.Map?
      modifies this
      ensures r.Some? ==> r.value == ByteLen(PrintJson(JObject(members)))
      ensures members == TreeFields(Shape(v), SortedIds(v.fields.Keys)) && RoomFields(old(values), p, v.fields, depth + 1) && (depth == 0 ==> IndexFits(v))
              ==> r.Some? && values == old(values) + Sum(CostFields(v.fields, Counting))
      decreases members, 1
    {
      hide *;
      ghost var keys := SortedIds(v.fields.Keys);
      ghost var good := members == TreeFields(Shape(v), keys) && RoomFields(values, p, v.fields, depth + 1) && (depth == 0 ==> IndexFits(v));
      MapTrackStart(v, keys, depth);
      EmptyMembers();
      var size, i := 2, 0;
      var count: nat, bytes: nat := 0, 0;
      while i < |members|
        invariant 0 <= i <= |members| && size == 2 + ByteLen(PrintMembers(members[..i]))
        invariant good ==> MapTrack(v, keys, i, depth, values - old(values), count, bytes)
      {
        var m := members[i];
        ghost var child, spent := Null, p;
        if good {
          MapTrackField(old(values), p, v, keys, i, depth, values - old(values), count, bytes);
          child, spent := v.fields[m.name], p + Spent(v.fields, KeySet(keys, i), Paying);
        }
        if ByteLen(m.name) > MAX_KEY { return None; }
        ghost var before := values;
        var value := Admit(m.value, depth + 1, child, spent);
        if value.None? { return None; }
        AddMember(members[..i], m);
        assert members[..i + 1] == members[..i] + [m];
        var name := StringSize(m.name);
        if i > 0 { size := size + 1; }
        size := size + name + 1 + value.value.1;
        if good { MapTrackStep(v, keys, i, depth, before - old(values), count, bytes); }
        if depth == 0 && value.value.0 != "map" && value.value.0 != "list" {
          count, bytes := count + 1, bytes + ByteLen(m.name) + value.value.1;
          if count > MAX_INDEXED || bytes > MAX_INDEX_BYTES { return None; }
        }
        i := i + 1;
      }
      assert members[..i] == members;
      ObjectLength(members);
      if good { MapTrackEnd(v, keys, depth, values - old(values), count, bytes); }
      return Some(size);
    }
  }

  /** The local state of the loop over the fields of a written map. */
  ghost predicate MapTrack(v: Value, keys: seq<string>, i: nat, depth: nat, spent: int, count: nat, bytes: nat)
    requires v.Map?
  {
    && keys == SortedIds(v.fields.Keys) && i <= |keys|
    && spent == Spent(v.fields, KeySet(keys, i), Counting)
    && (depth == 0 ==> IndexFits(v) && Counted(v, KeySet(keys, i), count, bytes))
  }

  lemma MapTrackStart(v: Value, keys: seq<string>, depth: nat)
    requires v.Map? && keys == SortedIds(v.fields.Keys)
    ensures (depth == 0 ==> IndexFits(v)) ==> MapTrack(v, keys, 0, depth, 0, 0, 0)
    ensures |TreeFields(Shape(v), keys)| == |keys|
  {
    hide IndexFits, Spent, Counted, Shape, Tree;
    KeysOf(v);
    NothingSpent(v);
    NoneIndexed(v);
  }

  lemma MapTrackField(values: nat, p: nat, v: Value, keys: seq<string>, i: nat, depth: nat, spent: int, count: nat,
          bytes: nat)
    requires v.Map? && MapTrack(v, keys, i, depth, spent, count, bytes) && RoomFields(values, p, v.fields, depth + 1)
    requires i < |TreeFields(Shape(v), keys)|
    ensures i < |keys| && spent == Spent(v.fields, KeySet(keys, i), Counting)
    ensures var m := TreeFields(Shape(v), keys)[i];
            && m.name == keys[i] && m.name in v.fields && m.value == Tree(Shape(v.fields[m.name])) && ByteLen(m.name) <= MAX_KEY
            && Room(values + spent, p + Spent(v.fields, KeySet(keys, i), Paying), v.fields[m.name], depth + 1)
  {
    hide Room, RoomFields, IndexFits, Spent, Counted, Shape, Tree, KeySet, TreeFields, SortedIds;
    MemberRoom(values, p, v, keys, i, depth + 1);
  }

  lemma MapTrackStep(v: Value, keys: seq<string>, i: nat, depth: nat, spent: int, count: nat, bytes: nat)
    requires v.Map? && MapTrack(v, keys, i, depth, spent, count, bytes) && i < |keys| && keys[i] in v.fields
    ensures var x := v.fields[keys[i]];
            var size := ByteLen(keys[i]) + ByteLen(PrintJson(Tree(Shape(x))));
            if depth == 0 && Shape(x).kind != "map" && Shape(x).kind != "list"
            then count + 1 <= MAX_INDEXED && bytes + size <= MAX_INDEX_BYTES
                 && MapTrack(v, keys, i + 1, depth, spent + Cost(x, Counting), count + 1, bytes + size)
            else MapTrack(v, keys, i + 1, depth, spent + Cost(x, Counting), count, bytes)
  {
    hide *;
    var x, done := v.fields[keys[i]], KeySet(keys, i);
    MapTrackIs(v, keys, i, depth, spent, count, bytes);
    MarshalIs(Shape(x));
    SortedKeys(v);
    KeySetMore(keys, i);
    SpentMore(v, done, keys[i]);
    if depth == 0 { CountedMore(v, done, keys[i], count, bytes); }
    var more := depth == 0 && Shape(x).kind != "map" && Shape(x).kind != "list";
    var size := ByteLen(keys[i]) + ByteLen(PrintJson(Tree(Shape(x))));
    MapTrackIs(v, keys, i + 1, depth, spent + Cost(x, Counting), if more then count + 1 else count, if more then bytes + size else bytes);
  }

  lemma MapTrackIs(v: Value, keys: seq<string>, i: nat, depth: nat, spent: int, count: nat, bytes: nat)
    requires v.Map?
    ensures MapTrack(v, keys, i, depth, spent, count, bytes) <==>
            && keys == SortedIds(v.fields.Keys) && i <= |keys|
            && spent == Spent(v.fields, KeySet(keys, i), Counting)
            && (depth == 0 ==> IndexFits(v) && Counted(v, KeySet(keys, i), count, bytes))
  {
    hide IndexFits, Counted, Spent, KeySet, SortedIds;
  }

  lemma MarshalIs(e: Encoded)
    ensures Marshal(e) == PrintJson(Tree(e))
  {
  }

  lemma MapTrackEnd(v: Value, keys: seq<string>, depth: nat, spent: int, count: nat, bytes: nat)
    requires v.Map? && MapTrack(v, keys, |keys|, depth, spent, count, bytes)
    ensures spent == Sum(CostFields(v.fields, Counting))
  {
    hide IndexFits, Spent, Counted, Shape, SortedIds, Cost;
    KeysOf(v);
    AllSpent(v, KeySet(keys, |keys|));
  }

  /** The local state of the loop after i fields of a written value. */
  ghost predicate Track(v: Value, members: seq<Member>, i: nat, kind: string, length: int, tail: string,
          seen: set<string>, spent: int) {
    && members == Head(Shape(v)) + Body(Shape(v)) && i <= |members|
    && seen == (if i == 0 then {} else if i == 1 then {"k"} else {"k", members[1].name})
    && (i > 0 ==> kind == Shape(v).kind)
    && (if i == 2 && members[1].name == "s" then length == ByteLen(Shape(v).text) && tail == Tail(Shape(v).text) else length == -1)
    && spent == (if i == 2 then Cost(v, Counting) else 1)
  }

  lemma TrackStart(j: Json, v: Value, values: nat, p: nat, depth: nat)
    requires j == Tree(Shape(v)) && Room(values, p, v, depth)
    ensures depth <= Nesting.MAX_DEPTH && values + 1 <= MAX_VALUES
    ensures j.JObject? && Track(v, j.members, 0, "", -1, "", {}, 1)
  {
    ShapeMembers(v);
    CountsItself(v);
    hide Shape, Cost;
  }

  /** The next field is new, and is the kind or the payload. */
  lemma TrackField(v: Value, members: seq<Member>, i: nat, kind: string, length: int, tail: string,
          seen: set<string>, spent: int, values: nat, p: nat, depth: nat)
    requires Track(v, members, i, kind, length, tail, seen, spent) && i < |members|
    requires Room(values, p, v, depth) && (depth == 0 ==> IndexFits(v)) && depth <= Nesting.MAX_DEPTH
    ensures i <= 1 && members[i].name in FIELD_NAMES && members[i].name !in seen && spent == 1
    ensures i == 0 ==> members[i] == Member("k", JString(Shape(v).kind))
    ensures i == 1 ==> Payload(v, members[i]) && members[i].name != "k" && PayloadRoom(values + spent, p, v, depth)
  {
    hide Shape, Room, Cost, IndexFits, Fits;
    ShapeMembers(v);
    GoodStart(v, values, p, depth);
  }

  lemma TrackStep(v: Value, members: seq<Member>, i: nat, kind: string, length: int, tail: string, seen: set<string>,
          spent: int, after: int)
    requires Track(v, members, i, kind, length, tail, seen, spent) && i < |members|
    requires i == 0 ==> after == spent
    requires i == 1 ==> after == spent + Cost(v, Counting) - 1
    ensures var m := members[i];
            && (m.name == "k" || m.name == "s" ==> m.value.JString?)
            && Track(v, members, i + 1, if m.name == "k" then m.value.s else kind,
                     if m.name == "s" then ByteLen(m.value.s) else length, if m.name == "s" then Tail(m.value.s) else tail,
                     seen + {m.name}, after)
  {
    hide Shape, Cost, Tail, ByteLen, TreeItems, TreeFields;
    ShapeMembers(v);
    assert {"k"} + {members[i].name} == {"k", members[i].name} && {} + {members[i].name} == {members[i].name};
  }

  lemma TrackEnd(v: Value, members: seq<Member>, kind: string, length: int, tail: string, seen: set<string>,
          spent: int, values: nat, p: nat, depth: nat)
    requires Track(v, members, |members|, kind, length, tail, seen, spent)
    requires Room(values, p, v, depth) && (depth == 0 ==> IndexFits(v)) && depth <= Nesting.MAX_DEPTH
    ensures kind == Shape(v).kind && TextAllowed(kind, length, tail) && spent == Cost(v, Counting)
  {
    hide Shape, Room, Cost, Tail, ByteLen, IndexFits, Fits;
    ShapeMembers(v);
    GoodStart(v, values, p, depth);
    if Scalar(v) { ShapeTextAllowed(v); }
  }

  ghost predicate PayloadRoom(values: nat, p: nat, v: Value, depth: nat) {
    values >= 1 && depth <= Nesting.MAX_DEPTH && Room(values - 1, p, v, depth) && (depth == 0 ==> IndexFits(v))
  }

  lemma GoodStart(v: Value, values: nat, p: nat, depth: nat)
    requires Room(values, p, v, depth) && (depth == 0 ==> IndexFits(v)) && depth <= Nesting.MAX_DEPTH
    ensures PayloadRoom(values + 1, p, v, depth)
    ensures Childless(v) ==> Cost(v, Counting) == 1
    ensures Scalar(v) ==> Fits(v, 0)
  {
    if v.List? {
      CostOf(v, Counting);
    } else if v.Map? {
      CostOf(v, Counting);
      if v.fields == map[] { assert CostFields(v.fields, Counting) == map[]; }
    } else {
      CostOf(v, Counting);
      ScalarFits(v, depth);
    }
  }

  /** What the payload field needs, case by case. */
  lemma PayloadCases(v: Value, m: Member, values: nat, p: nat, depth: nat)
    requires Payload(v, m) && PayloadRoom(values, p, v, depth)
    ensures m.name in ["b", "s", "a", "o"]
    ensures m.name == "b" ==> m.value == JBool(true) && Cost(v, Counting) == 1
    ensures m.name == "s" ==> m.value.JString? && ByteLen(m.value.s) <= EncodedLen(MAX_SCALAR) && Cost(v, Counting) == 1
    ensures m.name == "a" ==> v.List? && m.value == JArray(TreeItems(Shapes(v.items))) && RoomItems(values, p, v.items, depth + 1)
                              && Cost(v, Counting) == 1 + CostItems(v.items, Counting)
    ensures m.name == "o" ==> v.Map? && m.value == JObject(TreeFields(Shape(v), SortedIds(v.fields.Keys))) && RoomFields(values, p, v.fields, depth + 1)
                              && (depth == 0 ==> IndexFits(v)) && Cost(v, Counting) == 1 + Sum(CostFields(v.fields, Counting))
  {
    hide Room, RoomItems, RoomFields, Cost, CostItems, CostFields, Sum, Shape, TreeItems, TreeFields, SortedIds, IndexFits, Fits;
    if v.List? {
      RoomOfList(values - 1, p, v, depth);
    } else if v.Map? {
      RoomOfMap(values - 1, p, v, depth);
    } else {
      RoomOfScalar(values - 1, p, v, depth);
      ScalarFits(v, depth);
      ShapeTextAllowed(v);
    }
  }

  lemma BoolLengths()
    ensures ByteLen(PrintJson(JBool(true))) == 4 && ByteLen(PrintJson(JBool(false))) == 5
  {
    AsciiLength("true");
    AsciiLength("false");
  }

  lemma NumberLength(text: string)
    ensures PrintJson(JNumber(text)) == text
  {
  }

  lemma NoLength()
    ensures ByteLen(PrintItems([])) == 0
  {
  }

  lemma {:induction false} TreeItemsAt(items: seq<Encoded>, i: nat)
    requires i < |items|
    ensures TreeItems(items)[i] == Tree(items[i])
  {
    if i > 0 { TreeItemsAt(items[1..], i - 1); }
  }

  lemma TreeShapesAt(vs: seq<Value>, i: nat)
    requires i < |vs|
    ensures |TreeItems(Shapes(vs))| == |vs| && TreeItems(Shapes(vs))[i] == Tree(Shape(vs[i]))
  {
    hide Tree, Shape;
    TreeItemsAt(Shapes(vs), i);
    ShapesAt(vs, i);
  }

  lemma ChildRoom(values: nat, p: nat, vs: seq<Value>, items: seq<Json>, i: nat, depth: nat)
    requires items == TreeItems(Shapes(vs)) && i < |items| && RoomItems(values, p, vs, depth)
    ensures i < |vs| && items[i] == Tree(Shape(vs[i]))
    ensures Room(values + CostItems(vs[..i], Counting), p + CostItems(vs[..i], Paying), vs[i], depth)
  {
    hide *;
    assert |TreeItems(Shapes(vs))| == |Shapes(vs)| == |vs|;
    TreeShapesAt(vs, i);
    OneRoom(values, p, vs, i, depth);
  }

  lemma OneRoom(values: nat, p: nat, vs: seq<Value>, i: nat, depth: nat)
    requires i < |vs| && RoomItems(values, p, vs, depth)
    ensures Room(values + CostItems(vs[..i], Counting), p + CostItems(vs[..i], Paying), vs[i], depth)
  {
    hide *;
    if !Room(values + CostItems(vs[..i], Counting), p + CostItems(vs[..i], Paying), vs[i], depth) {
      NoRoomForItem(values, p, vs, i, depth);
    }
  }

  function KeySet(keys: seq<string>, i: nat): set<string> {
    set j | 0 <= j < i && j < |keys| :: keys[j]
  }

  lemma {:induction false} TreeFieldsAt(e: Encoded, keys: seq<string>, i: nat)
    requires (forall k | k in keys :: k in e.fields) && i < |keys|
    ensures |TreeFields(e, keys)| == |keys| && TreeFields(e, keys)[i] == Member(keys[i], Tree(e.fields[keys[i]]))
    decreases |keys|
  {
    assert keys[0] in keys;
    if |keys| > 1 {
      TreeFieldsAt(e, keys[1..], if i == 0 then 0 else i - 1);
    }
  }

  lemma KeysOf(v: Value)
    requires v.Map?
    ensures var keys := SortedIds(v.fields.Keys);
            && KeySet(keys, 0) == {} && KeySet(keys, |keys|) == v.fields.Keys && NoDup(keys)
            && |TreeFields(Shape(v), keys)| == |keys|
  {
    var keys := SortedIds(v.fields.Keys);
    SortedHolds(v.fields.Keys);
    IncreasingNoDup(keys);
    forall k ensures k in KeySet(keys, |keys|) <==> k in keys { }
    ShapeKeys(v);
    hide Shape, Tree;
    if keys != [] { TreeFieldsAt(Shape(v), keys, 0); }
  }

  lemma KeySetMore(keys: seq<string>, i: nat)
    requires NoDup(keys) && i < |keys|
    ensures keys[i] in keys && keys[i] !in KeySet(keys, i) && KeySet(keys, i + 1) == KeySet(keys, i) + {keys[i]}
    ensures forall k | k in KeySet(keys, i) :: k in keys
  {
  }

  lemma SortedKeys(v: Value)
    requires v.Map?
    ensures NoDup(SortedIds(v.fields.Keys)) && forall k :: k in SortedIds(v.fields.Keys) <==> k in v.fields
  {
    SortedHolds(v.fields.Keys);
    IncreasingNoDup(SortedIds(v.fields.Keys));
  }

  lemma MemberRoom(values: nat, p: nat, v: Value, keys: seq<string>, i: nat, depth: nat)
    requires v.Map? && keys == SortedIds(v.fields.Keys) && i < |TreeFields(Shape(v), keys)| && RoomFields(values, p, v.fields, depth)
    ensures i < |keys|
    ensures var m := TreeFields(Shape(v), keys)[i];
            var done := KeySet(keys, i);
            && m.name == keys[i] && m.name in v.fields && m.value == Tree(Shape(v.fields[m.name])) && ByteLen(m.name) <= MAX_KEY
            && m.name !in done && done <= v.fields.Keys && KeySet(keys, i + 1) == done + {m.name}
            && Room(values + Spent(v.fields, done, Counting), p + Spent(v.fields, done, Paying), v.fields[m.name], depth)
  {
    hide Room, Shape, Tree, Fits, Spent, SortedIds, NoDup, KeySet, TreeFields, CostFields, Sum;
    SortedKeys(v);
    KeySetMore(keys, i);
    ShapeKeys(v);
    ShapeFieldAt(v, keys[i]);
    assert FieldFits(v.fields, keys[i], depth);
    TreeFieldsAt(Shape(v), keys, i);
    var done := KeySet(keys, i);
    if !Room(values + Spent(v.fields, done, Counting), p + Spent(v.fields, done, Paying), v.fields[keys[i]], depth) {
      FieldTooLarge(v, done, keys[i], values, p, depth);
    }
  }

  lemma CountStep(index: map<string, nat>, done: set<string>, k: string, count: nat, bytes: nat)
    requires k !in done && count == |Part(index, done)| && bytes == Sum(Part(index, done))
    requires |index| <= MAX_INDEXED && Sum(index) <= MAX_INDEX_BYTES
    ensures var (n, b) := if k in index then (count + 1, bytes + index[k]) else (count, bytes);
            n == |Part(index, done + {k})| <= MAX_INDEXED && b == Sum(Part(index, done + {k})) <= MAX_INDEX_BYTES
  {
    hide Sum, Part;
    NextPart(index, done, k);
    PartIsLess(index, done + {k});
    PartIsSmaller(index, done + {k});
  }

  /** Counting one more field keeps within the budget of a value that fits. */
  lemma CountedMore(v: Value, done: set<string>, k: string, count: nat, bytes: nat)
    requires v.Map? && k in v.fields && k !in done && Counted(v, done, count, bytes) && IndexFits(v)
    ensures Shape(v.fields[k]).kind != "map" && Shape(v.fields[k]).kind != "list" <==> Scalar(v.fields[k])
    ensures Scalar(v.fields[k]) ==> Counted(v, done + {k}, count + 1, bytes + ByteLen(k) + ByteLen(Marshal(Shape(v.fields[k]))))
    ensures Scalar(v.fields[k]) ==> count + 1 <= MAX_INDEXED && bytes + ByteLen(k) + ByteLen(Marshal(Shape(v.fields[k]))) <= MAX_INDEX_BYTES
    ensures !Scalar(v.fields[k]) ==> Counted(v, done + {k}, count, bytes)
  {
    hide Shape, Marshal, Sum, Part, IndexEntries, ByteLen, ValidShape;
    ShapesAreValid(v.fields[k]);
    EntryOf(v, k);
    CountStep(IndexEntries(v.fields), done, k, count, bytes);
  }

  // ---- decodeProperties ----

  const THRESHOLD := 0x1_0000

  /** The text is what the writer makes of this normal property map, or of null. */
  predicate Written(v: Value, data: string) {
    (v.Map? || v.Null?) && IsNormal(v) && Encodable(v) && data == Marshal(Shape(v))
  }

  /** Large texts are walked token by token, small ones bracket by bracket. */
  method Preflight(rd: Reader, data: string, ghost v: Value) returns (ok: bool)
    requires Faithful(rd)
    ensures Written(v, data) ==> ok
  {
    hide *;
    ghost var good := Written(v, data);
    if good { WrittenParts(rd, v, data); }
    if ByteLen(data) > MAX_BYTES { return false; }
    if ByteLen(data) > THRESHOLD {
      var tree := rd.tree(data);
      if tree.None? { return false; }
      var tokens := new TreePreflight();
      var size := tokens.Admit(tree.value, 0, v, 0);
      if size.None? { return false; }
      if good { MarshalIs(Shape(v)); }
      return size.value.1 <= MAX_BYTES;
    }
    ok := Nesting.ScanDepth(data);
  }

  lemma WrittenParts(rd: Reader, v: Value, data: string)
    requires Faithful(rd) && Written(v, data)
    ensures ByteLen(data) <= MAX_BYTES && data == Marshal(Shape(v)) && IsNormal(v) && Encodable(v)
    ensures rd.tree(data) == Some(Tree(Shape(v))) && rd.parse(data) == Some(Shape(v))
    ensures Room(0, 0, v, 0) && IndexFits(v) && Nesting.Peak(data) <= Nesting.MAX_STRUCTURAL_DEPTH
  {
    hide Cost, Shape, Tree, Marshal, Sum, IsNormal, Fits, IndexFits, Nesting.Peak;
    assert ReadsShape(rd, v);
    WrittenIsShallow(v);
  }

  /** A text is accepted exactly when the writer can produce it. */
  method DecodeProperties(rd: Reader, data: string) returns (r: Result<Value>)
    requires Faithful(rd)
    ensures r.Ok? <==> exists v :: Written(v, data)
    ensures r.Ok? ==> Written(r.value, data)
  {
    FaithfulReads(rd);
    hide *;
    ghost var v :| (exists x :: Written(x, data)) ==> Written(v, data);
    ghost var good := Written(v, data);
    if good { WrittenParts(rd, v, data); }
    var admitted := Preflight(rd, data, v);
    if !admitted { return Err(InvalidArgument); }
    var parsed := rd.parse(data);
    if parsed.None? { return Err(InvalidArgument); }
    var e := parsed.value;
    if Marshal(e) != data { return Err(InvalidArgument); }
    if good { ShapeFitsIndex(v); }
    var budget := IndexBudget(e);
    if !budget { return Err(InvalidArgument); }
    var state := new DecodeState();
    var decoded := state.DecodeValue(rd, e, 0, v, 0);
    if decoded.Err? { return Err(decoded.error); }
    if decoded.value.Null? {
      NullIsWritten(data);
      return Ok(Null);
    }
    if good { assert decoded.value == v; WrittenIsMap(v, data); }
    if !decoded.value.Map? { return Err(InvalidArgument); }
    var again := EncodeProperties(decoded.value);
    if again.Err? || again.value != data { return Err(InvalidArgument); }
    MapIsWritten(decoded.value, data);
    return Ok(decoded.value);
  }

  lemma FaithfulReads(rd: Reader)
    requires Faithful(rd)
    ensures ReadsBytes(rd)
  {
  }

  lemma WrittenIsMap(v: Value, data: string)
    requires Written(v, data)
    ensures v.Map? || v.Null?
  {
  }

  lemma MapIsWritten(v: Value, data: string)
    requires v.Map? && IsNormal(v) && Encodable(v) && data == Marshal(Shape(v))
    ensures Written(v, data)
  {
  }

  lemma NullIsWritten(data: string)
    requires data == Marshal(Plain("null"))
    ensures Written(Null, data)
  {
    NullSize();
    CostOf(Null, Counting);
    CostOf(Null, Paying);
    hide Cost, Marshal;
  }

  lemma NullSize()
    ensures ByteLen(Marshal(Shape(Null))) == 12
  {
    assert Unescaped("null") by { hide Hex4; }
    SafeTextSizeHolds("null", "");
    hide *;
    PlainNull();
  }

  lemma PlainNull()
    ensures Shape(Null) == Plain("null").(text := "") && SafeTextSize("null", 0) == 12
  {
  }

  // ---- what the codec promises ----

  lemma {:induction false} ShapeIsInjective(a: Value, b: Value)
    requires IsNormal(a) && IsNormal(b) && Shape(a) == Shape(b)
    ensures a == b
    decreases a
  {
    ShapesAreValid(a);
    ShapesAreValid(b);
    if a.List? {
      ListShape(a);
      ListShape(b);
      ShapesAreInjective(a.items, b.items);
    } else if a.Map? {
      ShapeKeys(a);
      ShapeKeys(b);
      hide Shape, IsNormal, ValidShape;
      forall k | k in a.fields ensures a.fields[k] == b.fields[k] {
        ShapeFieldAt(a, k);
        ShapeFieldAt(b, k);
        NormalField(a, k);
        NormalField(b, k);
        ShapeIsInjective(a.fields[k], b.fields[k]);
      }
      assert a.fields == b.fields;
    } else {
      ScalarIsInjective(a, b);
    }
  }

  lemma ListShape(v: Value)
    requires v.List?
    ensures Shape(v).items == Shapes(v.items)
  {
  }

  lemma NormalField(v: Value, k: string)
    requires v.Map? && IsNormal(v) && k in v.fields
    ensures IsNormal(v.fields[k])
  {
  }

  lemma {:induction false} ShapesAreInjective(a: seq<Value>, b: seq<Value>)
    requires (forall x | x in a :: IsNormal(x)) && (forall x | x in b :: IsNormal(x)) && Shapes(a) == Shapes(b)
    ensures a == b
    decreases a
  {
    if a != [] {
      assert |Shapes(b)| == |b|;
      hide Shape, IsNormal;
      assert Shapes(a)[0] == Shape(a[0]) && Shapes(b)[0] == Shape(b[0]);
      assert Shapes(a)[1..] == Shapes(a[1..]) && Shapes(b)[1..] == Shapes(b[1..]);
      assert a[0] in a && b[0] in b;
      ShapeIsInjective(a[0], b[0]);
      ShapesAreInjective(a[1..], b[1..]);
      assert a == [a[0]] + a[1..] && b == [b[0]] + b[1..];
    }
  }

  lemma ScalarIsInjective(a: Value, b: Value)
    requires Scalar(a) && Scalar(b) && IsNormal(a) && IsNormal(b) && Shape(a) == Shape(b)
    ensures a == b
  {
    match a
    case Bytes(x) =>
      Base64.RoundTrip(x);
      if b.Bytes? { Base64.RoundTrip(b.bytes); }
      hide Encode, Decode;
    case Int(n) =>
      IntRoundTrip(n);
      if b.Int? { IntRoundTrip(b.n); }
      hide FormatInt, ParseInt;
    case Float(bits) =>
      UintRoundTrip(bits);
      if b.Float? { UintRoundTrip(b.bits); }
      hide Format, ParseUint;
    case _ =>
  }

  /** A text comes from one normal value. */
  lemma WrittenOnce(rd: Reader, a: Value, b: Value, data: string)
    requires Faithful(rd) && Written(a, data) && Written(b, data)
    ensures a == b
  {
    WrittenParts(rd, a, data);
    WrittenParts(rd, b, data);
    hide *;
    ShapeIsInjective(a, b);
  }

  /** Writing and reading back gives the normal form of every storable value. */
  method RoundTrip(rd: Reader, v: Value) returns (r: Result<Value>)
    requires Faithful(rd) && (v.Map? || v.NilMap?)
    ensures r == if Encodable(v) then Ok(Normal(v)) else Err(InvalidArgument)
  {
    hide *;
    var data := EncodeProperties(v);
    if data.Err? { return Err(InvalidArgument); }
    NormalIsEncodable(v);
    NormalRoot(v, data.value);
    r := DecodeProperties(rd, data.value);
    WrittenOnce(rd, r.value, Normal(v), data.value);
  }

  lemma NormalRoot(v: Value, data: string)
    requires v.Map? || v.NilMap?
    requires Encodable(Normal(v)) && IsNormal(Normal(v)) && Shape(Normal(v)) == Shape(v) && data == Marshal(Shape(v))
    ensures Written(Normal(v), data)
  {
    hide Encodable, Marshal, Shape, IsNormal;
  }
}
