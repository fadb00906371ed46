/** encodeProperties: the input preflight, the encoder that counts as it goes, the
    size check before writing, and exactly which values pass. */
module PropertyEncoder {
  import opened Base
  import opened Text
  import opened Sorted
  import opened Sums
  import opened Json
  import opened Numerals
  import opened Base64
  import opened PropertyTree
  import opened PropertySize
  import opened PropertyValues
  import Nesting

  /** What is left of the budgets admits the value. */
  predicate Room(values: nat, payload: nat, v: Value, depth: nat) {
    Fits(v, depth) && values + Cost(v, Counting) <= MAX_VALUES && payload + Cost(v, Paying) <= MAX_BYTES
  }

  predicate RoomItems(values: nat, payload: nat, items: seq<Value>, depth: nat) {
    && (forall x | x in items :: Fits(x, depth))
    && values + CostItems(items, Counting) <= MAX_VALUES && payload + CostItems(items, Paying) <= MAX_BYTES
  }

  predicate FieldFits(fields: map<string, Value>, k: string, depth: nat)
    requires k in fields
  {
    ByteLen(k) <= MAX_KEY && Fits(fields[k], depth)
  }

  predicate RoomFields(values: nat, payload: nat, fields: map<string, Value>, depth: nat) {
    && (forall k | k in fields :: FieldFits(fields, k, depth))
    && values + Sum(CostFields(fields, Counting)) <= MAX_VALUES && payload + Sum(CostFields(fields, Paying)) <= MAX_BYTES
  }

  lemma RoomOfList(values: nat, payload: nat, v: Value, depth: nat)
    requires v.List? && depth <= Nesting.MAX_DEPTH
    ensures Room(values, payload, v, depth) <==> RoomItems(values + 1, payload, v.items, depth + 1)
    ensures Cost(v, Counting) == 1 + CostItems(v.items, Counting) && Cost(v, Paying) == CostItems(v.items, Paying)
  {
    CostOf(v, Counting);
    CostOf(v, Paying);
    hide Cost, CostItems;
  }

  lemma RoomOfMap(values: nat, payload: nat, v: Value, depth: nat)
    requires v.Map? && depth <= Nesting.MAX_DEPTH
    ensures Room(values, payload, v, depth) <==> RoomFields(values + 1, payload, v.fields, depth + 1)
    ensures Cost(v, Counting) == 1 + Sum(CostFields(v.fields, Counting)) && Cost(v, Paying) == Sum(CostFields(v.fields, Paying))
  {
    CostOf(v, Counting);
    CostOf(v, Paying);
    hide Cost, CostFields, Sum;
    assert Fits(v, depth) <==> forall k | k in v.fields :: FieldFits(v.fields, k, depth + 1);
  }

  lemma RoomOfScalar(values: nat, payload: nat, v: Value, depth: nat)
    requires Scalar(v)
    ensures Room(values, payload, v, depth) <==> Fits(v, depth) && values + 1 <= MAX_VALUES && payload + Own(v, Paying) <= MAX_BYTES
    ensures Cost(v, Counting) == 1 && Cost(v, Paying) == Own(v, Paying)
  {
    CostOf(v, Counting);
    CostOf(v, Paying);
  }

  lemma NoRoomForItem(values: nat, payload: nat, items: seq<Value>, i: nat, depth: nat)
    requires i < |items|
    requires !Room(values + CostItems(items[..i], Counting), payload + CostItems(items[..i], Paying), items[i], depth)
    ensures !RoomItems(values, payload, items, depth)
  {
    CostPrefix(items, i + 1, Counting);
    CostPrefix(items, i + 1, Paying);
    CostItemsAppend(items[..i], items[i], Counting);
    CostItemsAppend(items[..i], items[i], Paying);
    hide Cost, CostItems, Fits;
    assert items[..i + 1] == items[..i] + [items[i]];
    assert items[i] in items;
  }

  lemma NoRoomForField(values: nat, payload: nat, fields: map<string, Value>, done: set<string>, k: string, depth: nat)
    requires k in fields && k !in done && done <= fields.Keys
    requires !FieldFits(fields, k, depth)
             || !Room(values + Sum(Part(CostFields(fields, Counting), done)), payload + Sum(Part(CostFields(fields, Paying), done)), fields[k], depth)
    ensures !RoomFields(values, payload, fields, depth)
  {
    hide Cost, Fits, Sum, Part;
    SumAdd(CostFields(fields, Counting), done, k);
    SumAdd(CostFields(fields, Paying), done, k);
    PartIsLess(CostFields(fields, Counting), done + {k});
    PartIsLess(CostFields(fields, Paying), done + {k});
  }

  lemma ShapeOfList(v: Value)
    requires v.List?
    ensures Shape(v) == Plain("list").(items := Shapes(v.items))
  {
  }

  lemma ShapeOfMap(v: Value)
    requires v.Map?
    ensures Shape(v) == Plain("map").(fields := ShapeFields(v, v.fields.Keys))
  {
    assert Shape(v).fields == ShapeFields(v, v.fields.Keys);
  }

  function ShapeFields(v: Value, done: set<string>): map<string, Encoded>
    requires v.Map?
  {
    map k | k in v.fields && k in done :: Shape(v.fields[k])
  }

  lemma ScalarFits(v: Value, depth: nat)
    requires Scalar(v) && depth <= Nesting.MAX_DEPTH
    ensures Fits(v, depth) == Fits(v, 0)
  {
  }

  // ---- the encoder ----

  class EncodeState {
    var values: nat
    var payload: nat

    constructor ()
      ensures values == 0 && payload == 0
    {
      values, payload := 0, 0;
    }

    /** The tree of the value, exactly when the budgets admit it. */
    method EncodeValue(v: Value, depth: nat) returns (r: Result<Encoded>)
      requires payload <= MAX_BYTES
      modifies this
      ensures r.Ok? <==> Room(old(values), old(payload), v, depth)
      ensures r.Ok? ==> r.value == Shape(v)
      ensures r.Ok? ==> values == old(values) + Cost(v, Counting) && payload == old(payload) + Cost(v, Paying)
      decreases v, 2
    {
      if depth > Nesting.MAX_DEPTH { return Err(InvalidArgument); }
      values := values + 1;
      CountsItself(v);
      if values > MAX_VALUES { return Err(InvalidArgument); }
      hide Room, RoomItems, RoomFields, Cost, CostItems, CostFields, Sum, Fits;
      if v.List? {
        RoomOfList(old(values), old(payload), v, depth);
        ShapeOfList(v);
        r := EncodeItems(v.items, depth + 1);
      } else if v.Map? {
        RoomOfMap(old(values), old(payload), v, depth);
        ShapeOfMap(v);
        r := EncodeFields(v, depth + 1);
      } else {
        RoomOfScalar(old(values), old(payload), v, depth);
        ScalarFits(v, depth);
        r := EncodeScalar(v);
      }
    }

    /** reserveEncodedBytes. */
    method Reserve(length: nat) returns (ok: bool)
      requires payload <= MAX_BYTES
      modifies this`payload
      ensures ok <==> old(payload) + EncodedLen(length) <= MAX_BYTES
      ensures payload == old(payload) + if ok then EncodedLen(length) else 0
    {
      if payload > MAX_BYTES - EncodedLen(length) { return false; }
      payload := payload + EncodedLen(length);
      return true;
    }

    method EncodeScalar(v: Value) returns (r: Result<Encoded>)
      requires Scalar(v) && payload <= MAX_BYTES
      modifies this`payload
      ensures r.Ok? <==> Fits(v, 0) && old(payload) + Own(v, Paying) <= MAX_BYTES
      ensures r.Ok? ==> r.value == Shape(v) && payload == old(payload) + Own(v, Paying)
    {
      match v
      case Null => return Ok(Plain("null"));
      case Bool(b) => return Ok(Plain("bool").(flag := b));
      case Text(s) =>
        if ByteLen(s) > MAX_SCALAR { return Err(InvalidArgument); }
        return Ok(Plain("string").(text := s));
      case Bytes(bytes) =>
        if |bytes| > MAX_SCALAR { return Err(InvalidArgument); }
        var ok := Reserve(|bytes|);
        if !ok { return Err(InvalidArgument); }
        return Ok(Plain("bytes").(text := Encode(bytes)));
      case Int(n) => return Ok(Plain("int").(text := FormatInt(n)));
      case Uint(u) =>
        if u > MAX_INT64 { return Err(InvalidArgument); }
        return Ok(Plain("int").(text := FormatInt(u)));
      case Float(bits) => return Ok(Plain("float").(text := Format(bits, 16)));
      case NilMap => return Ok(Plain("null"));
      case NilList => return Ok(Plain("null"));
    }

    method EncodeItems(items: seq<Value>, depth: nat) returns (r: Result<Encoded>)
      requires payload <= MAX_BYTES && values <= MAX_VALUES
      modifies this
      ensures r.Ok? <==> RoomItems(old(values), old(payload), items, depth)
      ensures r.Ok? ==> r.value == Plain("list").(items := Shapes(items))
      ensures r.Ok? ==> values == old(values) + CostItems(items, Counting) && payload == old(payload) + CostItems(items, Paying)
      decreases items, 1
    {
      hide *;
      ItemsEnough(items, values, payload, depth);
      if |items| > MAX_VALUES - values { return Err(InvalidArgument); }
      NoItems(values, payload, depth);
      var out: seq<Encoded> := [];
      for i := 0 to |items|
        invariant out == Shapes(items[..i])
        invariant RoomItems(old(values), old(payload), items[..i], depth)
        invariant values == old(values) + CostItems(items[..i], Counting)
        invariant payload == old(payload) + CostItems(items[..i], Paying) <= MAX_BYTES
      {
        var item := EncodeValue(items[i], depth);
        if item.Err? {
          NoRoomForItem(old(values), old(payload), items, i, depth);
          return Err(item.error);
        }
        ItemFits(old(values), old(payload), items, i, depth);
        ShapesAppend(items[..i], items[i]);
        assert items[..i + 1] == items[..i] + [items[i]];
        out := out + [item.value];
      }
      assert items[..|items|] == items;
      return Ok(Plain("list").(items := out));
    }

    method EncodeFields(v: Value, depth: nat) returns (r: Result<Encoded>)
      requires v.Map? && payload <= MAX_BYTES && values <= MAX_VALUES
      modifies this
      ensures r.Ok? <==> RoomFields(old(values), old(payload), v.fields, depth)
      ensures r.Ok? ==> r.value == Plain("map").(fields := ShapeFields(v, v.fields.Keys))
      ensures r.Ok? ==> values == old(values) + Sum(CostFields(v.fields, Counting)) && payload == old(payload) + Sum(CostFields(v.fields, Paying))
      decreases v, 1
    {
      hide *;
      FieldsEnough(v, values, payload, depth);
      if |v.fields| > MAX_VALUES - values { return Err(InvalidArgument); }
      NothingSpent(v);
      var out: map<string, Encoded> := map[];
      var todo := v.fields.Keys;
      ghost var done: set<string> := {};
      while todo != {}
        invariant done == v.fields.Keys - todo && todo <= v.fields.Keys
        invariant out == ShapeFields(v, done)
        invariant FieldsFitIn(v.fields, done, depth)
        invariant values == old(values) + Spent(v.fields, done, Counting) <= MAX_VALUES
        invariant payload == old(payload) + Spent(v.fields, done, Paying) <= MAX_BYTES
      {
        var key :| key in todo;
        todo := todo - {key};
        if ByteLen(key) > MAX_KEY {
          FieldTooLarge(v, done, key, old(values), old(payload), depth);
          return Err(InvalidArgument);
        }
        var field := EncodeValue(v.fields[key], depth);
        if field.Err? {
          FieldTooLarge(v, done, key, old(values), old(payload), depth);
          return Err(field.error);
        }
        FieldDone(v, done, key, values, payload, depth, old(values), old(payload));
        out := out[key := field.value];
        done := done + {key};
      }
      AllDone(v, done, old(values), old(payload), depth);
      return Ok(Plain("map").(fields := out));
    }
  }

  function Spent(fields: map<string, Value>, done: set<string>, m: Measure): nat {
    Sum(Part(CostFields(fields, m), done))
  }

  predicate FieldsFitIn(fields: map<string, Value>, done: set<string>, depth: nat) {
    forall k | k in done && k in fields :: FieldFits(fields, k, depth)
  }

  lemma NothingSpent(v: Value)
    requires v.Map?
    ensures Spent(v.fields, {}, Counting) == 0 && Spent(v.fields, {}, Paying) == 0
    ensures ShapeFields(v, {}) == map[] && forall depth :: FieldsFitIn(v.fields, {}, depth)
  {
    assert Part(CostFields(v.fields, Counting), {}) == map[];
    assert Part(CostFields(v.fields, Paying), {}) == map[];
  }

  lemma FieldTooLarge(v: Value, done: set<string>, k: string, values: nat, payload: nat, depth: nat)
    requires v.Map? && k in v.fields && k !in done && done <= v.fields.Keys
    requires ByteLen(k) > MAX_KEY || !Room(values + Spent(v.fields, done, Counting), payload + Spent(v.fields, done, Paying), v.fields[k], depth)
    ensures !RoomFields(values, payload, v.fields, depth)
  {
    hide Fits, Cost, Sum, Part, CostFields, RoomFields, Room;
    NoRoomForField(values, payload, v.fields, done, k, depth);
  }

  lemma FieldDone(v: Value, done: set<string>, k: string, values: nat, payload: nat, depth: nat, values0: nat,
          payload0: nat)
    requires v.Map? && k in v.fields && k !in done && done <= v.fields.Keys && ByteLen(k) <= MAX_KEY
    requires Room(values0 + Spent(v.fields, done, Counting), payload0 + Spent(v.fields, done, Paying), v.fields[k], depth)
    requires FieldsFitIn(v.fields, done, depth)
    ensures FieldsFitIn(v.fields, done + {k}, depth)
    ensures Spent(v.fields, done + {k}, Counting) == Spent(v.fields, done, Counting) + Cost(v.fields[k], Counting)
    ensures Spent(v.fields, done + {k}, Paying) == Spent(v.fields, done, Paying) + Cost(v.fields[k], Paying)
    ensures values0 + Spent(v.fields, done + {k}, Counting) <= MAX_VALUES && payload0 + Spent(v.fields, done + {k}, Paying) <= MAX_BYTES
    ensures ShapeFields(v, done + {k}) == ShapeFields(v, done)[k := Shape(v.fields[k])]
  {
    hide Fits, Cost, Sum, Part, CostFields, Shape;
    FieldCost(v.fields, done, k, Counting);
    FieldCost(v.fields, done, k, Paying);
  }

  lemma AllDone(v: Value, done: set<string>, values: nat, payload: nat, depth: nat)
    requires v.Map? && done == v.fields.Keys && FieldsFitIn(v.fields, done, depth)
    requires values + Spent(v.fields, done, Counting) <= MAX_VALUES && payload + Spent(v.fields, done, Paying) <= MAX_BYTES
    ensures RoomFields(values, payload, v.fields, depth)
    ensures Spent(v.fields, done, Counting) == Sum(CostFields(v.fields, Counting)) && Spent(v.fields, done, Paying) == Sum(CostFields(v.fields, Paying))
  {
    hide Fits, Cost, Sum;
    AllFields(v.fields, done, Counting);
    AllFields(v.fields, done, Paying);
  }

  lemma ItemsEnough(items: seq<Value>, values: nat, payload: nat, depth: nat)
    ensures RoomItems(values, payload, items, depth) ==> |items| <= MAX_VALUES - values
  {
    ManyItemsCost(items);
    hide CostItems, Fits;
  }

  lemma FieldsEnough(v: Value, values: nat, payload: nat, depth: nat)
    requires v.Map?
    ensures RoomFields(values, payload, v.fields, depth) ==> |v.fields| <= MAX_VALUES - values
  {
    ManyFieldsCost(v.fields);
    hide Sum, CostFields, FieldFits;
  }

  lemma NoItems(values: nat, payload: nat, depth: nat)
    requires values <= MAX_VALUES && payload <= MAX_BYTES
    ensures RoomItems(values, payload, [], depth) && CostItems([], Counting) == 0 && CostItems([], Paying) == 0 && Shapes([]) == []
  {
  }

  lemma ItemFits(values: nat, payload: nat, items: seq<Value>, i: nat, depth: nat)
    requires i < |items| && RoomItems(values, payload, items[..i], depth)
    requires Room(values + CostItems(items[..i], Counting), payload + CostItems(items[..i], Paying), items[i], depth)
    ensures RoomItems(values, payload, items[..i + 1], depth) && payload + CostItems(items[..i + 1], Paying) <= MAX_BYTES
    ensures CostItems(items[..i + 1], Counting) == CostItems(items[..i], Counting) + Cost(items[i], Counting)
    ensures CostItems(items[..i + 1], Paying) == CostItems(items[..i], Paying) + Cost(items[i], Paying)
  {
    CostItemsAppend(items[..i], items[i], Counting);
    CostItemsAppend(items[..i], items[i], Paying);
    assert items[..i + 1] == items[..i] + [items[i]];
    hide Cost, CostItems, Fits;
  }

  lemma {:induction false} ShapesAppend(items: seq<Value>, v: Value)
    ensures Shapes(items + [v]) == Shapes(items) + [Shape(v)]
  {
    hide Shape;
    if items == [] {
      assert items + [v] == [v];
      assert Shapes([v]) == [Shape(v)] + Shapes([v][1..]);
    } else {
      ShapesAppend(items[1..], v);
      assert (items + [v])[1..] == items[1..] + [v];
    }
  }

  lemma FieldCost(fields: map<string, Value>, done: set<string>, k: string, m: Measure)
    requires k in fields && k !in done && done <= fields.Keys
    ensures Sum(Part(CostFields(fields, m), done + {k})) == Sum(Part(CostFields(fields, m), done)) + Cost(fields[k], m)
  {
    hide Sum, Part, Cost;
    SumAdd(CostFields(fields, m), done, k);
  }

  lemma AllFields(fields: map<string, Value>, done: set<string>, m: Measure)
    requires done == fields.Keys
    ensures Part(CostFields(fields, m), done) == CostFields(fields, m)
  {
  }

  // ---- the size of an indexed scalar ----

  /** canonicalSafeTextValueSize: kind and a text without escaped characters. */
  function SafeTextSize(kind: string, length: nat): nat {
    if length == 0 then 8 + |kind| else 15 + |kind| + length
  }

  predicate Unescaped(s: string) {
    forall i | 0 <= i < |s| :: s[i] as int < 0x80 && Escape(s[i]) == [s[i]]
  }

  lemma {:induction false} UnescapedIsItself(s: string)
    requires Unescaped(s)
    ensures EscapeAll(s) == s && ByteLen(s) == |s|
  {
    if s != "" {
      UnescapedIsItself(s[1..]);
      assert s == [s[0]] + s[1..];
    }
  }

  lemma UnescapedText(s: string)
    requires Unescaped(s)
    ensures ByteLen(PrintJson(JString(s))) == |s| + 2
  {
    UnescapedIsItself(s);
    StringLength(s);
  }

  lemma NameLengths()
    ensures ByteLen(PrintString("k")) == 3 && ByteLen(PrintString("s")) == 3
  {
    UnescapedIsItself("k");
    UnescapedIsItself("s");
    StringLength("k");
    StringLength("s");
  }

  lemma SafeTextSizeHolds(kind: string, text: string)
    requires Unescaped(kind) && Unescaped(text)
    ensures ByteLen(Marshal(Plain(kind).(text := text))) == SafeTextSize(kind, |text|)
  {
    hide PrintJson, PrintString, PrintMembers, EscapeAll, Unescaped, ByteLen;
    var e := Plain(kind).(text := text);
    var k, t := Member("k", JString(kind)), Member("s", JString(text));
    UnescapedText(kind);
    UnescapedText(text);
    NameLengths();
    EmptyMembers();
    AddMember([], k);
    AddMember([k], t);
    assert [] + [k] == [k];
    assert Tree(e) == JObject(if text != "" then [k] + [t] else [k]);
    ObjectLength(if text != "" then [k] + [t] else [k]);
  }

  lemma NumeralsAreUnescaped(n: int, bits: nat)
    ensures Unescaped(FormatInt(n)) && Unescaped(Format(bits, 16))
  {
    FormatRoundTrip(if n < 0 then -n else n, 10);
    FormatRoundTrip(bits, 16);
    DigitsAreUnescaped(Format(bits, 16));
    DigitsAreUnescaped(FormatInt(n)) by {
      forall i | 0 <= i < |FormatInt(n)| ensures HexValue(FormatInt(n)[i]).Some? || FormatInt(n)[i] == '-' {
        assert n < 0 && i > 0 ==> FormatInt(n)[i] == Format(-n, 10)[i - 1];
      }
    }
  }

  lemma DigitsAreUnescaped(s: string)
    requires forall i | 0 <= i < |s| :: HexValue(s[i]).Some? || s[i] == '-'
    ensures Unescaped(s)
  {
    hide Escape, HexValue;
    forall i | 0 <= i < |s| ensures s[i] as int < 0x80 && Escape(s[i]) == [s[i]] { DigitIsUnescaped(s[i]); }
  }

  lemma DigitIsUnescaped(c: char)
    requires HexValue(c).Some? || c == '-'
    ensures c as int < 0x80 && Escape(c) == [c]
  {
    hide Hex4;
  }

  lemma Base64IsUnescaped(bytes: seq<byte>)
    ensures Unescaped(Encode(bytes)) && |Encode(bytes)| == EncodedLen(|bytes|)
  {
    EncodeIsSafe(bytes);
    hide Safe, Encode, Escape;
    forall i | 0 <= i < |Encode(bytes)| ensures Encode(bytes)[i] as int < 0x80 && Escape(Encode(bytes)[i]) == [Encode(bytes)[i]] {
      SafeIsUnescaped(Encode(bytes)[i]);
    }
  }

  lemma SafeIsUnescaped(c: char)
    requires Safe(c)
    ensures c as int < 0x80 && Escape(c) == [c]
  {
    hide Hex4;
  }

  /** decimalUint64Length and hexadecimalUint64Length. */
  method NumeralLength(n: nat, base: nat) returns (length: nat)
    requires 2 <= base <= 16
    ensures length == |Format(n, base)|
  {
    hide *;
    length := 1;
    var value: nat := n;
    while value >= base
      invariant 0 <= value && length + |Format(value, base)| == |Format(n, base)| + 1
      decreases value
    {
      DivMod(value, base);
      OneDigitLess(value, base);
      value := value / base;
      length := length + 1;
    }
    OneDigit(value, base);
  }

  lemma OneDigitLess(n: nat, base: nat)
    requires 2 <= base <= 16 && n >= base
    ensures |Format(n, base)| == |Format(n / base, base)| + 1
  {
  }

  lemma OneDigit(n: nat, base: nat)
    requires 2 <= base <= 16 && n < base
    ensures |Format(n, base)| == 1
  {
  }

  /** decimalInt64Length. */
  method IntLength(n: int) returns (length: nat)
    ensures length == |FormatInt(n)|
  {
    if n >= 0 {
      length := NumeralLength(n, 10);
    } else {
      length := NumeralLength(-(n + 1) + 1, 10);
      length := 1 + length;
    }
  }

  /** scalarPropertyEncodedSize: the exact size without building the text, or an
      error for an unsigned integer out of range. */
  method ScalarSize(v: Value) returns (r: Result<int>)
    requires Scalar(v)
    ensures r.Err? <==> v.Uint? && v.u > MAX_INT64
    ensures r.Ok? ==> r.value == ByteLen(Marshal(Shape(v)))
  {
    hide Marshal, Unescaped, FormatInt, Format, Encode, ByteLen;
    KindsAreUnescaped();
    match v
    case Bytes(bytes) =>
      Base64IsUnescaped(bytes);
      SafeTextSizeHolds("bytes", Encode(bytes));
      return Ok(SafeTextSize("bytes", EncodedLen(|bytes|)));
    case Int(n) =>
      var length := IntLength(n);
      IntSizeHolds(n);
      return Ok(SafeTextSize("int", length));
    case Uint(u) =>
      if u > MAX_INT64 { return Err(InvalidArgument); }
      var length := IntLength(u);
      IntSizeHolds(u);
      return Ok(SafeTextSize("int", length));
    case Float(bits) =>
      NumeralsAreUnescaped(0, bits);
      SafeTextSizeHolds("float", Format(bits, 16));
      var length := NumeralLength(bits, 16);
      return Ok(SafeTextSize("float", length));
    case _ =>
      var size := CanonicalSize(Shape(v));
      return Ok(size);
  }

  lemma KindsAreUnescaped()
    ensures Unescaped("bytes") && Unescaped("int") && Unescaped("float")
  {
    hide Hex4;
  }

  lemma IntSizeHolds(n: int)
    ensures ByteLen(Marshal(Plain("int").(text := FormatInt(n)))) == SafeTextSize("int", |FormatInt(n)|)
  {
    KindsAreUnescaped();
    NumeralsAreUnescaped(n, 0);
    SafeTextSizeHolds("int", FormatInt(n));
  }
}
