/** decodeProperties: reading, the preflight of large texts, decoding, and the two
    comparisons that leave exactly the texts the writer produces. */
module PropertyDecoder {
  import opened Base
  import opened Text
  import opened Sorted
  import opened Sums
  import opened Json
  import opened Numerals
  import opened Base64
  import opened PropertyTree
  import opened PropertySize
  import opened PropertyValues
  import opened PropertyEncoder
  import opened PropertyCodec
  import Nesting

  // ---- the readers the program calls ----

  /** encoding/json and encoding/base64: their tokens, their struct decoding, their
      byte strings. */
  datatype Reader = Reader(tree: string -> Option<Json>, parse: string -> Option<Encoded>, bytes: string -> Option<seq<byte>>)

  /** Of other texts than those printed for values of storable depth and scalars
      nothing is assumed: they may be read or not. */
  ghost predicate Faithful(rd: Reader) {
    && (forall v | Fits(v, 0) :: ReadsShape(rd, v))
    && ReadsBytes(rd)
  }

  predicate ReadsShape(rd: Reader, v: Value) {
    rd.tree(Marshal(Shape(v))) == Some(Tree(Shape(v))) && rd.parse(Marshal(Shape(v))) == Some(Shape(v))
  }

  ghost predicate ReadsBytes(rd: Reader) {
    forall b :: rd.bytes(Encode(b)) == Some(b)
  }

  function ParseStruct(s: string): Option<Encoded> {
    var j := Read(s);
    if j.None? then None else FromTree(j.value)
  }

  /** The model's own reader, which reads numerals and depths of any kind, is one. */
  lemma StrictReaderIsFaithful()
    ensures Faithful(Reader(Read, ParseStruct, Decode))
  {
    var rd := Reader(Read, ParseStruct, Decode);
    forall v | Fits(v, 0) ensures ReadsShape(rd, v) { ShapeIsRead(v); }
    forall b: seq<byte> ensures Decode(Encode(b)) == Some(b) { Base64.RoundTrip(b); }
  }

  lemma ShapeIsRead(v: Value)
    ensures ReadsShape(Reader(Read, ParseStruct, Decode), v)
  {
    var e := Shape(v);
    ShapeIsSound(v);
    hide Shape;
    TreeIsValid(e);
    assert Marshal(e) == PrintJson(Tree(e));
    ReadPrinted(Tree(e));
    TreeRoundTrip(e);
    hide Read, PrintJson, Tree, FromTree;
  }

  lemma {:induction false} ShapeIsSound(v: Value)
    ensures Sound(Shape(v))
    decreases v
  {
    if v.List? {
      ShapesAreSound(v.items);
    } else if v.Map? {
      forall k | k in v.fields { ShapeIsSound(v.fields[k]); }
    }
  }

  lemma {:induction false} ShapesAreSound(items: seq<Value>)
    ensures forall e | e in Shapes(items) :: Sound(e)
    decreases items
  {
    if items != [] {
      ShapeIsSound(items[0]);
      ShapesAreSound(items[1..]);
    }
  }

  // ---- one value at a time ----

  class DecodeState {
    var values: nat

    constructor ()
      ensures values == 0
    {
      values := 0;
    }

    /** Whatever is accepted is normal, and the shape of a normal value within the
        limits is accepted and gives that value back; v stands for any value. */
    method DecodeValue(rd: Reader, e: Encoded, depth: nat, ghost v: Value, ghost p: nat) returns (r: Result<Value>)
      requires ReadsBytes(rd)
      modifies this
      ensures r.Ok? ==> IsNormal(r.value) && (r.value.Null? ==> e == Plain("null"))
      ensures IsNormal(v) && e == Shape(v) && Room(old(values), p, v, depth) ==> r == Ok(v) && values == old(values) + Cost(v, Counting)
      decreases e, 2
    {
      ghost var good := IsNormal(v) && e == Shape(v) && Room(old(values), p, v, depth);
      if depth > Nesting.MAX_DEPTH { return Err(InvalidArgument); }
      values := values + 1;
      CountsItself(v);
      if values > MAX_VALUES { return Err(InvalidArgument); }
      ShapesAreValid(v);
      hide *;
      if !ValidShape(e) { return Err(InvalidArgument); }
      if e.kind == "list" {
        if good { GoodList(e, v, values - 1, p, depth); }
        var items := DecodeItems(rd, e.items, depth + 1, if good then v.items else [], p);
        if items.Err? { return Err(items.error); }
        NormalList(items.value);
        return Ok(List(items.value));
      } else if e.kind == "map" {
        if good { GoodMap(e, v, values - 1, p, depth); }
        var fields := DecodeFields(rd, e, depth + 1, if good then v else Map(map[]), p);
        if fields.Err? { return Err(fields.error); }
        NormalMapOf(fields.value);
        return Ok(Map(fields.value));
      } else {
        if good { GoodScalar(v, values - 1, p, depth); }
        r := DecodeScalar(rd, e, v);
      }
    }

    method DecodeItems(rd: Reader, items: seq<Encoded>, depth: nat, ghost vs: seq<Value>,
            ghost p: nat) returns (r: Result<seq<Value>>)
      requires ReadsBytes(rd)
      modifies this
      ensures r.Ok? ==> AllNormal(r.value)
      ensures AllNormal(vs) && items == Shapes(vs) && RoomItems(old(values), p, vs, depth)
              ==> r == Ok(vs) && values == old(values) + CostItems(vs, Counting)
      decreases items, 1
    {
      hide ReadsBytes, Room, RoomItems, Cost, CostItems, IsNormal, Shape, AllNormal, Shapes, Fits, Progress;
      ghost var good := AllNormal(vs) && items == Shapes(vs) && RoomItems(values, p, vs, depth);
      if good { EnoughRoom(values, p, vs, depth); }
      if |items| > MAX_VALUES - values { return Err(InvalidArgument); }
      NoCost();
      var result: seq<Value> := [];
      var i := 0;
      while i < |items|
        invariant 0 <= i <= |items| && AllNormal(result)
        invariant good ==> Progress(vs, i, result, values - old(values))
      {
        if good { ProgressSpent(vs, i, result, values - old(values)); }
        ghost var child, spent := Null, p;
        if good {
          ItemRoom(old(values), p, vs, i, depth);
          child, spent := vs[i], p + CostItems(vs[..i], Paying);
        }
        ghost var before := values;
        var item := DecodeValue(rd, items[i], depth, child, spent);
        if item.Err? { return Err(item.error); }
        NormalMore(result, item.value);
        if good { MoreProgress(vs, i, result, before - old(values), values - old(values)); }
        result := result + [item.value];
        i := i + 1;
      }
      if good { AllProgress(vs, result, values - old(values)); }
      return Ok(result);
    }

    method DecodeFields(rd: Reader, e: Encoded, depth: nat, ghost v: Value,
            ghost p: nat) returns (r: Result<map<string, Value>>)
      requires ReadsBytes(rd) && v.Map?
      modifies this
      ensures r.Ok? ==> forall k | k in r.value :: IsNormal(r.value[k])
      ensures IsNormal(v) && e == Shape(v) && RoomFields(old(values), p, v.fields, depth)
              ==> r == Ok(v.fields) && values == old(values) + Sum(CostFields(v.fields, Counting))
      decreases e, 1
    {
      hide *;
      ghost var good := IsNormal(v) && e == Shape(v) && RoomFields(values, p, v.fields, depth);
      if good { FieldsStart(values, p, e, v, depth); }
      if |e.fields| > MAX_VALUES - values { return Err(InvalidArgument); }
      var result: map<string, Value> := map[];
      var todo := e.fields.Keys;
      ghost var done: set<string> := {};
      while todo != {}
        invariant done == e.fields.Keys - todo && todo <= e.fields.Keys
        invariant forall k | k in result :: IsNormal(result[k])
        invariant good ==> result == Restricted(v, done) && values == old(values) + Spent(v.fields, done, Counting)
      {
        var key :| key in todo;
        ghost var child, spent := Null, p;
        if good {
          FieldRoom(old(values), p, e, v, done, key, depth);
          child, spent := v.fields[key], p + Spent(v.fields, done, Paying);
        }
        todo := todo - {key};
        if ByteLen(key) > MAX_KEY { return Err(InvalidArgument); }
        var field := DecodeValue(rd, e.fields[key], depth, child, spent);
        if field.Err? { return Err(field.error); }
        if good { RestrictedMore(v, done, key); SpentMore(v, done, key); }
        result := result[key := field.value];
        done := done + {key};
      }
      if good { FieldsEnd(e, v, done); }
      return Ok(result);
    }

    method DecodeScalar(rd: Reader, e: Encoded, ghost v: Value) returns (r: Result<Value>)
      requires ReadsBytes(rd) && ValidShape(e)
      ensures r.Ok? ==> Scalar(r.value) && IsNormal(r.value) && (r.value.Null? ==> e == Plain("null"))
      ensures IsNormal(v) && Scalar(v) && e == Shape(v) && Fits(v, 0) ==> r == Ok(v)
    {
      ScalarRoundTrip(rd, v);
      NullShape(e);
      ScalarKinds(v);
      hide ReadsBytes, Fits, Shape, ValidShape, ByteLen;
      if e.kind == "null" { return Ok(Null); }
      if e.kind == "bool" { return Ok(Bool(e.flag)); }
      if e.kind == "string" {
        if ByteLen(e.text) > MAX_SCALAR { return Err(InvalidArgument); }
        return Ok(Text(e.text));
      }
      if e.kind == "bytes" {
        if ByteLen(e.text) > EncodedLen(MAX_SCALAR) { return Err(InvalidArgument); }
        var bytes := rd.bytes(e.text);
        if bytes.None? || |bytes.value| > MAX_SCALAR { return Err(InvalidArgument); }
        return Ok(Bytes(bytes.value));
      }
      if e.kind == "int" {
        var n := ParseInt(e.text);
        if n.None? { return Err(InvalidArgument); }
        return Ok(Int(n.value));
      }
      if e.kind == "float" {
        var bits := ParseUint(e.text, 16);
        if bits.None? { return Err(InvalidArgument); }
        return Ok(Float(bits.value));
      }
      return Err(InvalidArgument);
    }
  }

  lemma ScalarKinds(v: Value)
    ensures Scalar(v) && IsNormal(v) ==> Shape(v).kind in ["null", "bool", "string", "bytes", "int", "float"]
  {
  }

  lemma NullShape(e: Encoded)
    requires ValidShape(e)
    ensures e.kind == "null" ==> e == Plain("null")
  {
  }

  predicate AllNormal(vs: seq<Value>) {
    forall x | x in vs :: IsNormal(x)
  }

  lemma NormalList(items: seq<Value>)
    requires AllNormal(items)
    ensures IsNormal(List(items))
  {
  }

  lemma NormalMapOf(fields: map<string, Value>)
    requires forall k | k in fields :: IsNormal(fields[k])
    ensures IsNormal(Map(fields))
  {
  }

  lemma NormalMore(vs: seq<Value>, v: Value)
    requires AllNormal(vs) && IsNormal(v)
    ensures AllNormal(vs + [v])
  {
  }

  predicate Progress(vs: seq<Value>, i: nat, result: seq<Value>, spent: int) {
    i <= |vs| && result == vs[..i] && spent == CostItems(vs[..i], Counting)
  }

  lemma EnoughRoom(values: nat, p: nat, vs: seq<Value>, depth: nat)
    requires RoomItems(values, p, vs, depth)
    ensures |vs| <= MAX_VALUES - values && |Shapes(vs)| == |vs| && Progress(vs, 0, [], 0)
  {
    ManyItemsCost(vs);
  }

  lemma ProgressSpent(vs: seq<Value>, i: nat, result: seq<Value>, spent: int)
    requires Progress(vs, i, result, spent)
    ensures i <= |vs| && spent == CostItems(vs[..i], Counting)
  {
  }

  lemma AllProgress(vs: seq<Value>, result: seq<Value>, spent: int)
    requires Progress(vs, |vs|, result, spent)
    ensures result == vs && spent == CostItems(vs, Counting)
  {
    assert vs[..|vs|] == vs;
  }

  lemma MoreProgress(vs: seq<Value>, i: nat, result: seq<Value>, spent: int, after: int)
    requires i < |vs| && Progress(vs, i, result, spent) && after == spent + Cost(vs[i], Counting)
    ensures Progress(vs, i + 1, result + [vs[i]], after)
  {
    hide Cost, CostItems;
    CostItemsAppend(vs[..i], vs[i], Counting);
    assert vs[..i + 1] == vs[..i] + [vs[i]];
  }

  lemma NoCost()
    ensures CostItems([], Counting) == 0 && CostItems([], Paying) == 0 && AllNormal([])
  {
  }

  lemma GoodList(e: Encoded, v: Value, values: nat, p: nat, depth: nat)
    requires e.kind == "list" && IsNormal(v) && e == Shape(v) && Room(values, p, v, depth) && depth <= Nesting.MAX_DEPTH
    ensures v.List? && e.items == Shapes(v.items) && AllNormal(v.items) && RoomItems(values + 1, p, v.items, depth + 1)
    ensures Cost(v, Counting) == 1 + CostItems(v.items, Counting)
  {
    ShapesAreValid(v);
    hide Room, RoomItems, Cost;
    RoomOfList(values, p, v, depth);
  }

  lemma GoodMap(e: Encoded, v: Value, values: nat, p: nat, depth: nat)
    requires e.kind == "map" && IsNormal(v) && e == Shape(v) && Room(values, p, v, depth) && depth <= Nesting.MAX_DEPTH
    ensures v.Map? && RoomFields(values + 1, p, v.fields, depth + 1)
    ensures Cost(v, Counting) == 1 + Sum(CostFields(v.fields, Counting))
  {
    ShapesAreValid(v);
    hide Room, RoomFields, Cost, Sum;
    RoomOfMap(values, p, v, depth);
  }

  lemma GoodScalar(v: Value, values: nat, p: nat, depth: nat)
    requires Room(values, p, v, depth) && depth <= Nesting.MAX_DEPTH
    ensures Scalar(v) ==> Cost(v, Counting) == 1 && Fits(v, 0)
  {
    if Scalar(v) {
      RoomOfScalar(values, p, v, depth);
      ScalarFits(v, depth);
    }
  }

  lemma ItemRoom(values: nat, p: nat, vs: seq<Value>, i: nat, depth: nat)
    requires i < |vs| && RoomItems(values, p, vs, depth) && AllNormal(vs)
    ensures IsNormal(vs[i])
    ensures Room(values + CostItems(vs[..i], Counting), p + CostItems(vs[..i], Paying), vs[i], depth)
    ensures Shapes(vs)[i] == Shape(vs[i])
    ensures CostItems(vs[..i + 1], Counting) == CostItems(vs[..i], Counting) + Cost(vs[i], Counting)
  {
    hide Room, RoomItems, Cost, CostItems;
    if !Room(values + CostItems(vs[..i], Counting), p + CostItems(vs[..i], Paying), vs[i], depth) {
      NoRoomForItem(values, p, vs, i, depth);
    }
    ShapesAt(vs, i);
    CostItemsAppend(vs[..i], vs[i], Counting);
    assert vs[..i + 1] == vs[..i] + [vs[i]];
  }

  lemma {:induction false} ShapesAt(vs: seq<Value>, i: nat)
    requires i < |vs|
    ensures Shapes(vs)[i] == Shape(vs[i])
  {
    if i > 0 { ShapesAt(vs[1..], i - 1); }
  }

  function Restricted(v: Value, done: set<string>): map<string, Value>
    requires v.Map?
  {
    map k | k in v.fields && k in done :: v.fields[k]
  }

  lemma FieldsStart(values: nat, p: nat, e: Encoded, v: Value, depth: nat)
    requires v.Map? && e == Shape(v) && RoomFields(values, p, v.fields, depth)
    ensures |e.fields| <= MAX_VALUES - values && Restricted(v, {}) == map[] && Spent(v.fields, {}, Counting) == 0
  {
    ManyFieldsCost(v.fields);
    ShapeKeys(v);
    SameSize(e.fields, v.fields);
    NothingSpent(v);
    NoneRestricted(v);
    hide Shape, Sum, CostFields, Spent, Restricted, FieldFits;
  }

  lemma FieldsEnd(e: Encoded, v: Value, done: set<string>)
    requires v.Map? && e == Shape(v) && done == e.fields.Keys
    ensures Restricted(v, done) == v.fields && Spent(v.fields, done, Counting) == Sum(CostFields(v.fields, Counting))
  {
    ShapeKeys(v);
    hide *;
    AllRestricted(v, done);
    AllSpent(v, done);
  }

  lemma NoneRestricted(v: Value)
    requires v.Map?
    ensures Restricted(v, {}) == map[]
  {
  }

  lemma RestrictedMore(v: Value, done: set<string>, k: string)
    requires v.Map? && k in v.fields
    ensures Restricted(v, done + {k}) == Restricted(v, done)[k := v.fields[k]]
  {
  }

  lemma AllRestricted(v: Value, done: set<string>)
    requires v.Map? && done == v.fields.Keys
    ensures Restricted(v, done) == v.fields
  {
  }

  lemma SameSize(a: map<string, Encoded>, b: map<string, Value>)
    requires a.Keys == b.Keys
    ensures |a| == |b|
  {
    assert |a| == |a.Keys| && |b| == |b.Keys|;
  }

  lemma FieldRoom(values: nat, p: nat, e: Encoded, v: Value, done: set<string>, k: string, depth: nat)
    requires v.Map? && IsNormal(v) && e == Shape(v) && RoomFields(values, p, v.fields, depth) && k in e.fields && k !in done && done <= e.fields.Keys
    ensures e.fields.Keys == v.fields.Keys && IsNormal(v.fields[k]) && e.fields[k] == Shape(v.fields[k]) && ByteLen(k) <= MAX_KEY
    ensures Room(values + Spent(v.fields, done, Counting), p + Spent(v.fields, done, Paying), v.fields[k], depth)
  {
    ShapeKeys(v);
    ShapeFieldAt(v, k);
    assert FieldFits(v.fields, k, depth);
    hide Room, RoomFields, Spent, Shape, Cost;
    if !Room(values + Spent(v.fields, done, Counting), p + Spent(v.fields, done, Paying), v.fields[k], depth) {
      FieldTooLarge(v, done, k, values, p, depth);
    }
  }

  /** The payload of each scalar kind reads back. */
  lemma ScalarRoundTrip(rd: Reader, v: Value)
    requires ReadsBytes(rd)
    ensures IsNormal(v) && Scalar(v) && Fits(v, 0) ==> ReadsBack(rd, Shape(v), v)
  {
    match v
    case Bytes(bytes) =>
      Base64IsUnescaped(bytes);
      UnescapedIsItself(Encode(bytes));
      hide Encode;
    case Int(n) => IntRoundTrip(n);
    case Float(bits) => UintRoundTrip(bits);
    case _ =>
  }

  predicate ReadsBack(rd: Reader, e: Encoded, v: Value) {
    if e.kind == "null" then v == Null
    else if e.kind == "bool" then v == Bool(e.flag)
    else if e.kind == "string" then ByteLen(e.text) <= MAX_SCALAR && v == Text(e.text)
    else if e.kind == "bytes" then
      ByteLen(e.text) <= EncodedLen(MAX_SCALAR) && v.Bytes? && rd.bytes(e.text) == Some(v.bytes) && |v.bytes| <= MAX_SCALAR
    else if e.kind == "int" then v.Int? && ParseInt(e.text) == Some(v.n)
    else e.kind == "float" && v.Float? && ParseUint(e.text, 16) == Some(v.bits)
  }
}
