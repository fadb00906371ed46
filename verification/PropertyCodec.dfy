/** encodeProperties and decodeProperties as a pair: which values are written, which
    texts are accepted, and what comes back. */
module PropertyCodec {
  import opened Base
  import opened Text
  import opened Sorted
  import opened Sums
  import opened Json
  import opened Numerals
  import opened Base64
  import opened PropertyTree
  import opened PropertySize
  import opened PropertyValues
  import opened PropertyEncoder
  import Nesting

  // ---- shapes and the index budget ----

  predicate NoZone(e: Encoded) {
    e.zone == "" && e.offset == 0
  }

  /** validateEncodedShape: which fields each kind may use. */
  predicate ValidShape(e: Encoded) {
    var childless := e.items == [] && e.fields == map[];
    if e.kind == "null" then !e.flag && e.text == "" && NoZone(e) && childless
    else if e.kind == "bool" then e.text == "" && NoZone(e) && childless
    else if e.kind in ["string", "bytes", "duration", "int", "float", "date", "local_time", "offset_time", "local_datetime", "zoned_datetime", "cypher_duration"] then
      !e.flag && NoZone(e) && childless
    else if e.kind == "time" then !e.flag && childless
    else if e.kind == "list" then !e.flag && e.text == "" && NoZone(e) && e.fields == map[]
    else if e.kind == "map" then !e.flag && e.text == "" && NoZone(e) && e.items == []
    else false
  }

  lemma ShapesAreValid(v: Value)
    ensures ValidShape(Shape(v))
    ensures Shape(v).kind == "map" <==> v.Map?
    ensures Shape(v).kind == "list" <==> v.List?
  {
  }

  predicate Indexed(e: Encoded) {
    e.kind != "map" && e.kind != "list"
  }

  function EncodedIndex(fields: map<string, Encoded>): map<string, nat> {
    map k | k in fields && Indexed(fields[k]) :: ByteLen(k) + ByteLen(Marshal(fields[k]))
  }

  predicate EncodedFits(e: Encoded) {
    ValidShape(e) &&
    (e.kind == "map" ==>
       && (forall k | k in e.fields :: ValidShape(e.fields[k]))
       && |EncodedIndex(e.fields)| <= MAX_INDEXED && Sum(EncodedIndex(e.fields)) <= MAX_INDEX_BYTES)
  }

  lemma EncodedFitsIs(e: Encoded)
    ensures EncodedFits(e) <==>
            ValidShape(e) &&
            (e.kind == "map" ==>
               && (forall k | k in e.fields :: ValidShape(e.fields[k]))
               && |EncodedIndex(e.fields)| <= MAX_INDEXED && Sum(EncodedIndex(e.fields)) <= MAX_INDEX_BYTES)
  {
    hide ValidShape, EncodedIndex, Sum;
  }

  /** validateEncodedIndexBudget. */
  method IndexBudget(e: Encoded) returns (ok: bool)
    ensures ok <==> EncodedFits(e)
  {
    EncodedFitsIs(e);
    hide *;
    if !ValidShape(e) { return false; }
    if e.kind != "map" { return true; }
    NoEntries(e.fields);
    var todo := e.fields.Keys;
    ghost var done: set<string> := {};
    var count, bytes := 0, 0;
    while todo != {}
      invariant done == e.fields.Keys - todo && todo <= e.fields.Keys
      invariant forall k | k in done :: ValidShape(e.fields[k])
      invariant count == |Part(EncodedIndex(e.fields), done)| && bytes == Sum(Part(EncodedIndex(e.fields), done))
    {
      var key :| key in todo;
      todo := todo - {key};
      if !ValidShape(e.fields[key]) { return false; }
      NextEntry(e.fields, done, key);
      if Indexed(e.fields[key]) {
        var size := CanonicalSize(e.fields[key]);
        count := count + 1;
        bytes := bytes + ByteLen(key) + size;
      }
      done := done + {key};
    }
    AllEntries(e.fields, done);
    return count <= MAX_INDEXED && bytes <= MAX_INDEX_BYTES;
  }

  lemma NoEntries(fields: map<string, Encoded>)
    ensures |Part(EncodedIndex(fields), {})| == 0 && Sum(Part(EncodedIndex(fields), {})) == 0
  {
    assert Part(EncodedIndex(fields), {}) == map[];
  }

  lemma AllEntries(fields: map<string, Encoded>, done: set<string>)
    requires done == fields.Keys
    ensures Part(EncodedIndex(fields), done) == EncodedIndex(fields)
  {
    hide Marshal;
  }

  lemma NextEntry(fields: map<string, Encoded>, done: set<string>, k: string)
    requires k in fields && k !in done && done <= fields.Keys
    ensures var index := EncodedIndex(fields);
            && |Part(index, done + {k})| == |Part(index, done)| + (if Indexed(fields[k]) then 1 else 0)
            && Sum(Part(index, done + {k})) == Sum(Part(index, done)) + (if Indexed(fields[k]) then ByteLen(k) + ByteLen(Marshal(fields[k])) else 0)
  {
    hide Marshal, Sum;
    NextPart(EncodedIndex(fields), done, k);
  }

  /** The entry of one more key, if it has one. */
  lemma NextPart(index: map<string, nat>, done: set<string>, k: string)
    requires k !in done
    ensures |Part(index, done + {k})| == |Part(index, done)| + (if k in index then 1 else 0)
    ensures Sum(Part(index, done + {k})) == Sum(Part(index, done)) + (if k in index then index[k] else 0)
  {
    hide Sum;
    if k in index {
      var have := done * index.Keys;
      assert Part(index, done) == Part(index, have) && Part(index, done + {k}) == Part(index, have + {k});
      SumAdd(index, have, k);
      assert Part(index, done + {k}).Keys == Part(index, done).Keys + {k};
    } else {
      assert Part(index, done + {k}) == Part(index, done);
    }
  }

  lemma SameIndex(a: map<string, Encoded>, b: map<string, Value>)
    requires a.Keys == b.Keys && forall k | k in b :: a[k] == Shape(b[k]) && Indexed(a[k]) == Scalar(b[k])
    ensures EncodedIndex(a) == IndexEntries(b)
  {
    hide Shape, Marshal, Indexed, Scalar;
  }

  lemma ShapeFieldAt(v: Value, k: string)
    requires v.Map? && k in v.fields
    ensures Shape(v).fields.Keys == v.fields.Keys && Shape(v).fields[k] == Shape(v.fields[k])
  {
  }

  lemma ShapeIndex(v: Value)
    requires v.Map?
    ensures EncodedIndex(Shape(v).fields) == IndexEntries(v.fields)
    ensures forall k | k in Shape(v).fields :: ValidShape(Shape(v).fields[k])
  {
    hide Shape, Marshal, ValidShape, EncodedIndex, IndexEntries;
    var shapes := Shape(v).fields;
    ShapeKeys(v);
    forall k | k in v.fields ensures shapes[k] == Shape(v.fields[k]) && Indexed(shapes[k]) == Scalar(v.fields[k]) && ValidShape(shapes[k]) {
      ShapeFieldAt(v, k);
      ShapesAreValid(v.fields[k]);
    }
    SameIndex(shapes, v.fields);
  }

  lemma ShapeKeys(v: Value)
    requires v.Map?
    ensures Shape(v).fields.Keys == v.fields.Keys
  {
  }

  lemma ShapeFitsIndex(v: Value)
    ensures EncodedFits(Shape(v)) <==> IndexFits(v)
  {
    ShapesAreValid(v);
    if v.Map? { ShapeIndex(v); }
    hide Shape, EncodedIndex, IndexEntries, Sum, ValidShape;
  }

  // ---- the input preflight ----

  /** propertyInputPreflight. */
  class InputPreflight {
    var values: nat
    var payload: nat
    var indexedCount: nat
    var indexedBytes: nat

    constructor ()
      ensures values == 0 && payload == 0 && indexedCount == 0 && indexedBytes == 0
    {
      values, payload, indexedCount, indexedBytes := 0, 0, 0, 0;
    }

    /** Nothing that fits the limits is rejected, and the counts are right. */
    method Admit(v: Value, depth: nat) returns (ok: bool)
      requires payload <= MAX_BYTES && (depth == 0 ==> indexedCount == 0 && indexedBytes == 0)
      modifies this
      ensures Room(old(values), old(payload), v, depth) && (depth == 0 ==> IndexFits(v)) ==> ok
      ensures ok ==> values == old(values) + Cost(v, Counting) && payload == old(payload) + Cost(v, Paying) && payload <= MAX_BYTES
      ensures depth > 0 ==> indexedCount == old(indexedCount) && indexedBytes == old(indexedBytes)
      decreases v, 2
    {
      hide *;
      RoomIsBounded(values, payload, v, depth);
      if depth > Nesting.MAX_DEPTH { return false; }
      values := values + 1;
      if values > MAX_VALUES { return false; }
      if v.List? {
        RoomOfList(old(values), old(payload), v, depth);
        ok := AdmitItems(v.items, depth + 1);
      } else if v.Map? {
        RoomOfMap(old(values), old(payload), v, depth);
        ok := AdmitFields(v, depth);
      } else {
        RoomOfScalar(old(values), old(payload), v, depth);
        ScalarFits(v, depth);
        NotNested(v);
        ok := AdmitScalar(v);
      }
    }

    method AdmitScalar(v: Value) returns (ok: bool)
      requires Scalar(v) && payload <= MAX_BYTES
      modifies this`payload
      ensures Fits(v, 0) && old(payload) + Own(v, Paying) <= MAX_BYTES ==> ok
      ensures ok ==> payload == old(payload) + Own(v, Paying) && payload <= MAX_BYTES
    {
      match v
      case Text(s) => return ByteLen(s) <= MAX_SCALAR;
      case Bytes(bytes) =>
        if |bytes| > MAX_SCALAR || payload > MAX_BYTES - EncodedLen(|bytes|) { return false; }
        payload := payload + EncodedLen(|bytes|);
        return true;
      case _ => return true;
    }

    method AdmitItems(items: seq<Value>, depth: nat) returns (ok: bool)
      requires payload <= MAX_BYTES && values <= MAX_VALUES && depth > 0
      modifies this
      ensures RoomItems(old(values), old(payload), items, depth) ==> ok
      ensures ok ==> values == old(values) + CostItems(items, Counting) && payload == old(payload) + CostItems(items, Paying) && payload <= MAX_BYTES
      ensures indexedCount == old(indexedCount) && indexedBytes == old(indexedBytes)
      decreases items, 1
    {
      hide *;
      ItemsEnough(items, values, payload, depth);
      if |items| > MAX_VALUES - values { return false; }
      NoItems(values, payload, depth);
      for i := 0 to |items|
        invariant values == old(values) + CostItems(items[..i], Counting)
        invariant payload == old(payload) + CostItems(items[..i], Paying) <= MAX_BYTES
        invariant indexedCount == old(indexedCount) && indexedBytes == old(indexedBytes)
      {
        CostItemsAppend(items[..i], items[i], Counting);
        CostItemsAppend(items[..i], items[i], Paying);
        assert items[..i + 1] == items[..i] + [items[i]];
        var item := Admit(items[i], depth);
        if !item {
          NoRoomForItem(old(values), old(payload), items, i, depth);
          return false;
        }
      }
      assert items[..|items|] == items;
      return true;
    }

    /** Top-level scalars are also counted as index entries. */
    method AdmitFields(v: Value, depth: nat) returns (ok: bool)
      requires v.Map? && payload <= MAX_BYTES && values <= MAX_VALUES && (depth == 0 ==> indexedCount == 0 && indexedBytes == 0)
      modifies this
      ensures RoomFields(old(values), old(payload), v.fields, depth + 1) && (depth == 0 ==> IndexFits(v)) ==> ok
      ensures ok ==> values == old(values) + Sum(CostFields(v.fields, Counting)) && payload == old(payload) + Sum(CostFields(v.fields, Paying)) && payload <= MAX_BYTES
      ensures depth > 0 ==> indexedCount == old(indexedCount) && indexedBytes == old(indexedBytes)
      decreases v, 1
    {
      hide *;
      FieldsEnough(v, values, payload, depth + 1);
      if |v.fields| > MAX_VALUES - values { return false; }
      NothingSpent(v);
      NoneIndexed(v);
      var todo := v.fields.Keys;
      ghost var done: set<string> := {};
      while todo != {}
        invariant done == v.fields.Keys - todo && todo <= v.fields.Keys
        invariant values == old(values) + Spent(v.fields, done, Counting)
        invariant payload == old(payload) + Spent(v.fields, done, Paying) <= MAX_BYTES
        invariant if depth == 0 then Counted(v, done, indexedCount, indexedBytes)
                  else indexedCount == old(indexedCount) && indexedBytes == old(indexedBytes)
      {
        var key :| key in todo;
        todo := todo - {key};
        var ok := AdmitField(v, done, key, depth, old(values), old(payload));
        if !ok { return false; }
        done := done + {key};
      }
      AllSpent(v, done);
      return true;
    }

    method AdmitField(v: Value, ghost done: set<string>, key: string, depth: nat, ghost values0: nat,
            ghost payload0: nat) returns (ok: bool)
      requires v.Map? && key in v.fields && key !in done && done <= v.fields.Keys
      requires values == values0 + Spent(v.fields, done, Counting)
      requires payload == payload0 + Spent(v.fields, done, Paying) <= MAX_BYTES
      requires depth == 0 ==> Counted(v, done, indexedCount, indexedBytes)
      modifies this
      ensures ok ==> values == values0 + Spent(v.fields, done + {key}, Counting)
      ensures ok ==> payload == payload0 + Spent(v.fields, done + {key}, Paying) <= MAX_BYTES
      ensures ok && depth == 0 ==> Counted(v, done + {key}, indexedCount, indexedBytes)
      ensures depth > 0 ==> indexedCount == old(indexedCount) && indexedBytes == old(indexedBytes)
      ensures !ok ==> !(RoomFields(values0, payload0, v.fields, depth + 1) && (depth == 0 ==> IndexFits(v)))
      decreases v, 0
    {
      hide *;
      if ByteLen(key) > MAX_KEY {
        FieldTooLarge(v, done, key, values0, payload0, depth + 1);
        return false;
      }
      SpentMore(v, done, key);
      var field := Admit(v.fields[key], depth + 1);
      if !field {
        FieldTooLarge(v, done, key, values0, payload0, depth + 1);
        return false;
      }
      if depth == 0 {
        var counted := CountIndexed(v, done, key);
        if !counted {
          NoRoomToIndex(v, done, key, values0, payload0);
          return false;
        }
      }
      return true;
    }

    method CountIndexed(v: Value, ghost done: set<string>, key: string) returns (ok: bool)
      requires v.Map? && key in v.fields && key !in done && Counted(v, done, indexedCount, indexedBytes)
      modifies this`indexedCount, this`indexedBytes
      ensures ok ==> Counted(v, done + {key}, indexedCount, indexedBytes)
      ensures !ok ==> !Storable(v.fields[key]) || !IndexWithin(v, done + {key})
    {
      hide Sum, Part, IndexEntries, Marshal;
      NextPart(IndexEntries(v.fields), done, key);
      EntryOf(v, key);
      if !Scalar(v.fields[key]) { return true; }
      var size := ScalarSize(v.fields[key]);
      if size.Err? { return false; }
      indexedCount := indexedCount + 1;
      indexedBytes := indexedBytes + ByteLen(key) + size.value;
      return indexedCount <= MAX_INDEXED && indexedBytes <= MAX_INDEX_BYTES;
    }
  }

  /** The counters agree with the index entries of the fields done. */
  predicate Counted(v: Value, done: set<string>, count: nat, bytes: nat)
    requires v.Map?
  {
    count == |Part(IndexEntries(v.fields), done)| && bytes == Sum(Part(IndexEntries(v.fields), done))
  }

  lemma RoomIsBounded(values: nat, payload: nat, v: Value, depth: nat)
    ensures Room(values, payload, v, depth) ==> depth <= Nesting.MAX_DEPTH && values + 1 <= MAX_VALUES
  {
    CountsItself(v);
    hide Cost;
  }

  lemma NotNested(v: Value)
    requires !v.List? && !v.Map?
    ensures Scalar(v)
  {
  }

  predicate Storable(v: Value) {
    v.Uint? ==> v.u <= MAX_INT64
  }

  predicate IndexWithin(v: Value, done: set<string>)
    requires v.Map?
  {
    |Part(IndexEntries(v.fields), done)| <= MAX_INDEXED && Sum(Part(IndexEntries(v.fields), done)) <= MAX_INDEX_BYTES
  }

  lemma EntryOf(v: Value, k: string)
    requires v.Map? && k in v.fields
    ensures k in IndexEntries(v.fields) <==> Scalar(v.fields[k])
    ensures Scalar(v.fields[k]) ==> IndexEntries(v.fields)[k] == ByteLen(k) + ByteLen(Marshal(Shape(v.fields[k])))
  {
  }

  lemma NoneIndexed(v: Value)
    requires v.Map?
    ensures Counted(v, {}, 0, 0)
  {
    assert Part(IndexEntries(v.fields), {}) == map[];
  }

  lemma SpentMore(v: Value, done: set<string>, k: string)
    requires v.Map? && k in v.fields && k !in done && done <= v.fields.Keys
    ensures Spent(v.fields, done + {k}, Counting) == Spent(v.fields, done, Counting) + Cost(v.fields[k], Counting)
    ensures Spent(v.fields, done + {k}, Paying) == Spent(v.fields, done, Paying) + Cost(v.fields[k], Paying)
  {
    hide Cost, Sum, Part, CostFields;
    FieldCost(v.fields, done, k, Counting);
    FieldCost(v.fields, done, k, Paying);
  }

  lemma AllSpent(v: Value, done: set<string>)
    requires v.Map? && done == v.fields.Keys
    ensures Spent(v.fields, done, Counting) == Sum(CostFields(v.fields, Counting)) && Spent(v.fields, done, Paying) == Sum(CostFields(v.fields, Paying))
  {
    hide Cost, Sum;
    AllFields(v.fields, done, Counting);
    AllFields(v.fields, done, Paying);
  }

  lemma NoRoomToIndex(v: Value, done: set<string>, k: string, values: nat, payload: nat)
    requires v.Map? && k in v.fields
    requires !Storable(v.fields[k]) || !IndexWithin(v, done + {k})
    ensures !(RoomFields(values, payload, v.fields, 1) && IndexFits(v))
  {
    hide Cost, CostFields, Sum, IndexEntries;
    PartIsLess(IndexEntries(v.fields), done + {k});
    PartIsSmaller(IndexEntries(v.fields), done + {k});
    if !Storable(v.fields[k]) { assert !FieldFits(v.fields, k, 1); }
  }

  lemma PartIsSmaller(index: map<string, nat>, done: set<string>)
    ensures |Part(index, done)| <= |index|
  {
    SubsetSize(Part(index, done).Keys, index.Keys);
  }

  // ---- writing ----

  /** The text of a storable value, and an error for every other value. */
  method EncodeProperties(v: Value) returns (r: Result<string>)
    requires v.Map? || v.NilMap?
    ensures r.Ok? <==> Encodable(v)
    ensures r.Ok? ==> r.value == Marshal(Shape(v))
  {
    hide Cost, Fits, Marshal, Shape, IndexFits, EncodedFits;
    var preflight := new InputPreflight();
    var admitted := preflight.Admit(v, 0);
    if !admitted { return Err(InvalidArgument); }
    var state := new EncodeState();
    var encoded := state.EncodeValue(v, 0);
    if encoded.Err? { return Err(encoded.error); }
    ShapeFitsIndex(v);
    var budget := IndexBudget(encoded.value);
    if !budget { return Err(InvalidArgument); }
    var size := CanonicalSize(encoded.value);
    if size > MAX_BYTES { return Err(InvalidArgument); }
    var data := Marshal(encoded.value);
    if ByteLen(data) > MAX_BYTES { return Err(InvalidArgument); }
    return Ok(data);
  }
}
