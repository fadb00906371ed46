/** Property values, the tagged tree each is written as, and the limits a value must
    keep to be storable. */
module PropertyValues {
  import opened Base
  import opened Text
  import opened Sorted
  import opened Sums
  import opened Json
  import opened Numerals
  import opened Base64
  import opened PropertyTree
  import Nesting

  type int64 = n: int | IsInt64(n)
  type uint64 = n: int | 0 <= n <= MAX_UINT64

  /** What a caller may pass; a float is its bit pattern. */
  datatype Value =
    | Null
    | Bool(b: bool)
    | Text(s: string)
    | Bytes(bytes: seq<byte>)
    | Int(n: int64)
    | Uint(u: uint64)
    | Float(bits: uint64)
    | NilMap
    | NilList
    | List(items: seq<Value>)
    | Map(fields: map<string, Value>)

  /** encodeValue without its limits. */
  function Shape(v: Value): Encoded
    decreases v
  {
    match v
    case Null => Plain("null")
    case Bool(b) => Plain("bool").(flag := b)
    case Text(s) => Plain("string").(text := s)
    case Bytes(bytes) => Plain("bytes").(text := Encode(bytes))
    case Int(n) => Plain("int").(text := FormatInt(n))
    case Uint(u) => Plain("int").(text := FormatInt(u))
    case Float(bits) => Plain("float").(text := Format(bits, 16))
    case NilMap => Plain("null")
    case NilList => Plain("null")
    case List(items) => Plain("list").(items := Shapes(items))
    case Map(fields) => Plain("map").(fields := map k | k in fields :: Shape(fields[k]))
  }

  function Shapes(items: seq<Value>): (shapes: seq<Encoded>)
    ensures |shapes| == |items|
    decreases items
  {
    if items == [] then [] else [Shape(items[0])] + Shapes(items[1..])
  }

  /** What comes back: signed integers, and null for a nil map or list. */
  predicate IsNormal(v: Value)
    decreases v
  {
    match v
    case Uint(_) => false
    case NilMap => false
    case NilList => false
    case List(items) => forall x | x in items :: IsNormal(x)
    case Map(fields) => forall k | k in fields :: IsNormal(fields[k])
    case _ => true
  }

  /** An unsigned integer beyond the signed range has no normal form; here it
      becomes null and is never stored. */
  function Normal(v: Value): Value
    decreases v
  {
    match v
    case Uint(u) => if u <= MAX_INT64 then Int(u) else Null
    case NilMap => Null
    case NilList => Null
    case List(items) => List(Normals(items))
    case Map(fields) => Map(map k | k in fields :: Normal(fields[k]))
    case _ => v
  }

  function Normals(items: seq<Value>): (normals: seq<Value>)
    ensures |normals| == |items|
    decreases items
  {
    if items == [] then [] else [Normal(items[0])] + Normals(items[1..])
  }

  // ---- limits ----

  const MAX_VALUES := 1_000_000
  const MAX_BYTES := 0x400_0000
  const MAX_SCALAR := 0x100_0000
  const MAX_KEY := 0x1_0000
  const MAX_INDEXED := 4_096
  const MAX_INDEX_BYTES := 0x200_0000

  /** Depth, text and key lengths, and the range of unsigned integers. */
  predicate Fits(v: Value, depth: nat)
    decreases v
  {
    depth <= Nesting.MAX_DEPTH &&
    match v
    case Text(s) => ByteLen(s) <= MAX_SCALAR
    case Bytes(bytes) => |bytes| <= MAX_SCALAR
    case Uint(u) => u <= MAX_INT64
    case List(items) => forall x | x in items :: Fits(x, depth + 1)
    case Map(fields) => forall k | k in fields :: ByteLen(k) <= MAX_KEY && Fits(fields[k], depth + 1)
    case _ => true
  }

  /** The number of values in a value, and the base64 bytes of its byte strings. */
  datatype Measure = Counting | Paying

  function Own(v: Value, m: Measure): nat {
    if m == Counting then 1 else if v.Bytes? then EncodedLen(|v.bytes|) else 0
  }

  function Cost(v: Value, m: Measure): nat
    decreases v
  {
    Own(v, m) +
    match v
    case List(items) => CostItems(items, m)
    case Map(fields) => Sum(map k | k in fields :: Cost(fields[k], m))
    case _ => 0
  }

  function CostItems(items: seq<Value>, m: Measure): nat
    decreases items
  {
    if items == [] then 0 else Cost(items[0], m) + CostItems(items[1..], m)
  }

  function CostFields(fields: map<string, Value>, m: Measure): map<string, nat> {
    map k | k in fields :: Cost(fields[k], m)
  }

  /** Top-level scalars are indexed. */
  predicate Scalar(v: Value) {
    !v.List? && !v.Map?
  }

  function IndexEntries(fields: map<string, Value>): map<string, nat> {
    map k | k in fields && Scalar(fields[k]) :: ByteLen(k) + ByteLen(Marshal(Shape(fields[k])))
  }

  predicate IndexFits(v: Value) {
    v.Map? ==> |IndexEntries(v.fields)| <= MAX_INDEXED && Sum(IndexEntries(v.fields)) <= MAX_INDEX_BYTES
  }

  /** A value that can be stored. */
  predicate Encodable(v: Value) {
    Fits(v, 0) && Cost(v, Counting) <= MAX_VALUES && Cost(v, Paying) <= MAX_BYTES && IndexFits(v)
    && ByteLen(Marshal(Shape(v))) <= MAX_BYTES
  }

  // ---- costs of parts ----

  lemma CostOf(v: Value, m: Measure)
    ensures v.List? ==> Cost(v, m) == Own(v, m) + CostItems(v.items, m)
    ensures v.Map? ==> Cost(v, m) == Own(v, m) + Sum(CostFields(v.fields, m))
    ensures Scalar(v) ==> Cost(v, m) == Own(v, m)
  {
    if v.Map? { assert CostFields(v.fields, m) == map k | k in v.fields :: Cost(v.fields[k], m); }
  }

  lemma {:induction false} CostItemsAppend(items: seq<Value>, v: Value, m: Measure)
    ensures CostItems(items + [v], m) == CostItems(items, m) + Cost(v, m)
  {
    hide Cost;
    if items == [] {
      assert items + [v] == [v];
      assert CostItems([v], m) == Cost(v, m) + CostItems([v][1..], m);
    } else {
      assert (items + [v])[1..] == items[1..] + [v];
      CostItemsAppend(items[1..], v, m);
    }
  }

  /** A prefix costs no more than the whole. */
  lemma {:induction false} CostPrefix(items: seq<Value>, i: nat, m: Measure)
    requires i <= |items|
    ensures CostItems(items[..i], m) <= CostItems(items, m)
    decreases |items| - i
  {
    if i < |items| {
      CostItemsAppend(items[..i], items[i], m);
      assert items[..i + 1] == items[..i] + [items[i]];
      CostPrefix(items, i + 1, m);
    } else {
      assert items[..i] == items;
    }
  }

  lemma {:induction false} ManyItemsCost(items: seq<Value>)
    ensures |items| <= CostItems(items, Counting)
  {
    if items != [] {
      CountsItself(items[0]);
      ManyItemsCost(items[1..]);
    }
  }

  lemma CountsItself(v: Value)
    ensures Cost(v, Counting) >= 1
  {
  }

  lemma ManyFieldsCost(fields: map<string, Value>)
    ensures |fields| <= Sum(CostFields(fields, Counting))
  {
    forall k | k in fields ensures Cost(fields[k], Counting) >= 1 { CountsItself(fields[k]); }
    assert CostFields(fields, Counting).Keys == fields.Keys;
    SumOfOnes(CostFields(fields, Counting));
  }

  // ---- normal forms ----

  lemma {:induction false} NormalKeepsShape(v: Value, depth: nat)
    requires Fits(v, depth)
    ensures IsNormal(Normal(v)) && Shape(Normal(v)) == Shape(v) && Fits(Normal(v), depth)
    ensures Cost(Normal(v), Counting) == Cost(v, Counting) && Cost(Normal(v), Paying) == Cost(v, Paying)
    decreases v
  {
    if v.List? {
      NormalsKeepShapes(v.items, depth + 1);
    } else if v.Map? {
      forall k | k in v.fields
        ensures IsNormal(Normal(v.fields[k])) && Shape(Normal(v.fields[k])) == Shape(v.fields[k]) && Fits(Normal(v.fields[k]), depth + 1)
        ensures Cost(Normal(v.fields[k]), Counting) == Cost(v.fields[k], Counting)
        ensures Cost(Normal(v.fields[k]), Paying) == Cost(v.fields[k], Paying)
      {
        NormalKeepsShape(v.fields[k], depth + 1);
      }
      hide Cost, Shape;
      NormalMapShape(v);
      NormalMap(v.fields, Counting);
      NormalMap(v.fields, Paying);
    } else {
      LeafCosts(v);
      hide Cost;
    }
  }

  lemma LeafCosts(v: Value)
    requires Scalar(v)
    ensures Cost(Normal(v), Counting) == Cost(v, Counting) && Cost(Normal(v), Paying) == Cost(v, Paying)
  {
    CostOf(v, Counting);
    CostOf(v, Paying);
    CostOf(Normal(v), Counting);
    CostOf(Normal(v), Paying);
    hide Cost;
  }

  lemma NormalMapShape(v: Value)
    requires v.Map? && forall k | k in v.fields :: Shape(Normal(v.fields[k])) == Shape(v.fields[k])
    ensures Shape(Normal(v)) == Shape(v)
  {
    assert Shape(Normal(v)).fields == Shape(v).fields;
  }

  lemma NormalMap(fields: map<string, Value>, m: Measure)
    requires forall k | k in fields :: Cost(Normal(fields[k]), m) == Cost(fields[k], m)
    ensures Cost(Normal(Map(fields)), m) == Cost(Map(fields), m)
  {
    var normal := Normal(Map(fields)).fields;
    assert CostFields(normal, m) == CostFields(fields, m);
    CostOf(Map(normal), m);
    CostOf(Map(fields), m);
    hide Cost;
  }

  lemma {:induction false} NormalsKeepShapes(items: seq<Value>, depth: nat)
    requires forall x | x in items :: Fits(x, depth)
    ensures Shapes(Normals(items)) == Shapes(items)
    ensures forall x | x in Normals(items) :: IsNormal(x) && Fits(x, depth)
    ensures CostItems(Normals(items), Counting) == CostItems(items, Counting)
    ensures CostItems(Normals(items), Paying) == CostItems(items, Paying)
    decreases items
  {
    if items != [] {
      NormalKeepsShape(items[0], depth);
      NormalsKeepShapes(items[1..], depth);
      assert Normals(items)[1..] == Normals(items[1..]);
    }
  }

  lemma FieldsFit(v: Value)
    requires v.Map? && Fits(v, 0)
    ensures forall k | k in v.fields :: Fits(v.fields[k], 1)
  {
  }

  lemma SameEntries(a: map<string, Value>, b: map<string, Value>)
    requires a.Keys == b.Keys && forall k | k in a :: Shape(a[k]) == Shape(b[k]) && Scalar(a[k]) == Scalar(b[k])
    ensures IndexEntries(a) == IndexEntries(b)
  {
    hide Shape, Marshal;
  }

  lemma NormalOfMap(v: Value)
    requires v.Map?
    ensures Normal(v).Map? && Normal(v).fields.Keys == v.fields.Keys
    ensures forall k | k in v.fields :: Normal(v).fields[k] == Normal(v.fields[k])
    ensures forall k | k in v.fields :: Scalar(Normal(v.fields[k])) == Scalar(v.fields[k])
  {
  }

  lemma NormalIndex(v: Value)
    requires v.Map? && Fits(v, 0)
    ensures Normal(v).Map? && IndexEntries(Normal(v).fields) == IndexEntries(v.fields)
  {
    FieldsFit(v);
    NormalOfMap(v);
    hide Shape, Fits, Cost, Normal, IsNormal, IndexEntries, Scalar;
    forall k | k in v.fields ensures Shape(Normal(v.fields[k])) == Shape(v.fields[k]) {
      NormalKeepsShape(v.fields[k], 1);
    }
    SameEntries(Normal(v).fields, v.fields);
  }

  /** The normal form is storable when the value is. */
  lemma NormalIsEncodable(v: Value)
    requires Encodable(v)
    ensures Encodable(Normal(v)) && IsNormal(Normal(v)) && Shape(Normal(v)) == Shape(v)
  {
    hide Cost, Fits, Shape, IsNormal, Marshal, IndexEntries, Sum, ByteLen;
    NormalKeepsShape(v, 0);
    if v.Map? {
      NormalIndex(v);
    } else {
      NormalMaps(v);
    }
  }

  lemma NormalMaps(v: Value)
    requires !v.Map?
    ensures !Normal(v).Map?
  {
  }

  // ---- depth ----

  lemma {:induction false} MembersDepthAppend(a: seq<Member>, b: seq<Member>)
    ensures Nesting.MembersDepth(a + b) == Nesting.Max(Nesting.MembersDepth(a), Nesting.MembersDepth(b))
  {
    hide Nesting.Depth;
    if a == [] {
      assert a + b == b;
    } else {
      assert (a + b)[1..] == a[1..] + b;
      MembersDepthAppend(a[1..], b);
    }
  }

  lemma {:induction false} FlatMembers(members: seq<Member>)
    requires forall m | m in members :: Nesting.Depth(m.value) == 0
    ensures Nesting.MembersDepth(members) == 0
  {
    if members != [] { FlatMembers(members[1..]); }
  }

  lemma OneMemberDepth(m: Member)
    ensures Nesting.MembersDepth([m]) == Nesting.Depth(m.value)
  {
    assert [m][1..] == [];
  }

  /** A tree is two brackets deeper than its deepest child, or one without children. */
  lemma TreeDepth(e: Encoded, d: nat)
    requires Nesting.ItemsDepth(TreeItems(e.items)) <= d && Nesting.MembersDepth(TreeFields(e, SortedIds(e.fields.Keys))) <= d
    ensures Nesting.Depth(Tree(e)) <= 2 + d
    ensures e.items == [] && e.fields == map[] ==> Nesting.Depth(Tree(e)) == 1
  {
    BodyDepth(e, d);
    HeadDepth(e);
    MembersDepthAppend(Head(e), Body(e));
    hide Head, Body, Nesting.MembersDepth;
  }

  lemma HeadDepth(e: Encoded)
    ensures Nesting.MembersDepth(Head(e)) == 0
  {
    FlatMembers(Head(e));
  }

  lemma BodyDepth(e: Encoded, d: nat)
    requires Nesting.ItemsDepth(TreeItems(e.items)) <= d && Nesting.MembersDepth(TreeFields(e, SortedIds(e.fields.Keys))) <= d
    ensures Nesting.MembersDepth(Body(e)) <= 1 + d
    ensures e.items == [] && e.fields == map[] ==> Nesting.MembersDepth(Body(e)) == 0
  {
    hide TreeItems, TreeFields, Nesting.ItemsDepth, Nesting.MembersDepth;
    EmptyDepths();
    var a := Member("a", JArray(TreeItems(e.items)));
    var o := Member("o", JObject(TreeFields(e, SortedIds(e.fields.Keys))));
    OneMemberDepth(a);
    OneMemberDepth(o);
    MembersDepthAppend(if e.items != [] then [a] else [], if e.fields != map[] then [o] else []);
  }

  /** The text of a value that fits stays within the structural bound. */
  lemma {:induction false} ShapeDepth(v: Value, depth: nat)
    requires Fits(v, depth)
    ensures Nesting.Depth(Tree(Shape(v))) <= 2 * (Nesting.MAX_DEPTH - depth) + 1
    decreases v, 1
  {
    hide Shape, Tree, Nesting.Depth;
    if v.List? && v.items != [] {
      assert v.items[0] in v.items;
      ItemsDepthBound(v.items, depth + 1, 2 * (Nesting.MAX_DEPTH - depth - 1) + 1);
      ParentDepth(v, 2 * (Nesting.MAX_DEPTH - depth - 1) + 1);
    } else if v.Map? && v.fields != map[] {
      var some :| some in v.fields;
      FieldsDepthBound(v, SortedIds(v.fields.Keys), depth + 1, 2 * (Nesting.MAX_DEPTH - depth - 1) + 1);
      ParentDepth(v, 2 * (Nesting.MAX_DEPTH - depth - 1) + 1);
    } else {
      LeafDepth(v);
    }
  }

  lemma LeafDepth(v: Value)
    requires (v.List? ==> v.items == []) && (v.Map? ==> v.fields == map[])
    ensures Nesting.Depth(Tree(Shape(v))) == 1
  {
    hide Tree, Nesting.Depth;
    EmptyDepths();
    assert Shape(v).items == [] && Shape(v).fields == map[];
    NoFields(Shape(v));
    TreeDepth(Shape(v), 0);
  }

  lemma ParentDepth(v: Value, d: nat)
    requires v.List? || v.Map?
    requires v.List? ==> Nesting.ItemsDepth(TreeItems(Shapes(v.items))) <= d
    requires v.Map? ==> Nesting.MembersDepth(TreeFields(Shape(v), SortedIds(v.fields.Keys))) <= d
    ensures Nesting.Depth(Tree(Shape(v))) <= 2 + d
  {
    hide Tree, Nesting.Depth, TreeFields, TreeItems;
    EmptyDepths();
    if v.List? { NoFields(Shape(v)); } else { assert Shape(v).fields.Keys == v.fields.Keys; }
    TreeDepth(Shape(v), d);
  }

  lemma EmptyDepths()
    ensures Nesting.ItemsDepth(TreeItems([])) == 0 && Nesting.MembersDepth([]) == 0
  {
  }

  lemma NoFields(e: Encoded)
    requires e.fields == map[]
    ensures TreeFields(e, SortedIds(e.fields.Keys)) == []
  {
    assert e.fields.Keys == {};
  }

  lemma {:induction false} ItemsDepthBound(items: seq<Value>, depth: nat, d: nat)
    requires (forall x | x in items :: Fits(x, depth)) && (items != [] ==> depth <= Nesting.MAX_DEPTH && d == 2 * (Nesting.MAX_DEPTH - depth) + 1)
    ensures Nesting.ItemsDepth(TreeItems(Shapes(items))) <= d
    decreases items
  {
    if items != [] {
      hide Fits, Shape, Tree, Nesting.Depth;
      ShapeDepth(items[0], depth);
      ItemsDepthBound(items[1..], depth, d);
      assert Shapes(items)[0] == Shape(items[0]) && Shapes(items)[1..] == Shapes(items[1..]);
      var trees := TreeItems(Shapes(items));
      assert trees[0] == Tree(Shape(items[0])) && trees[1..] == TreeItems(Shapes(items[1..]));
    }
  }

  lemma {:induction false} FieldsDepthBound(v: Value, keys: seq<string>, depth: nat, d: nat)
    requires v.Map? && forall k | k in v.fields :: Fits(v.fields[k], depth)
    requires depth <= Nesting.MAX_DEPTH && d == 2 * (Nesting.MAX_DEPTH - depth) + 1
    ensures Nesting.MembersDepth(TreeFields(Shape(v), keys)) <= d
    decreases v, 0, |keys|
  {
    if keys != [] {
      FieldsDepthBound(v, keys[1..], depth, d);
      if keys[0] in v.fields {
        ShapeDepth(v.fields[keys[0]], depth);
        assert Shape(v).fields[keys[0]] == Shape(v.fields[keys[0]]);
        var first := Member(keys[0], Tree(Shape(v.fields[keys[0]])));
        assert TreeFields(Shape(v), keys) == [first] + TreeFields(Shape(v), keys[1..]);
        hide Fits, Tree, Nesting.Depth, Shape, TreeFields;
        MembersDepthAppend([first], TreeFields(Shape(v), keys[1..]));
        OneMemberDepth(first);
      } else {
        assert TreeFields(Shape(v), keys) == TreeFields(Shape(v), keys[1..]);
      }
    }
  }

  /** The bracket scanner never rejects what was written. */
  lemma WrittenIsShallow(v: Value)
    requires Fits(v, 0)
    ensures Nesting.Peak(Marshal(Shape(v))) <= 2 * Nesting.MAX_DEPTH + 1 < Nesting.MAX_STRUCTURAL_DEPTH
  {
    TreeIsValid(Shape(v));
    Nesting.PeakIsDepth(Tree(Shape(v)));
    ShapeDepth(v, 0);
  }
}
