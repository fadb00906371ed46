/** encodedValue: the tagged tree property values are written as, its JSON form, its
    exact size, its shape rules and its index budget. */
module PropertyTree {
  import opened Base
  import opened Text
  import opened Sorted
  import opened Sums
  import opened Json
  import opened Numerals

  datatype Encoded = Encoded(kind: string, flag: bool, text: string, zone: string, offset: int, items: seq<Encoded>, fields: map<string, Encoded>)

  function Plain(kind: string): Encoded {
    Encoded(kind, false, "", "", 0, [], map[])
  }

  // ---- the JSON form ----

  /** The struct's fields in order, empty ones left out, map keys in order. */
  function Tree(e: Encoded): Json
    decreases e, 1
  {
    JObject(Head(e) + Body(e))
  }

  function Head(e: Encoded): seq<Member> {
    [Member("k", JString(e.kind))]
    + (if e.flag then [Member("b", JBool(true))] else [])
    + (if e.text != "" then [Member("s", JString(e.text))] else [])
    + (if e.zone != "" then [Member("z", JString(e.zone))] else [])
    + (if e.offset != 0 then [Member("u", JNumber(FormatInt(e.offset)))] else [])
  }

  function Body(e: Encoded): seq<Member>
    decreases e, 0
  {
    (if e.items != [] then [Member("a", JArray(TreeItems(e.items)))] else [])
    + (if e.fields != map[] then [Member("o", JObject(TreeFields(e, SortedIds(e.fields.Keys))))] else [])
  }

  function TreeItems(items: seq<Encoded>): (trees: seq<Json>)
    ensures |trees| == |items|
    decreases items
  {
    if items == [] then [] else [Tree(items[0])] + TreeItems(items[1..])
  }

  function TreeFields(e: Encoded, keys: seq<string>): (members: seq<Member>)
    ensures |members| <= |keys|
    decreases e, 0, |keys|
  {
    if keys == [] then []
    else (if keys[0] in e.fields then [Member(keys[0], Tree(e.fields[keys[0]]))] else []) + TreeFields(e, keys[1..])
  }

  function Marshal(e: Encoded): string {
    PrintJson(Tree(e))
  }

  lemma {:induction false} TreeIsValid(e: Encoded)
    ensures ValidJson(Tree(e))
    decreases e, 1
  {
    HeadIsValid(e);
    ItemsAreValid(e.items);
    FieldsAreValid(e, SortedIds(e.fields.Keys));
    hide TreeItems, TreeFields, Head;
    forall m | m in Body(e) ensures ValidJson(m.value) { }
  }

  lemma HeadIsValid(e: Encoded)
    ensures forall m | m in Head(e) :: ValidJson(m.value)
  {
    NumberIsValid(e.offset);
    hide FormatInt;
  }

  lemma NumberIsValid(n: int)
    ensures ValidJson(JNumber(FormatInt(n)))
  {
    FormatRoundTrip(if n < 0 then -n else n, 10);
    var digits := Format(if n < 0 then -n else n, 10);
    DecimalDigits(if n < 0 then -n else n);
    forall i | 0 <= i < |FormatInt(n)| ensures NumberChar(FormatInt(n)[i]) {
      assert FormatInt(n)[i] == '-' || FormatInt(n)[i] in digits;
    }
  }

  lemma {:induction false} DecimalDigits(n: nat)
    ensures forall c | c in Format(n, 10) :: NumberChar(c)
    decreases n
  {
    if n >= 10 { DecimalDigits(n / 10); }
  }

  lemma {:induction false} ItemsAreValid(items: seq<Encoded>)
    ensures forall j | j in TreeItems(items) :: ValidJson(j)
    decreases items
  {
    if items != [] {
      TreeIsValid(items[0]);
      ItemsAreValid(items[1..]);
    }
  }

  lemma {:induction false} FieldsAreValid(e: Encoded, keys: seq<string>)
    ensures forall m | m in TreeFields(e, keys) :: ValidJson(m.value)
    decreases e, 0, |keys|
  {
    if keys != [] {
      if keys[0] in e.fields { TreeIsValid(e.fields[keys[0]]); }
      FieldsAreValid(e, keys[1..]);
    }
  }

  // ---- reading it back ----

  /** Decoding the struct field by field; an unknown field or a payload of another
      kind is an error. */
  function FromTree(j: Json): Option<Encoded>
    decreases j, 1
  {
    if j.JObject? then FromMembers(j.members) else None
  }

  function FromMembers(members: seq<Member>): Option<Encoded>
    decreases members, 0
  {
    if members == [] then Some(Plain(""))
    else
      var before := FromMembers(members[..|members| - 1]);
      if before.None? then None else WithField(before.value, members[|members| - 1])
  }

  function WithField(e: Encoded, m: Member): Option<Encoded>
    decreases m
  {
    if m.name == "k" && m.value.JString? then Some(e.(kind := m.value.s))
    else if m.name == "b" && m.value.JBool? then Some(e.(flag := m.value.b))
    else if m.name == "s" && m.value.JString? then Some(e.(text := m.value.s))
    else if m.name == "z" && m.value.JString? then Some(e.(zone := m.value.s))
    else if m.name == "u" && m.value.JNumber? && ParseInt(m.value.text).Some? then Some(e.(offset := ParseInt(m.value.text).value))
    else if m.name == "a" && m.value.JArray? && FromItems(m.value.items).Some? then Some(e.(items := FromItems(m.value.items).value))
    else if m.name == "o" && m.value.JObject? && FromFields(m.value.members).Some? then Some(e.(fields := FromFields(m.value.members).value))
    else None
  }

  function FromItems(items: seq<Json>): Option<seq<Encoded>>
    decreases items
  {
    if items == [] then Some([])
    else
      var first, rest := FromTree(items[0]), FromItems(items[1..]);
      if first.None? || rest.None? then None else Some([first.value] + rest.value)
  }

  /** A later field of the same name wins. */
  function FromFields(members: seq<Member>): Option<map<string, Encoded>>
    decreases members, 0
  {
    if members == [] then Some(map[])
    else
      var first, rest := FromTree(members[0].value), FromFields(members[1..]);
      if first.None? || rest.None? then None else Some(map[members[0].name := first.value] + rest.value)
  }

  /** Offsets are 64-bit. */
  ghost predicate Sound(e: Encoded)
    decreases e
  {
    IsInt64(e.offset) && (forall x | x in e.items :: Sound(x)) && forall k | k in e.fields :: Sound(e.fields[k])
  }

  lemma OneMore(a: seq<Member>, m: Member, e: Encoded)
    requires FromMembers(a) == Some(e)
    ensures FromMembers(a + [m]) == WithField(e, m)
  {
    assert (a + [m])[..|a + [m]| - 1] == a;
  }

  lemma MaybeOneMore(a: seq<Member>, present: bool, m: Member, e: Encoded, after: Encoded)
    requires FromMembers(a) == Some(e) && if present then WithField(e, m) == Some(after) else e == after
    ensures FromMembers(a + (if present then [m] else [])) == Some(after)
  {
    hide FromMembers, WithField;
    if present { OneMore(a, m, e); } else { assert a + [] == a; }
  }

  lemma HeadRoundTrip(e: Encoded)
    requires IsInt64(e.offset)
    ensures FromMembers(Head(e)) == Some(e.(items := [], fields := map[]))
  {
    hide FromMembers;
    IntRoundTrip(e.offset);
    FromNoMembers();
    var e0 := Plain(e.kind);
    var e1 := e0.(flag := e.flag);
    var e2 := e1.(text := e.text);
    var e3 := e2.(zone := e.zone);
    var e4 := e3.(offset := e.offset);
    var k, b, t := Member("k", JString(e.kind)), Member("b", JBool(true)), Member("s", JString(e.text));
    var z, u := Member("z", JString(e.zone)), Member("u", JNumber(FormatInt(e.offset)));
    MaybeOneMore([], true, k, Plain(""), e0);
    MaybeOneMore([] + [k], e.flag, b, e0, e1);
    var m1 := [] + [k] + (if e.flag then [b] else []);
    MaybeOneMore(m1, e.text != "", t, e1, e2);
    var m2 := m1 + (if e.text != "" then [t] else []);
    MaybeOneMore(m2, e.zone != "", z, e2, e3);
    var m3 := m2 + (if e.zone != "" then [z] else []);
    MaybeOneMore(m3, e.offset != 0, u, e3, e4);
    assert [] + [k] == [k];
    assert e4 == e.(items := [], fields := map[]);
  }

  lemma FromNoMembers()
    ensures FromMembers([]) == Some(Plain(""))
  {
  }

  lemma {:induction false} TreeRoundTrip(e: Encoded)
    requires Sound(e)
    ensures FromTree(Tree(e)) == Some(e)
    decreases e, 1
  {
    hide FromTree, FromMembers, FromItems, FromFields, Tree, TreeItems, TreeFields, SortedIds, NoDup;
    HeadRoundTrip(e);
    ItemsRoundTrip(e.items);
    SortedHolds(e.fields.Keys);
    IncreasingNoDup(SortedIds(e.fields.Keys));
    FieldsRoundTrip(e, SortedIds(e.fields.Keys));
    assert Picked(e, SortedIds(e.fields.Keys)) == e.fields;
    BodyRoundTrip(e);
  }

  lemma BodyRoundTrip(e: Encoded)
    requires FromMembers(Head(e)) == Some(e.(items := [], fields := map[]))
    requires FromItems(TreeItems(e.items)) == Some(e.items)
    requires FromFields(TreeFields(e, SortedIds(e.fields.Keys))) == Some(e.fields)
    ensures FromTree(Tree(e)) == Some(e)
  {
    hide FromMembers, FromItems, FromFields, TreeItems, TreeFields, Head, SortedIds;
    var e0 := e.(items := [], fields := map[]);
    var a := Member("a", JArray(TreeItems(e.items)));
    var o := Member("o", JObject(TreeFields(e, SortedIds(e.fields.Keys))));
    MaybeOneMore(Head(e), e.items != [], a, e0, e0.(items := e.items));
    var m1 := Head(e) + (if e.items != [] then [a] else []);
    MaybeOneMore(m1, e.fields != map[], o, e0.(items := e.items), e);
    assert Head(e) + Body(e) == m1 + (if e.fields != map[] then [o] else []);
    FromObject(Head(e) + Body(e));
  }

  lemma FromObject(members: seq<Member>)
    ensures FromTree(JObject(members)) == FromMembers(members)
  {
  }

  lemma {:induction false} ItemsRoundTrip(items: seq<Encoded>)
    requires forall x | x in items :: Sound(x)
    ensures FromItems(TreeItems(items)) == Some(items)
    decreases items
  {
    if items != [] {
      hide FromTree, Tree;
      TreeRoundTrip(items[0]);
      ItemsRoundTrip(items[1..]);
      var trees := TreeItems(items);
      assert trees[0] == Tree(items[0]) && trees[1..] == TreeItems(items[1..]);
      assert items == [items[0]] + items[1..];
    }
  }

  function Picked(e: Encoded, keys: seq<string>): map<string, Encoded> {
    map k | k in e.fields && k in keys :: e.fields[k]
  }

  lemma PickedFirst(e: Encoded, keys: seq<string>)
    requires keys != [] && keys[0] in e.fields
    ensures Picked(e, keys) == map[keys[0] := e.fields[keys[0]]] + Picked(e, keys[1..])
  {
  }

  lemma PickedNone(e: Encoded)
    ensures Picked(e, []) == map[]
  {
  }

  lemma {:induction false} FieldsRoundTrip(e: Encoded, keys: seq<string>)
    requires Sound(e) && NoDup(keys) && forall k | k in keys :: k in e.fields
    ensures FromFields(TreeFields(e, keys)) == Some(Picked(e, keys))
    decreases e, 0, |keys|
  {
    PickedNone(e);
    if keys != [] {
      assert keys[0] in keys && keys[0] !in keys[1..];
      hide FromTree, Tree, Sound, NoDup, Picked;
      TreeRoundTrip(e.fields[keys[0]]);
      FieldsRoundTrip(e, keys[1..]);
      var members := TreeFields(e, keys);
      assert members[0] == Member(keys[0], Tree(e.fields[keys[0]])) && members[1..] == TreeFields(e, keys[1..]);
      PickedFirst(e, keys);
    }
  }
}
