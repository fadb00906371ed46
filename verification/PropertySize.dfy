/** canonicalEncodedValueSize: adding up the size of a tagged tree without writing
    it, whatever order its maps are walked in. */
module PropertySize {
  import opened Base
  import opened Text
  import opened Sorted
  import opened Sums
  import opened Json
  import opened Numerals
  import opened PropertyTree

  // ---- lengths of lists of members and items ----

  lemma ConcatLength(a: string, b: string, c: string)
    ensures ByteLen(a + b + c) == ByteLen(a) + ByteLen(b) + ByteLen(c)
  {
    ByteLenAppend(a + b, c);
    ByteLenAppend(a, b);
  }

  lemma OneByte(c: char)
    requires c as int < 0x80
    ensures ByteLen([c]) == 1
  {
    assert [c][1..] == "";
  }

  lemma MemberLength(m: Member)
    ensures ByteLen(PrintMember(m)) == ByteLen(PrintString(m.name)) + 1 + ByteLen(PrintJson(m.value))
  {
    OneByte(':');
    ConcatLength(PrintString(m.name), ":", PrintJson(m.value));
  }

  lemma {:induction false} MembersAppend(members: seq<Member>, m: Member)
    ensures PrintMembers(members + [m]) == if members == [] then PrintMember(m) else PrintMembers(members) + "," + PrintMember(m)
  {
    hide PrintMember;
    if members == [] {
      assert members + [m] == [m];
    } else if |members| == 1 {
      assert (members + [m])[1..] == [m];
    } else {
      MembersAppend(members[1..], m);
      assert (members + [m])[1..] == members[1..] + [m];
    }
  }

  lemma AddMember(members: seq<Member>, m: Member)
    ensures ByteLen(PrintMembers(members + [m])) ==
            ByteLen(PrintMembers(members)) + (if members == [] then 0 else 1) + ByteLen(PrintString(m.name)) + 1 + ByteLen(PrintJson(m.value))
  {
    MembersAppend(members, m);
    MemberLength(m);
    if members != [] {
      OneByte(',');
      ConcatLength(PrintMembers(members), ",", PrintMember(m));
    }
  }

  lemma {:induction false} ItemsAppend(items: seq<Json>, j: Json)
    ensures PrintItems(items + [j]) == if items == [] then PrintJson(j) else PrintItems(items) + "," + PrintJson(j)
  {
    hide PrintJson;
    if items == [] {
      assert items + [j] == [j];
    } else if |items| == 1 {
      assert (items + [j])[1..] == [j];
    } else {
      ItemsAppend(items[1..], j);
      assert (items + [j])[1..] == items[1..] + [j];
    }
  }

  lemma AddItem(items: seq<Json>, j: Json)
    ensures ByteLen(PrintItems(items + [j])) == ByteLen(PrintItems(items)) + (if items == [] then 0 else 1) + ByteLen(PrintJson(j))
  {
    ItemsAppend(items, j);
    if items != [] {
      OneByte(',');
      ConcatLength(PrintItems(items), ",", PrintJson(j));
    }
  }

  lemma ArrayLength(items: seq<Json>)
    ensures ByteLen(PrintJson(JArray(items))) == 2 + ByteLen(PrintItems(items))
  {
    OneByte('[');
    OneByte(']');
    ConcatLength("[", PrintItems(items), "]");
  }

  lemma ObjectLength(members: seq<Member>)
    ensures ByteLen(PrintJson(JObject(members))) == 2 + ByteLen(PrintMembers(members))
  {
    OneByte('{');
    OneByte('}');
    ConcatLength("{", PrintMembers(members), "}");
  }

  lemma SmallLengths(n: int)
    ensures ByteLen(PrintJson(JBool(true))) == 4
    ensures ByteLen(PrintJson(JNumber(FormatInt(n)))) == |FormatInt(n)|
  {
    AsciiLength("true");
    NumberIsValid(n);
    var text := FormatInt(n);
    forall i | 0 <= i < |text| ensures text[i] as int < 0x80 { assert NumberChar(text[i]); }
    AsciiLength(text);
  }

  // ---- maps in any order ----

  function Weight(e: Encoded, k: string): nat
    requires k in e.fields
  {
    ByteLen(PrintMember(Member(k, Tree(e.fields[k]))))
  }

  function Weights(e: Encoded): map<string, nat> {
    map k | k in e.fields :: Weight(e, k)
  }

  function Commas(n: nat): nat {
    if n == 0 then 0 else n - 1
  }

  lemma {:induction false} FieldsLength(e: Encoded, keys: seq<string>)
    requires NoDup(keys) && forall k | k in keys :: k in e.fields
    ensures |TreeFields(e, keys)| == |keys|
    ensures ByteLen(PrintMembers(TreeFields(e, keys))) == Sum(Part(Weights(e), set k | k in keys)) + Commas(|keys|)
    decreases |keys|
  {
    if keys == [] {
      assert Part(Weights(e), set k | k in keys) == map[];
    } else {
      var rest := keys[1..];
      assert keys[0] in keys && keys[0] !in rest;
      FieldsLength(e, rest);
      var first := Member(keys[0], Tree(e.fields[keys[0]]));
      assert TreeFields(e, keys) == [first] + TreeFields(e, rest);
      assert (set k | k in keys) == (set k | k in rest) + {keys[0]};
      SumAdd(Weights(e), (set k | k in rest), keys[0]);
      hide PrintMember, TreeFields, Weights, Sum;
      FirstMember(first, TreeFields(e, rest));
    }
  }

  lemma FirstMember(m: Member, rest: seq<Member>)
    ensures ByteLen(PrintMembers([m] + rest)) == ByteLen(PrintMember(m)) + (if rest == [] then 0 else 1) + ByteLen(PrintMembers(rest))
  {
    hide PrintMember;
    if rest == [] {
      assert [m] + rest == [m];
    } else {
      assert ([m] + rest)[1..] == rest;
      OneByte(',');
      ConcatLength(PrintMember(m), ",", PrintMembers(rest));
    }
  }

  // ---- the program ----

  /** The size is the exact length of the JSON text. */
  method CanonicalSize(e: Encoded) returns (size: int)
    ensures size == ByteLen(Marshal(e))
    decreases e, 2
  {
    var fields: nat;
    size, fields := HeadSize(e);
    size := BodySize(e, size, fields);
    hide Head, Body;
    ObjectLength(Head(e) + Body(e));
  }

  method HeadSize(e: Encoded) returns (size: int, fields: nat)
    ensures size == 2 + ByteLen(PrintMembers(Head(e))) && fields == |Head(e)|
  {
    hide PrintMembers, PrintJson;
    var kind := StringValueSize(e.kind);
    EmptyMembers();
    size := AddField([], "k", JString(e.kind), 2, 0, kind);
    fields := 1;
    ghost var m0 := [] + [Member("k", JString(e.kind))];
    ghost var m1 := m0 + (if e.flag then [Member("b", JBool(true))] else []);
    if e.flag {
      SmallLengths(0);
      size := AddField(m0, "b", JBool(true), size, fields, 4);
      fields := fields + 1;
    } else {
      assert m1 == m0;
    }
    size, fields := MaybeText(m1, "s", e.text, size, fields);
    ghost var m2 := m1 + (if e.text != "" then [Member("s", JString(e.text))] else []);
    size, fields := MaybeText(m2, "z", e.zone, size, fields);
    ghost var m3 := m2 + (if e.zone != "" then [Member("z", JString(e.zone))] else []);
    if e.offset != 0 {
      SmallLengths(e.offset);
      size := AddField(m3, "u", JNumber(FormatInt(e.offset)), size, fields, |FormatInt(e.offset)|);
      fields := fields + 1;
    }
    assert [] + [Member("k", JString(e.kind))] == [Member("k", JString(e.kind))];
    assert e.offset == 0 ==> m3 + [] == m3;
  }

  lemma EmptyMembers()
    ensures ByteLen(PrintMembers([])) == 0
  {
  }

  /** A text field, left out when empty. */
  method MaybeText(ghost members: seq<Member>, name: string, text: string, size: int,
          fields: nat) returns (after: int, count: nat)
    requires size == 2 + ByteLen(PrintMembers(members)) && fields == |members|
    ensures var all := members + (if text != "" then [Member(name, JString(text))] else []);
            after == 2 + ByteLen(PrintMembers(all)) && count == |all|
  {
    hide PrintMembers, PrintJson;
    after, count := size, fields;
    if text != "" {
      var textSize := StringValueSize(text);
      after := AddField(members, name, JString(text), size, fields, textSize);
      count := fields + 1;
    } else {
      assert members + [] == members;
    }
  }

  method StringValueSize(s: string) returns (size: int)
    ensures size == ByteLen(PrintJson(JString(s)))
  {
    size := StringSize(s);
  }

  /** addField: a comma between fields, the name, a colon, the value. */
  method AddField(ghost members: seq<Member>, name: string, ghost value: Json, size: int, fields: nat,
          valueSize: int) returns (after: int)
    requires size == 2 + ByteLen(PrintMembers(members)) && valueSize == ByteLen(PrintJson(value)) && fields == |members|
    ensures after == 2 + ByteLen(PrintMembers(members + [Member(name, value)]))
  {
    hide PrintJson, PrintString;
    AddMember(members, Member(name, value));
    var nameSize := StringSize(name);
    var comma := if fields > 0 then 1 else 0;
    after := size + comma + nameSize + 1 + valueSize;
  }

  method BodySize(e: Encoded, start: int, before: nat) returns (size: int)
    requires start == 2 + ByteLen(PrintMembers(Head(e))) && before == |Head(e)|
    ensures size == 2 + ByteLen(PrintMembers(Head(e) + Body(e)))
    decreases e, 1
  {
    hide PrintMember, PrintJson, PrintString, Head;
    size := start;
    var count := before;
    ghost var all := Head(e);
    if e.items != [] {
      var items := ItemsSize(e.items);
      ArrayLength(TreeItems(e.items));
      ghost var a := Member("a", JArray(TreeItems(e.items)));
      size := AddField(all, "a", a.value, size, count, items);
      all, count := all + [a], count + 1;
    }
    if e.fields != map[] {
      var fields := FieldsSize(e);
      ObjectLength(TreeFields(e, SortedIds(e.fields.Keys)));
      ghost var o := Member("o", JObject(TreeFields(e, SortedIds(e.fields.Keys))));
      size := AddField(all, "o", o.value, size, count, fields);
      all := all + [o];
    }
    assert all == Head(e) + Body(e);
  }

  method ItemsSize(items: seq<Encoded>) returns (size: int)
    ensures size == 2 + ByteLen(PrintItems(TreeItems(items)))
    decreases items, 0
  {
    hide PrintJson, Tree;
    size := 2;
    for i := 0 to |items|
      invariant size == 2 + ByteLen(PrintItems(TreeItems(items[..i])))
    {
      TreeItemsAppend(items[..i], items[i]);
      assert items[..i + 1] == items[..i] + [items[i]];
      AddItem(TreeItems(items[..i]), Tree(items[i]));
      var item := CanonicalSize(items[i]);
      if i > 0 { size := size + 1; }
      size := size + item;
    }
    assert items[..|items|] == items;
  }

  lemma {:induction false} TreeItemsAppend(items: seq<Encoded>, e: Encoded)
    ensures TreeItems(items + [e]) == TreeItems(items) + [Tree(e)]
  {
    hide Tree;
    if items == [] {
      assert items + [e] == [e];
      assert TreeItems([e]) == [Tree(e)] + TreeItems([e][1..]);
    } else {
      TreeItemsAppend(items[1..], e);
      assert (items + [e])[1..] == items[1..] + [e];
    }
  }

  /** Ranging over a map takes its keys in some order. */
  method FieldsSize(e: Encoded) returns (size: int)
    ensures size == 2 + ByteLen(PrintMembers(TreeFields(e, SortedIds(e.fields.Keys))))
    decreases e, 0
  {
    hide *;
    size := 2;
    var todo := e.fields.Keys;
    var index := 0;
    ghost var done: set<string> := {};
    SizedStart(e);
    while todo != {}
      invariant done == e.fields.Keys - todo && todo <= e.fields.Keys && Sized(e, done, index, size)
    {
      var key :| key in todo;
      var name := StringSize(key);
      var value := CanonicalSize(e.fields[key]);
      SizedMore(e, done, key, index, size);
      if index > 0 { size := size + 1; }
      size := size + name + 1 + value;
      index := index + 1;
      done := done + {key};
      todo := todo - {key};
    }
    SizedEnd(e, done, index, size);
  }

  /** The loop's size and index after some of the keys. */
  ghost predicate Sized(e: Encoded, done: set<string>, index: nat, size: int) {
    index == |done| && size == 2 + Sum(Part(Weights(e), done)) + Commas(index)
  }

  lemma SizedStart(e: Encoded)
    ensures Sized(e, {}, 0, 2)
  {
    assert Part(Weights(e), {}) == map[];
  }

  lemma SizedMore(e: Encoded, done: set<string>, k: string, index: nat, size: int)
    requires k in e.fields && k !in done && done <= e.fields.Keys && Sized(e, done, index, size)
    ensures Sized(e, done + {k}, index + 1,
                  size + (if index > 0 then 1 else 0) + ByteLen(PrintString(k)) + 1 + ByteLen(Marshal(e.fields[k])))
  {
    hide Weights, Sum, Part, Marshal, ByteLen, PrintString;
    WeightIs(e, k);
    SumAdd(Weights(e), done, k);
  }

  lemma SizedEnd(e: Encoded, done: set<string>, index: nat, size: int)
    requires done == e.fields.Keys && Sized(e, done, index, size)
    ensures size == 2 + ByteLen(PrintMembers(TreeFields(e, SortedIds(e.fields.Keys))))
  {
    hide Weights, Sum, Part, ByteLen, PrintMembers, TreeFields, SortedIds;
    AllWeights(e, done);
  }

  lemma WeightIs(e: Encoded, k: string)
    requires k in e.fields
    ensures Weights(e).Keys == e.fields.Keys
    ensures Weights(e)[k] == ByteLen(PrintString(k)) + 1 + ByteLen(Marshal(e.fields[k]))
  {
    MemberLength(Member(k, Tree(e.fields[k])));
  }

  lemma AllWeights(e: Encoded, done: set<string>)
    requires done == e.fields.Keys
    ensures ByteLen(PrintMembers(TreeFields(e, SortedIds(e.fields.Keys)))) == Sum(Part(Weights(e), done)) + Commas(|done|)
  {
    hide TreeFields, Weights, Sum, PrintMembers;
    var sorted := SortedIds(e.fields.Keys);
    SortedHolds(e.fields.Keys);
    IncreasingNoDup(sorted);
    FieldsLength(e, sorted);
    assert (set k | k in sorted) == done;
    SetOfNoDup(sorted);
  }

  lemma {:induction false} SetOfNoDup(keys: seq<string>)
    requires NoDup(keys)
    ensures |set k | k in keys| == |keys|
  {
    if keys != [] {
      var rest := keys[1..];
      assert keys[0] !in rest;
      SetOfNoDup(rest);
      assert (set k | k in keys) == (set k | k in rest) + {keys[0]};
    }
  }
}
