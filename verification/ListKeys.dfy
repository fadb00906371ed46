/** valueKey and equalValues on lists: which equal lists share a key of the property
    index, and so which list constraints the index answers in full. */
module ListKeys {
  import opened Base
  import opened Sorted
  import opened Numbers
  import opened MemoryGraph
  import opened IndexedMatching
  import Json
  import NumericIndex

  /** Property values with lists; a byte string stands as the list of its bytes. */
  datatype Item = Null | Truth(b: bool) | Text(s: string) | Num(x: Number) | List(items: seq<Item>)

  /** How numbers and infinite values are printed. */
  datatype Printing = Printing(number: Number -> string, raw: Item -> string)

  /** encoding/json prints a finite number as a numeral, and different doubles
      differently, the two zeros as well. */
  ghost predicate Prints(p: Printing) {
    && (forall x | IsFinite(Num(x)) :: Json.ValidJson(Json.JNumber(p.number(x))))
    && (forall d, f | NumericIndex.IsDouble(d) && NumericIndex.IsDouble(f) && d.Finite? && f.Finite? && p.number(Float(d)) == p.number(Float(f)) :: d == f)
  }

  predicate IsFinite(i: Item) {
    match i
    case Num(x) => x.Float? ==> x.d.Finite?
    case List(items) => forall j | j in items :: IsFinite(j)
    case _ => true
  }

  /** equalValues. */
  predicate Equal(a: Item, b: Item)
    decreases a
  {
    if a.Num? && b.Num? then EqualNumbers(a.x, b.x)
    else if a.List? && b.List? then |a.items| == |b.items| && forall i | 0 <= i < |a.items| :: Equal(a.items[i], b.items[i])
    else a == b
  }

  function Tree(p: Printing, i: Item): Json.Json
    decreases i
  {
    match i
    case Null => Json.JNull
    case Truth(b) => Json.JBool(b)
    case Text(s) => Json.JString(s)
    case Num(x) => Json.JNumber(p.number(x))
    case List(items) => Json.JArray(Trees(p, items))
  }

  function Trees(p: Printing, items: seq<Item>): (trees: seq<Json.Json>)
    ensures |trees| == |items| && forall i | 0 <= i < |items| :: trees[i] == Tree(p, items[i])
    decreases items
  {
    if items == [] then [] else [Tree(p, items[0])] + Trees(p, items[1..])
  }

  function TypeName(i: Item): string {
    match i
    case Null => "<nil>:"
    case Truth(_) => "bool:"
    case Text(_) => "string:"
    case Num(x) => if x.Integer? then "int64:" else "float64:"
    case List(_) => "[]interface {}:"
  }

  /** valueKey: JSON has no NaN and no infinity, a value with one is printed otherwise. */
  function Key(p: Printing, i: Item): string {
    TypeName(i) + if IsFinite(i) then Json.PrintJson(Tree(p, i)) else p.raw(i)
  }

  // ---- when equal lists share a key ----

  /** All numbers of the two print alike. */
  predicate PrintAlike(p: Printing, a: Item, b: Item)
    decreases a
  {
    if a.Num? && b.Num? then p.number(a.x) == p.number(b.x)
    else if a.List? && b.List? then |a.items| == |b.items| && forall i | 0 <= i < |a.items| :: PrintAlike(p, a.items[i], b.items[i])
    else true
  }

  lemma {:induction false} TreeIsValid(p: Printing, i: Item)
    requires Prints(p) && IsFinite(i)
    ensures Json.ValidJson(Tree(p, i))
    decreases i
  {
    if i.List? {
      forall t | t in Trees(p, i.items) ensures Json.ValidJson(t) {
        var k :| 0 <= k < |i.items| && Trees(p, i.items)[k] == t;
        TreeIsValid(p, i.items[k]);
      }
    }
  }

  lemma {:induction false} EqualAreFinite(a: Item, b: Item)
    requires Equal(a, b)
    ensures IsFinite(a) <==> IsFinite(b)
    decreases a
  {
    if a.List? && b.List? {
      forall i | 0 <= i < |a.items| ensures IsFinite(a.items[i]) <==> IsFinite(b.items[i]) { EqualAreFinite(a.items[i], b.items[i]); }
      if IsFinite(a) {
        forall j | j in b.items ensures IsFinite(j) { var i :| 0 <= i < |b.items| && b.items[i] == j; assert a.items[i] in a.items; }
      }
      if IsFinite(b) {
        forall j | j in a.items ensures IsFinite(j) { var i :| 0 <= i < |a.items| && a.items[i] == j; assert b.items[i] in b.items; }
      }
    }
  }

  lemma {:induction false} SameTreeIff(p: Printing, a: Item, b: Item)
    requires Equal(a, b)
    ensures Tree(p, a) == Tree(p, b) <==> PrintAlike(p, a, b)
    decreases a
  {
    if a.List? && b.List? {
      forall i | 0 <= i < |a.items| ensures Trees(p, a.items)[i] == Trees(p, b.items)[i] <==> PrintAlike(p, a.items[i], b.items[i]) {
        SameTreeIff(p, a.items[i], b.items[i]);
      }
      assert Trees(p, a.items) == Trees(p, b.items) <==> forall i | 0 <= i < |a.items| :: Trees(p, a.items)[i] == Trees(p, b.items)[i];
    }
  }

  /** Equal lists share their key exactly when all their numbers print alike, or, if
      they hold an infinity, when they as a whole do. */
  lemma KeysAgreeIff(p: Printing, a: Item, b: Item)
    requires Prints(p) && a.List? && b.List? && Equal(a, b)
    ensures Key(p, a) == Key(p, b) <==> if IsFinite(b) then PrintAlike(p, a, b) else p.raw(a) == p.raw(b)
  {
    EqualAreFinite(a, b);
    hide Equal, PrintAlike, Tree, Json.PrintJson, IsFinite, Prints;
    if IsFinite(b) {
      TreeIsValid(p, a);
      TreeIsValid(p, b);
      SameTreeIff(p, a, b);
      Json.ReadPrinted(Tree(p, a));
      Json.ReadPrinted(Tree(p, b));
      SameSuffix(TypeName(b), Json.PrintJson(Tree(p, a)), Json.PrintJson(Tree(p, b)));
    } else {
      SameSuffix(TypeName(b), p.raw(a), p.raw(b));
    }
  }

  lemma SameSuffix(name: string, a: string, b: string)
    ensures name + a == name + b <==> a == b
  {
    assert (name + a)[|name|..] == a && (name + b)[|name|..] == b;
  }

  /** Two equal numbers print alike when they are the same, and never do if they are
      the two zeros; only an integer and a double may or may not. */
  lemma NumbersPrintAlike(p: Printing, x: Number, y: Number)
    requires Prints(p) && NumericIndex.Stored(x) && NumericIndex.Stored(y) && EqualNumbers(x, y) && IsFinite(Num(y))
    ensures x.Integer? == y.Integer? ==> (p.number(x) == p.number(y) <==> x == y)
    ensures x.Float? && y.Float? ==> (x == y <==> x.d.negative == y.d.negative)
  {
    if x.Float? && y.Float? {
      assert x.d.Finite?;
      assert p.number(x) == p.number(Float(x.d)) && p.number(y) == p.number(Float(y.d));
    }
  }

  const LARGE: int := 0x1000_0000_0000_0000

  function LargeInteger(): Item {
    List([Num(Integer(LARGE))])
  }

  function LargeDouble(): Item {
    List([Num(Float(Finite(false, LARGE as real)))])
  }

  /** A double is printed with its shortest digits, padded with zeros: 2^60 differs from
      the integer it equals. */
  lemma LargeDoubleDiffers(p: Printing)
    requires Prints(p)
    requires p.number(Integer(LARGE)) == "1152921504606846976" && p.number(Float(Finite(false, LARGE as real))) == "1152921504606847000"
    ensures Equal(LargeInteger(), LargeDouble()) && Key(p, LargeInteger()) != Key(p, LargeDouble())
  {
    var (a, b) := (LargeInteger(), LargeDouble());
    assert Equal(a.items[0], b.items[0]);
    assert !PrintAlike(p, a.items[0], b.items[0]) by { assert "1152921504606846976"[16] != "1152921504606847000"[16]; }
    KeysAgreeIff(p, a, b);
    assert IsFinite(b);
  }

  // ---- the values of a graph ----

  /** The values of a memory graph; `item` says what the codes stand for. */
  function ItemOf(item: int -> Item, v: PropValue): Item {
    match v
    case Nil => Null
    case Bool(b) => Truth(b)
    case Str(s) => Text(s)
    case Other(code) => item(code)
  }

  ghost predicate Coded(item: int -> Item) {
    forall code :: item(code).Num? || item(code).List?
  }

  function Oracle(p: Printing, item: int -> Item): Values {
    Values((a, b) => Equal(ItemOf(item, a), ItemOf(item, b)), a => Key(p, ItemOf(item, a)), a => ItemOf(item, a).Num?)
  }

  lemma TypeNamesDiffer(a: Item, b: Item, s: string, t: string)
    requires TypeName(a) + s == TypeName(b) + t
    ensures TypeName(a) == TypeName(b)
  {
    assert (TypeName(a) + s)[0] == TypeName(a)[0] && (TypeName(b) + t)[0] == TypeName(b)[0];
  }

  /** Strings and booleans have keys of their own. */
  lemma OracleIsSound(p: Printing, item: int -> Item)
    requires Coded(item)
    ensures SoundValues(Oracle(p, item))
  {
    forall a, v | Exact(v) ensures Oracle(p, item).key(a) == Oracle(p, item).key(v) ==> a == v {
      if Oracle(p, item).key(a) == Oracle(p, item).key(v) { ExactKey(p, ItemOf(item, a), ItemOf(item, v)); }
    }
  }

  lemma ExactKey(p: Printing, a: Item, v: Item)
    requires (v.Truth? || v.Text?) && Key(p, a) == Key(p, v)
    ensures a == v
  {
    hide Json.PrintJson;
    var s := if IsFinite(a) then Json.PrintJson(Tree(p, a)) else p.raw(a);
    TypeNamesDiffer(a, v, s, Json.PrintJson(Tree(p, v)));
    SameSuffix(TypeName(v), s, Json.PrintJson(Tree(p, v)));
    Json.ReadPrinted(Tree(p, a));
    Json.ReadPrinted(Tree(p, v));
  }

  /** Of two equal lists: they have different keys. */
  predicate Differs(p: Printing, a: Item, v: Item) {
    if IsFinite(v) then !PrintAlike(p, a, v) else p.raw(a) != p.raw(v)
  }

  /** A lookup of a list in a full index finds all nodes that match exactly if the key
      has no entry, or no match holds an equal list that prints otherwise. */
  lemma ListLookupIff(graph: MemoryGraph, p: Printing, item: int -> Item, k: string, v: PropValue, indexed: Option<set<Id>>)
    requires graph.Valid() && graph.Full() && graph.o == Oracle(p, item) && Prints(p) && Coded(item)
    requires ItemOf(item, v).List? && IsSmallest(indexed, AllEntries(graph, [], map[k := v]))
    ensures var found := MatchingIds(graph.o, graph.nodes, [], map[k := v]);
            SortedIds(Inside(found, indexed)) == SortedIds(found)
            <==> !HasEntry(graph, k, v) || forall n | n in found :: !Differs(p, ItemOf(item, PropertyOf(graph.nodes[n], k)), ItemOf(item, v))
  {
    hide LabelsAgree, PropertiesAgree, SoundValues, AdjacencyAgrees, IsFull, Prints, Key, Differs, HasEntry, IsSmallest, Inside, SortedIds, AllEntries;
    SingleLookupIff(graph, k, v, indexed);
    var found := MatchingIds(graph.o, graph.nodes, [], map[k := v]);
    forall n | n in found
      ensures (k, graph.o.key(v)) in Entries(graph.o, graph.nodes[n]) <==> !Differs(p, ItemOf(item, PropertyOf(graph.nodes[n], k)), ItemOf(item, v))
    {
      var list := PropertyOf(graph.nodes[n], k);
      assert graph.o.equal(list, map[k := v][k]);
      HeldKey(p, item, graph.nodes[n], k, v);
    }
  }

  lemma HeldKey(p: Printing, item: int -> Item, n: Node, k: string, v: PropValue)
    requires Prints(p) && Coded(item) && ItemOf(item, v).List?
    requires PropertyOf(n, k) != Nil && Equal(ItemOf(item, PropertyOf(n, k)), ItemOf(item, v))
    ensures (k, Key(p, ItemOf(item, v))) in Entries(Oracle(p, item), n)
            <==> !Differs(p, ItemOf(item, PropertyOf(n, k)), ItemOf(item, v))
  {
    var a := ItemOf(item, PropertyOf(n, k));
    assert a.List?;
    assert k != "body" && k in n.properties;
    KeysAgreeIff(p, a, ItemOf(item, v));
    hide Key, Prints, Equal;
  }

  // ---- a negative zero ----

  function Zero(negative: bool): Item {
    List([Num(Float(Finite(negative, 0.0)))])
  }

  /** Nodes x and y hold [0.0] and [-0.0] under the key. */
  function TwoZeros(k: string): map<Id, Node> {
    map["x" := Node(0, [], "", map[k := Other(0)]), "y" := Node(0, [], "", map[k := Other(1)])]
  }

  /** Asked for [0.0] the matcher takes both nodes, the lookup finds x alone. */
  lemma NegativeZeroIsLost(graph: MemoryGraph, p: Printing, item: int -> Item, k: string, indexed: Option<set<Id>>)
    requires graph.Valid() && graph.Full() && graph.o == Oracle(p, item) && Prints(p) && Coded(item)
    requires k != "body" && graph.nodes == TwoZeros(k) && item(0) == Zero(false) && item(1) == Zero(true)
    requires IsSmallest(indexed, AllEntries(graph, [], map[k := Other(0)]))
    ensures var found := MatchingIds(graph.o, graph.nodes, [], map[k := Other(0)]);
            found == {"x", "y"} && SortedIds(Inside(found, indexed)) != SortedIds(found)
  {
    ZerosMatch(p, item, k);
    ZerosDiffer(p);
    hide LabelsAgree, PropertiesAgree, SoundValues, AdjacencyAgrees, Prints, Key, Differs, IsSmallest, Inside, SortedIds, AllEntries, Entries, Equal;
    ListLookupIff(graph, p, item, k, Other(0), indexed);
    assert "x" in Lookup(graph.properties, k, graph.o.key(Other(0))) by {
      FirstEntry(p, item, k);
      assert InEntries(Entries(graph.o, graph.nodes["x"]), k, graph.o.key(Other(0)));
    }
    assert HasEntry(graph, k, Other(0));
    assert PropertyOf(graph.nodes["y"], k) == Other(1);
  }

  lemma FirstEntry(p: Printing, item: int -> Item, k: string)
    ensures (k, Oracle(p, item).key(Other(0))) in Entries(Oracle(p, item), TwoZeros(k)["x"])
  {
    var n := TwoZeros(k)["x"];
    assert k in n.properties && n.properties[k] == Other(0);
  }

  lemma ZerosMatch(p: Printing, item: int -> Item, k: string)
    requires k != "body" && item(0) == Zero(false) && item(1) == Zero(true)
    ensures MatchingIds(Oracle(p, item), TwoZeros(k), [], map[k := Other(0)]) == {"x", "y"}
  {
    assert Equal(Zero(false), Zero(false)) && Equal(Zero(true), Zero(false));
    hide Equal;
    var (o, expected) := (Oracle(p, item), map[k := Other(0)]);
    assert Matches(o, TwoZeros(k)["x"], [], expected) && Matches(o, TwoZeros(k)["y"], [], expected);
  }

  lemma ZerosDiffer(p: Printing)
    requires Prints(p)
    ensures Differs(p, Zero(true), Zero(false))
  {
    var (plus, minus) := (Float(Finite(false, 0.0)), Float(Finite(true, 0.0)));
    assert NumericIndex.Scaled(0, 0) == 0.0;
    assert NumericIndex.Representable(0.0);
    NumbersPrintAlike(p, minus, plus);
    assert !PrintAlike(p, Zero(true).items[0], Zero(false).items[0]);
  }
}
