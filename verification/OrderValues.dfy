/** ORDER BY: compareOrderValues is a total preorder over all values, so the multi-key
    comparator is a strict weak order and the stable sort has one result. */
module OrderValues {
  import opened Base
  import opened Text
  import opened Sorted
  import opened Numbers
  import opened EngineValues

  function Rank(v: Value): nat {
    match v
    case Map(_) => 0
    case NodeRef(_) => 1
    case EdgeRef(_) => 2
    case List(_) => 3
    case PathRef(_) => 4
    case Str(_) => 7
    case Bool(_) => 8
    case Num(_) => 9
    case Null => 12
  }

  function CompareInts(a: int, b: int): int {
    Sign(a < b, a == b)
  }

  function CompareNumberOrder(a: Number, b: Number): int {
    var c := CompareNumbers(a, b);
    if c.Some? then c.value
    else if IsNaN(a) == IsNaN(b) then 0
    else if IsNaN(a) then 1 else -1
  }

  function Keys(fields: map<string, Value>): seq<string> {
    SortedIds(fields.Keys)
  }

  /** The first keys that differ decide; the lists are equally long. */
  function CompareKeys(a: seq<string>, b: seq<string>): int {
    if a == [] || b == [] then 0
    else if Compare(a[0], b[0]) != 0 then Compare(a[0], b[0])
    else CompareKeys(a[1..], b[1..])
  }

  function CompareOrder(a: Value, b: Value): int
    decreases a, 1
  {
    if a == Null then (if b == Null then 0 else 1)
    else if b == Null then -1
    else if Rank(a) != Rank(b) then CompareInts(Rank(a), Rank(b))
    else
      match a
      case Map(fields) =>
        if |fields| != |b.fields| then CompareInts(|fields|, |b.fields|)
        else if CompareKeys(Keys(fields), Keys(b.fields)) != 0 then CompareKeys(Keys(fields), Keys(b.fields))
        else CompareFields(a, b, Keys(fields))
      case NodeRef(n) => Compare(n, b.node)
      case EdgeRef(e) => Compare(e, b.edge)
      case List(items) => CompareItems(items, b.items)
      case PathRef(key) => Compare(key, b.key)
      case Str(s) => Compare(s, b.s)
      case Bool(x) => Sign(!x && b.b, x == b.b)
      case Num(x) => CompareNumberOrder(x, b.x)
  }

  /** Values under the keys in turn; the second map has the same keys. */
  function CompareFields(a: Value, b: Value, keys: seq<string>): int
    requires a.Map? && b.Map?
    decreases a, 0, |keys|
  {
    if keys == [] then 0
    else
      var first := if keys[0] in a.fields && keys[0] in b.fields then CompareOrder(a.fields[keys[0]], b.fields[keys[0]]) else 0;
      if first != 0 then first else CompareFields(a, b, keys[1..])
  }

  function CompareItems(a: seq<Value>, b: seq<Value>): int
    decreases a, 0
  {
    if a == [] || b == [] then CompareInts(|a|, |b|)
    else
      var first := CompareOrder(a[0], b[0]);
      if first != 0 then first else CompareItems(a[1..], b[1..])
  }

  // ---- a total preorder ----

  /** What three comparisons must satisfy. */
  predicate Ordered(ab: int, ba: int, bc: int, ac: int) {
    && ab == -ba
    && (ab <= 0 && bc <= 0 ==> ac <= 0)
    && (ab <= 0 && bc <= 0 && (ab < 0 || bc < 0) ==> ac < 0)
    && (ab == 0 && bc == 0 ==> ac == 0)
  }

  function Then(first: int, second: int): int {
    if first != 0 then first else second
  }

  /** Ordering by one comparison, and where it is zero by another. */
  lemma Lexicographic(ab: int, ba: int, bc: int, ac: int, ab': int, ba': int, bc': int, ac': int)
    requires Ordered(ab, ba, bc, ac)
    requires ab == 0 ==> ab' == -ba'
    requires ab == 0 && bc == 0 ==> Ordered(ab', ba', bc', ac')
    ensures Ordered(Then(ab, ab'), Then(ba, ba'), Then(bc, bc'), Then(ac, ac'))
  {
  }

  lemma IntsOrdered(a: int, b: int, c: int)
    ensures CompareInts(a, a) == 0 && Ordered(CompareInts(a, b), CompareInts(b, a), CompareInts(b, c), CompareInts(a, c))
    ensures CompareInts(a, b) == 0 <==> a == b
  {
  }

  lemma StringsOrdered(a: string, b: string, c: string)
    ensures Compare(a, a) == 0 && Ordered(Compare(a, b), Compare(b, a), Compare(b, c), Compare(a, c))
  {
    CompareEqual(a, a);
    CompareEqual(a, b);
    CompareEqual(b, c);
    CompareFlips(a, b);
    if Compare(a, b) <= 0 && Compare(b, c) <= 0 { CompareTransitive(a, b, c); }
    hide Compare;
  }

  lemma NumbersOrdered(a: Number, b: Number, c: Number)
    ensures CompareNumberOrder(a, a) == 0
    ensures Ordered(CompareNumberOrder(a, b), CompareNumberOrder(b, a), CompareNumberOrder(b, c), CompareNumberOrder(a, c))
  {
    hide PlaceOf, CompareNumbers, ComparePlaces, IsNaN;
    CompareIsByPlace(a, a);
    CompareIsByPlace(a, b);
    CompareIsByPlace(b, a);
    CompareIsByPlace(b, c);
    CompareIsByPlace(a, c);
    if !IsNaN(a) { PlacesAreOrdered(PlaceOf(a), PlaceOf(a), PlaceOf(a)); }
    if !IsNaN(a) && !IsNaN(b) { PlacesAreOrdered(PlaceOf(a), PlaceOf(b), PlaceOf(b)); }
    if !IsNaN(a) && !IsNaN(b) && !IsNaN(c) {
      PlacesAreOrdered(PlaceOf(a), PlaceOf(b), PlaceOf(c));
      PlacesAreOrdered(PlaceOf(b), PlaceOf(c), PlaceOf(c));
      PlacesAreOrdered(PlaceOf(a), PlaceOf(c), PlaceOf(c));
    }
  }

  lemma {:induction false} KeysOrdered(a: seq<string>, b: seq<string>, c: seq<string>)
    requires |a| == |b| == |c|
    ensures CompareKeys(a, a) == 0 && (CompareKeys(a, b) == 0 <==> a == b)
    ensures Ordered(CompareKeys(a, b), CompareKeys(b, a), CompareKeys(b, c), CompareKeys(a, c))
  {
    if a != [] {
      StringsOrdered(a[0], b[0], c[0]);
      CompareEqual(a[0], b[0]);
      KeysOrdered(a[1..], b[1..], c[1..]);
      hide Compare;
      assert a == [a[0]] + a[1..] && b == [b[0]] + b[1..];
      Lexicographic(Compare(a[0], b[0]), Compare(b[0], a[0]), Compare(b[0], c[0]), Compare(a[0], c[0]),
                    CompareKeys(a[1..], b[1..]), CompareKeys(b[1..], a[1..]), CompareKeys(b[1..], c[1..]), CompareKeys(a[1..], c[1..]));
    }
  }

  /** compareOrderValues is reflexive, antisymmetric in sign, and transitive. */
  lemma {:induction false} OrderIsTotal(a: Value, b: Value, c: Value)
    ensures CompareOrder(a, a) == 0
    ensures Ordered(CompareOrder(a, b), CompareOrder(b, a), CompareOrder(b, c), CompareOrder(a, c))
    decreases a, 3
  {
    SameRank(a, a, a);
    if Rank(a) == Rank(b) {
      if Rank(b) == Rank(c) { SameRank(a, b, c); } else { SameRank(a, b, b); }
    }
    RanksDecide(a, b);
    RanksDecide(b, a);
    RanksDecide(b, c);
    RanksDecide(a, c);
    RanksDecide(a, a);
    hide CompareOrder, Rank;
  }

  lemma RanksDecide(a: Value, b: Value)
    ensures Rank(a) != Rank(b) ==> CompareOrder(a, b) == CompareInts(Rank(a), Rank(b))
  {
  }

  lemma {:induction false} SameRank(a: Value, b: Value, c: Value)
    requires Rank(a) == Rank(b) == Rank(c)
    ensures CompareOrder(a, a) == 0
    ensures Ordered(CompareOrder(a, b), CompareOrder(b, a), CompareOrder(b, c), CompareOrder(a, c))
    decreases a, 2
  {
    if a.Map? {
      MapsOrdered(a, b, c);
      MapsOrdered(a, a, a);
    } else if a.List? {
      ItemsOrdered(a.items, b.items, c.items);
      ItemsOrdered(a.items, a.items, a.items);
      hide CompareItems;
    } else {
      LeavesOrdered(a, b, c);
      hide CompareOrder;
    }
  }

  lemma LeavesOrdered(a: Value, b: Value, c: Value)
    requires Rank(a) == Rank(b) == Rank(c) && !a.Map? && !a.List?
    ensures CompareOrder(a, a) == 0
    ensures Ordered(CompareOrder(a, b), CompareOrder(b, a), CompareOrder(b, c), CompareOrder(a, c))
  {
    hide Compare, CompareNumberOrder;
    match a
    case NodeRef(n) => StringsOrdered(n, b.node, c.node);
    case EdgeRef(e) => StringsOrdered(e, b.edge, c.edge);
    case PathRef(k) => StringsOrdered(k, b.key, c.key);
    case Str(x) => StringsOrdered(x, b.s, c.s);
    case Num(x) => NumbersOrdered(x, b.x, c.x);
    case _ =>
  }

  lemma {:induction false} ItemsOrdered(a: seq<Value>, b: seq<Value>, c: seq<Value>)
    ensures CompareItems(a, a) == 0
    ensures Ordered(CompareItems(a, b), CompareItems(b, a), CompareItems(b, c), CompareItems(a, c))
    decreases a, 1
  {
    hide CompareOrder;
    if a == [] {
    } else if b == [] || c == [] {
      OrderIsTotal(a[0], a[0], a[0]);
      ItemsOrdered(a[1..], a[1..], a[1..]);
      if b != [] {
        OrderIsTotal(a[0], b[0], b[0]);
        ItemsOrdered(a[1..], b[1..], b[1..]);
      }
    } else {
      OrderIsTotal(a[0], b[0], c[0]);
      ItemsOrdered(a[1..], b[1..], c[1..]);
      Lexicographic(CompareOrder(a[0], b[0]), CompareOrder(b[0], a[0]), CompareOrder(b[0], c[0]), CompareOrder(a[0], c[0]),
                    CompareItems(a[1..], b[1..]), CompareItems(b[1..], a[1..]), CompareItems(b[1..], c[1..]), CompareItems(a[1..], c[1..]));
    }
  }

  function CompareMaps(a: Value, b: Value): int
    requires a.Map? && b.Map?
  {
    Then(CompareInts(|a.fields|, |b.fields|),
         Then(if |a.fields| == |b.fields| then CompareKeys(Keys(a.fields), Keys(b.fields)) else 0,
              CompareFields(a, b, Keys(a.fields))))
  }

  lemma MapOrder(a: Value, b: Value)
    requires a.Map? && b.Map?
    ensures CompareOrder(a, b) == CompareMaps(a, b)
  {
    hide CompareFields, CompareKeys, Keys;
  }

  lemma {:induction false} KeyCount(s: set<string>)
    ensures |SortedIds(s)| == |s|
    decreases |s|
  {
    if s != {} {
      var m := Least(s);
      assert s == (s - {m}) + {m};
      KeyCount(s - {m});
    }
  }

  lemma {:induction false} MapsOrdered(a: Value, b: Value, c: Value)
    requires a.Map? && b.Map? && c.Map?
    ensures CompareOrder(a, a) == 0
    ensures Ordered(CompareOrder(a, b), CompareOrder(b, a), CompareOrder(b, c), CompareOrder(a, c))
    decreases a, 1
  {
    hide CompareOrder, CompareFields, CompareKeys, Keys, CompareInts;
    MapOrder(a, a); MapOrder(a, b); MapOrder(b, a); MapOrder(b, c); MapOrder(a, c);
    KeysHaveSize(a); KeysHaveSize(b); KeysHaveSize(c);
    var (x, y, z) := (Keys(a.fields), Keys(b.fields), Keys(c.fields));
    KeysAreKeys(a); KeysAreKeys(b); KeysAreKeys(c);
    IntsOrdered(|a.fields|, |b.fields|, |c.fields|);
    IntsOrdered(|a.fields|, |a.fields|, |a.fields|);
    KeysOrdered(x, x, x);
    FieldsOrdered(a, a, a, x);
    if x == y { FieldsOrdered(a, b, b, x); }
    if x == y == z { FieldsOrdered(a, b, c, x); }
    MapsCombined(a, b, c);
  }

  lemma KeysAreKeys(a: Value)
    requires a.Map?
    ensures forall k | k in Keys(a.fields) :: k in a.fields
  {
    SortedHolds(a.fields.Keys);
  }

  lemma KeysHaveSize(a: Value)
    requires a.Map?
    ensures |Keys(a.fields)| == |a.fields|
  {
    KeyCount(a.fields.Keys);
  }

  /** Sizes, then keys, then values. */
  lemma MapsCombined(a: Value, b: Value, c: Value)
    requires a.Map? && b.Map? && c.Map?
    requires |Keys(a.fields)| == |a.fields| && |Keys(b.fields)| == |b.fields| && |Keys(c.fields)| == |c.fields|
    requires Ordered(CompareInts(|a.fields|, |b.fields|), CompareInts(|b.fields|, |a.fields|), CompareInts(|b.fields|, |c.fields|), CompareInts(|a.fields|, |c.fields|))
    requires var keys := Keys(a.fields);
             && (keys == Keys(b.fields) ==> CompareFields(a, b, keys) == -CompareFields(b, a, keys))
             && (keys == Keys(b.fields) == Keys(c.fields) ==>
                   Ordered(CompareFields(a, b, keys), CompareFields(b, a, keys), CompareFields(b, c, keys), CompareFields(a, c, keys)))
    ensures Ordered(CompareMaps(a, b), CompareMaps(b, a), CompareMaps(b, c), CompareMaps(a, c))
  {
    hide CompareFields, Keys;
    var (x, y, z) := (Keys(a.fields), Keys(b.fields), Keys(c.fields));
    var (m, n, o) := (|a.fields|, |b.fields|, |c.fields|);
    IntsOrdered(m, n, n); IntsOrdered(n, o, o); IntsOrdered(m, o, o);
    if m == n { KeysOrdered(x, y, y); }
    if n == o { KeysOrdered(y, z, z); }
    if m == n == o { KeysOrdered(x, y, z); KeysOrdered(x, z, z); }
    hide CompareKeys, CompareInts;
    var kab, kba := if m == n then CompareKeys(x, y) else 0, if n == m then CompareKeys(y, x) else 0;
    var kbc, kac := if n == o then CompareKeys(y, z) else 0, if m == o then CompareKeys(x, z) else 0;
    if m == n {
      if kab == 0 { assert x == y; }
      if n == o {
        Lexicographic(kab, kba, kbc, kac, CompareFields(a, b, x), CompareFields(b, a, y), CompareFields(b, c, y), CompareFields(a, c, x));
      }
    }
    Lexicographic(CompareInts(m, n), CompareInts(n, m), CompareInts(n, o), CompareInts(m, o),
                  Then(kab, CompareFields(a, b, x)), Then(kba, CompareFields(b, a, y)),
                  Then(kbc, CompareFields(b, c, y)), Then(kac, CompareFields(a, c, x)));
  }

  lemma {:induction false} FieldsOrdered(a: Value, b: Value, c: Value, keys: seq<string>)
    requires a.Map? && b.Map? && c.Map? && forall k | k in keys :: k in a.fields && k in b.fields && k in c.fields
    ensures CompareFields(a, a, keys) == 0
    ensures Ordered(CompareFields(a, b, keys), CompareFields(b, a, keys), CompareFields(b, c, keys), CompareFields(a, c, keys))
    decreases a, 0, |keys|
  {
    if keys != [] {
      hide CompareOrder;
      var k, rest := keys[0], keys[1..];
      assert k in keys;
      var (u, v, w) := (a.fields[k], b.fields[k], c.fields[k]);
      OrderIsTotal(u, v, w);
      FieldsOrdered(a, b, c, rest);
      Lexicographic(CompareOrder(u, v), CompareOrder(v, u), CompareOrder(v, w), CompareOrder(u, w),
                    CompareFields(a, b, rest), CompareFields(b, a, rest), CompareFields(b, c, rest), CompareFields(a, c, rest));
    }
  }

  // ---- the comparator over several keys ----

  /** One sort item: its direction. */
  datatype Item = Item(descending: bool)

  function Directed(item: Item, c: int): int {
    if item.descending then -c else c
  }

  /** The first key that differs decides, in its direction. */
  function CompareRows(items: seq<Item>, a: seq<Value>, b: seq<Value>): int
    requires |a| == |b| == |items|
  {
    if items == [] then 0
    else
      var first := Directed(items[0], CompareOrder(a[0], b[0]));
      if first != 0 then first else CompareRows(items[1..], a[1..], b[1..])
  }

  /** The less function of sortProjection. */
  predicate RowLess(items: seq<Item>, a: seq<Value>, b: seq<Value>)
    requires |a| == |b| == |items|
  {
    CompareRows(items, a, b) < 0
  }

  lemma DirectedOrdered(item: Item, a: Value, b: Value, c: Value)
    ensures Ordered(Directed(item, CompareOrder(a, b)), Directed(item, CompareOrder(b, a)),
                    Directed(item, CompareOrder(b, c)), Directed(item, CompareOrder(a, c)))
  {
    hide CompareOrder;
    OrderIsTotal(a, b, c);
    OrderIsTotal(c, b, a);
    OrderIsTotal(a, c, c);
    OrderIsTotal(b, c, c);
  }

  lemma {:induction false} RowsOrdered(items: seq<Item>, a: seq<Value>, b: seq<Value>, c: seq<Value>)
    requires |a| == |b| == |c| == |items|
    ensures Ordered(CompareRows(items, a, b), CompareRows(items, b, a), CompareRows(items, b, c), CompareRows(items, a, c))
    decreases |items|
  {
    if items != [] {
      hide CompareOrder, Directed;
      DirectedOrdered(items[0], a[0], b[0], c[0]);
      RowsOrdered(items[1..], a[1..], b[1..], c[1..]);
      var f := (x: Value, y: Value) => Directed(items[0], CompareOrder(x, y));
      Lexicographic(f(a[0], b[0]), f(b[0], a[0]), f(b[0], c[0]), f(a[0], c[0]),
                    CompareRows(items[1..], a[1..], b[1..]), CompareRows(items[1..], b[1..], a[1..]),
                    CompareRows(items[1..], b[1..], c[1..]), CompareRows(items[1..], a[1..], c[1..]));
    }
  }

  /** The loop of the less function. */
  method Precedes(items: seq<Item>, a: seq<Value>, b: seq<Value>) returns (less: bool)
    requires |a| == |b| == |items|
    ensures less == RowLess(items, a, b)
  {
    hide CompareOrder;
    for i := 0 to |items|
      invariant CompareRows(items, a, b) == CompareRows(items[i..], a[i..], b[i..])
    {
      var comparison := CompareOrder(a[i], b[i]);
      if comparison != 0 {
        return if items[i].descending then comparison > 0 else comparison < 0;
      }
    }
    return false;
  }

  predicate Ties(items: seq<Item>, a: seq<Value>, b: seq<Value>)
    requires |a| == |b| == |items|
  {
    !RowLess(items, a, b) && !RowLess(items, b, a)
  }

  /** A strict weak order: irreflexive, transitive, and with transitive ties. */
  lemma ComparatorIsStrictWeak(items: seq<Item>, a: seq<Value>, b: seq<Value>, c: seq<Value>)
    requires |a| == |b| == |c| == |items|
    ensures !RowLess(items, a, a)
    ensures RowLess(items, a, b) && RowLess(items, b, c) ==> RowLess(items, a, c)
    ensures Ties(items, a, b) && Ties(items, b, c) ==> Ties(items, a, c)
  {
    hide CompareRows;
    RowsOrdered(items, a, b, c);
    RowsOrdered(items, a, a, a);
    RowsOrdered(items, b, c, c);
    RowsOrdered(items, a, c, c);
  }

  // ---- the sorted projection ----

  /** A row under its sort keys. */
  datatype Keyed = Keyed(row: int, keys: seq<Value>)

  predicate KeyedFor(items: seq<Item>, rows: seq<Keyed>) {
    forall r | r in rows :: |r.keys| == |items|
  }

  function InsertRow(items: seq<Item>, sorted: seq<Keyed>, r: Keyed): seq<Keyed>
    requires KeyedFor(items, sorted) && |r.keys| == |items|
  {
    if sorted == [] || (assert sorted[0] in sorted; RowLess(items, r.keys, sorted[0].keys)) then [r] + sorted
    else [sorted[0]] + InsertRow(items, sorted[1..], r)
  }

  lemma {:induction false} InsertKeeps(items: seq<Item>, sorted: seq<Keyed>, r: Keyed)
    requires KeyedFor(items, sorted) && |r.keys| == |items|
    ensures multiset(InsertRow(items, sorted, r)) == multiset(sorted) + multiset{r}
    ensures KeyedFor(items, InsertRow(items, sorted, r))
  {
    hide RowLess;
    if sorted != [] {
      assert sorted == [sorted[0]] + sorted[1..];
      assert sorted[0] in sorted;
      InsertKeeps(items, sorted[1..], r);
    }
    var out := InsertRow(items, sorted, r);
    forall x | x in out ensures |x.keys| == |items| { assert x in multiset(out); }
  }

  /** sort.SliceStable. */
  function SortRows(items: seq<Item>, rows: seq<Keyed>): (sorted: seq<Keyed>)
    requires KeyedFor(items, rows)
    ensures KeyedFor(items, sorted) && multiset(sorted) == multiset(rows)
    decreases |rows|
  {
    if rows == [] then []
    else
      var last := rows[|rows| - 1];
      assert rows == rows[..|rows| - 1] + [last];
      assert last in rows;
      InsertKeeps(items, SortRows(items, rows[..|rows| - 1]), last);
      InsertRow(items, SortRows(items, rows[..|rows| - 1]), last)
  }

  /** No later row is less than an earlier one. */
  ghost predicate InOrder(items: seq<Item>, rows: seq<Keyed>)
    requires KeyedFor(items, rows)
  {
    forall i, j | 0 <= i < j < |rows| :: |rows[i].keys| == |rows[j].keys| == |items| && !RowLess(items, rows[j].keys, rows[i].keys)
  }

  lemma {:induction false} InsertInOrder(items: seq<Item>, sorted: seq<Keyed>, r: Keyed)
    requires KeyedFor(items, sorted) && |r.keys| == |items| && InOrder(items, sorted)
    ensures KeyedFor(items, InsertRow(items, sorted, r)) && InOrder(items, InsertRow(items, sorted, r))
  {
    hide RowLess;
    InsertKeeps(items, sorted, r);
    if sorted == [] {
    } else {
      assert sorted[0] in sorted;
      if RowLess(items, r.keys, sorted[0].keys) {
        ConsInOrder(items, r, sorted);
      } else {
        InsertInOrder(items, sorted[1..], r);
        InsertKeeps(items, sorted[1..], r);
        var rest := InsertRow(items, sorted[1..], r);
        forall x | x in rest ensures |x.keys| == |items| && !RowLess(items, x.keys, sorted[0].keys) {
          assert x in multiset(rest);
          if x != r {
            assert x in multiset(sorted[1..]);
            var j :| 0 <= j < |sorted[1..]| && sorted[1..][j] == x;
            assert !RowLess(items, sorted[j + 1].keys, sorted[0].keys);
          }
        }
        BeforeAll(items, sorted[0], rest);
      }
    }
  }

  lemma BeforeAll(items: seq<Item>, r: Keyed, rest: seq<Keyed>)
    requires KeyedFor(items, rest) && |r.keys| == |items| && InOrder(items, rest)
    requires forall x | x in rest :: |x.keys| == |items| && !RowLess(items, x.keys, r.keys)
    ensures KeyedFor(items, [r] + rest) && InOrder(items, [r] + rest)
  {
    hide RowLess;
    var all := [r] + rest;
    forall i, j | 0 <= i < j < |all| ensures |all[i].keys| == |all[j].keys| == |items| && !RowLess(items, all[j].keys, all[i].keys) {
      assert all[j] == rest[j - 1] && rest[j - 1] in rest;
      if i > 0 { assert !RowLess(items, rest[j - 1].keys, rest[i - 1].keys); }
    }
  }

  /** A row less than the first one is less than all. */
  lemma ConsInOrder(items: seq<Item>, r: Keyed, sorted: seq<Keyed>)
    requires KeyedFor(items, sorted) && |r.keys| == |items| && InOrder(items, sorted) && sorted != []
    requires |sorted[0].keys| == |items| && RowLess(items, r.keys, sorted[0].keys)
    ensures KeyedFor(items, [r] + sorted) && InOrder(items, [r] + sorted)
  {
    hide RowLess;
    forall x | x in sorted ensures |x.keys| == |items| && !RowLess(items, x.keys, r.keys) {
      var j :| 0 <= j < |sorted| && sorted[j] == x;
      LessStays(items, r.keys, sorted[0].keys, x.keys);
      LessStays(items, r.keys, sorted[0].keys, sorted[0].keys);
      if j > 0 { assert !RowLess(items, sorted[j].keys, sorted[0].keys); }
    }
    BeforeAll(items, r, sorted);
  }

  lemma LessStays(items: seq<Item>, a: seq<Value>, b: seq<Value>, c: seq<Value>)
    requires |a| == |b| == |c| == |items| && RowLess(items, a, b)
    ensures !RowLess(items, b, a) && (!RowLess(items, c, b) ==> !RowLess(items, c, a))
  {
    hide CompareRows;
    RowsOrdered(items, a, b, c);
    RowsOrdered(items, c, a, b);
    RowsOrdered(items, b, c, c);
    RowsOrdered(items, a, c, c);
  }

  /** ORDER BY: the same rows, none before a smaller one. */
  lemma {:induction false} SortedInOrder(items: seq<Item>, rows: seq<Keyed>)
    requires KeyedFor(items, rows)
    ensures InOrder(items, SortRows(items, rows))
    decreases |rows|
  {
    if rows != [] {
      var last := rows[|rows| - 1];
      assert last in rows;
      SortedInOrder(items, rows[..|rows| - 1]);
      InsertInOrder(items, SortRows(items, rows[..|rows| - 1]), last);
    }
  }

  // ---- stability ----

  /** The rows whose keys tie with the given ones, in their order. */
  function TiesOf(items: seq<Item>, rows: seq<Keyed>, keys: seq<Value>): seq<Keyed>
    requires KeyedFor(items, rows) && |keys| == |items|
  {
    if rows == [] then []
    else
      assert rows[0] in rows;
      (if Ties(items, rows[0].keys, keys) then [rows[0]] else []) + TiesOf(items, rows[1..], keys)
  }

  lemma {:induction false} NoTies(items: seq<Item>, r: Keyed, rows: seq<Keyed>, keys: seq<Value>)
    requires KeyedFor(items, rows) && |r.keys| == |keys| == |items| && Ties(items, r.keys, keys)
    requires forall x | x in rows :: |x.keys| == |items| && RowLess(items, r.keys, x.keys)
    ensures TiesOf(items, rows, keys) == []
  {
    if rows != [] {
      assert rows[0] in rows;
      hide RowLess, CompareRows;
      TiesAreAlike(items, r.keys, rows[0].keys, keys);
      NoTies(items, r, rows[1..], keys);
    }
  }

  lemma TiesAreAlike(items: seq<Item>, a: seq<Value>, b: seq<Value>, k: seq<Value>)
    requires |a| == |b| == |k| == |items| && Ties(items, a, k) && RowLess(items, a, b)
    ensures !Ties(items, b, k)
  {
    hide CompareRows;
    RowsOrdered(items, k, a, b);
    RowsOrdered(items, a, b, k);
    RowsOrdered(items, b, k, k);
  }

  /** Before all others, nothing ties with it. */
  lemma InsertFirst(items: seq<Item>, sorted: seq<Keyed>, r: Keyed, keys: seq<Value>)
    requires KeyedFor(items, sorted) && |r.keys| == |keys| == |items| && InOrder(items, sorted)
    requires sorted != [] && |sorted[0].keys| == |items| && RowLess(items, r.keys, sorted[0].keys)
    ensures TiesOf(items, InsertRow(items, sorted, r), keys) == TiesOf(items, sorted, keys) + (if Ties(items, r.keys, keys) then [r] else [])
  {
    hide RowLess, Ties;
    var out := [r] + sorted;
    assert out[0] == r && out[1..] == sorted;
    if Ties(items, r.keys, keys) {
      forall x | x in sorted ensures |x.keys| == |items| && RowLess(items, r.keys, x.keys) {
        var j :| 0 <= j < |sorted| && sorted[j] == x;
        LessThanLater(items, r.keys, sorted[0].keys, x.keys);
        if j > 0 { assert !RowLess(items, sorted[j].keys, sorted[0].keys); }
      }
      NoTies(items, r, sorted, keys);
    }
  }

  lemma TiesOfCons(items: seq<Item>, x: Keyed, rest: seq<Keyed>, keys: seq<Value>)
    requires KeyedFor(items, [x] + rest) && KeyedFor(items, rest) && |x.keys| == |keys| == |items|
    ensures TiesOf(items, [x] + rest, keys) == (if Ties(items, x.keys, keys) then [x] else []) + TiesOf(items, rest, keys)
  {
    hide Ties;
    var rows := [x] + rest;
    assert rows[0] == x && rows[1..] == rest;
  }

  lemma NoRows(items: seq<Item>, keys: seq<Value>)
    requires |keys| == |items|
    ensures KeyedFor(items, []) && TiesOf(items, [], keys) == []
  {
  }

  lemma InsertIs(items: seq<Item>, sorted: seq<Keyed>, r: Keyed)
    requires KeyedFor(items, sorted) && |r.keys| == |items|
    ensures sorted == [] ==> InsertRow(items, sorted, r) == [r]
    ensures sorted != [] ==> KeyedFor(items, sorted[1..]) && |sorted[0].keys| == |items|
    ensures sorted != [] && !RowLess(items, r.keys, sorted[0].keys) ==> InsertRow(items, sorted, r) == [sorted[0]] + InsertRow(items, sorted[1..], r)
  {
    hide RowLess;
    if sorted != [] { assert sorted[0] in sorted; }
  }

  lemma TailOf(items: seq<Item>, sorted: seq<Keyed>)
    requires KeyedFor(items, sorted) && InOrder(items, sorted) && sorted != []
    ensures KeyedFor(items, sorted[1..]) && InOrder(items, sorted[1..]) && |sorted[0].keys| == |items| && [sorted[0]] + sorted[1..] == sorted
  {
    hide RowLess;
    assert sorted[0] in sorted;
  }

  lemma {:induction false} InsertIsStable(items: seq<Item>, sorted: seq<Keyed>, r: Keyed, keys: seq<Value>)
    requires KeyedFor(items, sorted) && |r.keys| == |keys| == |items| && InOrder(items, sorted)
    ensures KeyedFor(items, InsertRow(items, sorted, r))
    ensures TiesOf(items, InsertRow(items, sorted, r), keys) == TiesOf(items, sorted, keys) + (if Ties(items, r.keys, keys) then [r] else [])
  {
    hide *;
    InsertKeeps(items, sorted, r);
    InsertIs(items, sorted, r);
    NoRows(items, keys);
    if sorted == [] {
      assert [r] + [] == [r];
      TiesOfCons(items, r, [], keys);
    } else {
      TailOf(items, sorted);
      if RowLess(items, r.keys, sorted[0].keys) {
        InsertFirst(items, sorted, r, keys);
      } else {
        InsertKeeps(items, sorted[1..], r);
        InsertIsStable(items, sorted[1..], r, keys);
        var rest := InsertRow(items, sorted[1..], r);
        TiesOfCons(items, sorted[0], rest, keys);
        TiesOfCons(items, sorted[0], sorted[1..], keys);
      }
    }
  }

  lemma LessThanLater(items: seq<Item>, a: seq<Value>, b: seq<Value>, c: seq<Value>)
    requires |a| == |b| == |c| == |items| && RowLess(items, a, b)
    ensures b == c || !RowLess(items, c, b) ==> RowLess(items, a, c)
  {
    hide CompareRows;
    RowsOrdered(items, a, b, c);
    RowsOrdered(items, c, b, b);
  }

  /** Rows that tie keep the order they came in. */
  lemma {:induction false} SortIsStable(items: seq<Item>, rows: seq<Keyed>, keys: seq<Value>)
    requires KeyedFor(items, rows) && |keys| == |items|
    ensures TiesOf(items, SortRows(items, rows), keys) == TiesOf(items, rows, keys)
    decreases |rows|
  {
    if rows != [] {
      var before, last := rows[..|rows| - 1], rows[|rows| - 1];
      assert last in rows && rows == before + [last];
      SortIsStable(items, before, keys);
      SortedInOrder(items, before);
      InsertIsStable(items, SortRows(items, before), last, keys);
      TiesAppend(items, before, last, keys);
    }
  }

  lemma {:induction false} TiesAppend(items: seq<Item>, rows: seq<Keyed>, r: Keyed, keys: seq<Value>)
    requires KeyedFor(items, rows) && |r.keys| == |keys| == |items|
    ensures KeyedFor(items, rows + [r])
    ensures TiesOf(items, rows + [r], keys) == TiesOf(items, rows, keys) + (if Ties(items, r.keys, keys) then [r] else [])
  {
    hide Ties;
    if rows == [] {
      assert rows + [r] == [r] && [r][1..] == [];
    } else {
      assert rows[0] in rows;
      assert (rows + [r])[1..] == rows[1..] + [r];
      TiesAppend(items, rows[1..], r, keys);
    }
  }
}
