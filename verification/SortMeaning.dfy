/** What ORDER BY means: which of two values comes first, read off their kinds and
    contents, and what a sorted list looks like under ASC and DESC. */
module SortMeaning {
  import opened Base
  import opened Text
  import opened Sorted
  import opened Selections
  import opened Numbers
  import opened EngineValues
  import opened OrderValues

  datatype Kind = AMap | ANode | AnEdge | AList | APath | AString | ABoolean | ANumber | ANull

  /** Values of different kinds come in this order. */
  const KINDS: seq<Kind> := [AMap, ANode, AnEdge, AList, APath, AString, ABoolean, ANumber, ANull]

  function KindOf(v: Value): Kind {
    match v
    case Map(_) => AMap
    case NodeRef(_) => ANode
    case EdgeRef(_) => AnEdge
    case List(_) => AList
    case PathRef(_) => APath
    case Str(_) => AString
    case Bool(_) => ABoolean
    case Num(_) => ANumber
    case Null => ANull
  }

  predicate KindBefore(a: Kind, b: Kind) {
    exists i, j :: 0 <= i < j < |KINDS| && KINDS[i] == a && KINDS[j] == b
  }

  /** Numbers by their place on the line, NaN last. */
  predicate NumberBefore(a: Number, b: Number) {
    !IsNaN(a) && (IsNaN(b) || PlaceBefore(PlaceOf(a), PlaceOf(b)))
  }

  predicate PlaceBefore(a: Place, b: Place) {
    match (a, b)
    case (Below, Below) => false
    case (Below, _) => true
    case (At(r), At(s)) => r < s
    case (At(_), Above) => true
    case _ => false
  }

  predicate NumberAlike(a: Number, b: Number) {
    if IsNaN(a) || IsNaN(b) then IsNaN(a) && IsNaN(b) else PlaceOf(a) == PlaceOf(b)
  }

  /** Of two sets of keys of one size, the one with the least key not in both. */
  ghost predicate KeysBefore(a: set<string>, b: set<string>) {
    exists k :: k in a && k !in b && forall j | Less(j, k) :: j in a <==> j in b
  }

  /** a comes before b. */
  ghost predicate Before(a: Value, b: Value)
    decreases a, 1
  {
    if KindOf(a) != KindOf(b) then KindBefore(KindOf(a), KindOf(b))
    else
      match a
      case Map(fields) =>
        || |fields| < |b.fields|
        || (|fields| == |b.fields| && KeysBefore(fields.Keys, b.fields.Keys))
        || (fields.Keys == b.fields.Keys && FieldsBefore(a, b, SortedIds(fields.Keys)))
      case NodeRef(n) => Less(n, b.node)
      case EdgeRef(e) => Less(e, b.edge)
      case List(items) => ListBefore(items, b.items)
      case PathRef(key) => Less(key, b.key)
      case Str(s) => Less(s, b.s)
      case Bool(x) => !x && b.b
      case Num(x) => NumberBefore(x, b.x)
      case Null => false
  }

  /** Neither comes first. */
  ghost predicate Alike(a: Value, b: Value)
    decreases a, 1
  {
    match a
    case Map(fields) => b.Map? && fields.Keys == b.fields.Keys && forall k | k in fields :: Alike(fields[k], b.fields[k])
    case List(items) => b.List? && |items| == |b.items| && forall i | 0 <= i < |items| :: Alike(items[i], b.items[i])
    case Num(x) => b.Num? && NumberAlike(x, b.x)
    case _ => a == b
  }

  /** The first items that are not alike decide; if there are none, the shorter list. */
  ghost predicate ListBefore(a: seq<Value>, b: seq<Value>)
    decreases a, 0
  {
    b != [] && (a == [] || Before(a[0], b[0]) || (Alike(a[0], b[0]) && ListBefore(a[1..], b[1..])))
  }

  /** The values under the first key at which they are not alike decide. */
  ghost predicate FieldsBefore(a: Value, b: Value, keys: seq<string>)
    requires a.Map? && b.Map?
    decreases a, 0, |keys|
  {
    keys != []
    && if keys[0] in a.fields && keys[0] in b.fields then
         Before(a.fields[keys[0]], b.fields[keys[0]])
         || (Alike(a.fields[keys[0]], b.fields[keys[0]]) && FieldsBefore(a, b, keys[1..]))
       else FieldsBefore(a, b, keys[1..])
  }

  // ---- compareOrderValues is this order ----

  lemma KindsAre(a: Value, b: Value)
    ensures KindOf(a) == KindOf(b) <==> Rank(a) == Rank(b)
    ensures KindOf(a) != KindOf(b) ==> (KindBefore(KindOf(a), KindOf(b)) <==> Rank(a) < Rank(b))
  {
    PositionIs(KindOf(a));
    PositionIs(KindOf(b));
    RankIs(a);
    RankIs(b);
    RanksIncrease(KindOf(a), KindOf(b));
    hide *;
    KindBeforeIs(KindOf(a), KindOf(b));
  }

  lemma PositionIs(k: Kind)
    ensures Position(k) < |KINDS| && KINDS[Position(k)] == k
    ensures forall i | 0 <= i < |KINDS| && KINDS[i] == k :: i == Position(k)
  {
  }

  lemma KindBeforeIs(a: Kind, b: Kind)
    ensures KindBefore(a, b) <==> Position(a) < Position(b)
  {
    PositionIs(a);
    PositionIs(b);
    hide Position;
  }

  function RankOf(k: Kind): nat {
    if k.AString? || k.ABoolean? || k.ANumber? then Position(k) + 2 else if k.ANull? then 12 else Position(k)
  }

  lemma RankIs(v: Value)
    ensures Rank(v) == RankOf(KindOf(v))
  {
  }

  lemma RanksIncrease(a: Kind, b: Kind)
    ensures a == b <==> RankOf(a) == RankOf(b)
    ensures Position(a) < Position(b) <==> RankOf(a) < RankOf(b)
  {
  }

  function Position(k: Kind): nat {
    match k
    case AMap => 0 case ANode => 1 case AnEdge => 2 case AList => 3 case APath => 4
    case AString => 5 case ABoolean => 6 case ANumber => 7 case ANull => 8
  }

  lemma NumbersAre(a: Number, b: Number)
    ensures CompareNumberOrder(a, b) < 0 <==> NumberBefore(a, b)
    ensures CompareNumberOrder(a, b) == 0 <==> NumberAlike(a, b)
  {
    CompareIsByPlace(a, b);
    hide CompareNumbers, PlaceOf;
  }

  lemma {:induction false} CompareIs(a: Value, b: Value)
    ensures CompareOrder(a, b) < 0 <==> Before(a, b)
    ensures CompareOrder(a, b) == 0 <==> Alike(a, b)
    decreases a, 1
  {
    KindsAre(a, b);
    if KindOf(a) != KindOf(b) {
      KindsDiffer(a, b);
    } else if a.List? {
      ItemsAre(a.items, b.items);
      ListsAre(a, b);
    } else if a.Map? {
      FieldsAre(a, b, SortedIds(a.fields.Keys));
      MapsAre(a, b);
    } else {
      LeavesAre(a, b);
    }
  }

  lemma KindsDiffer(a: Value, b: Value)
    requires KindOf(a) != KindOf(b) && Rank(a) != Rank(b) && (KindBefore(KindOf(a), KindOf(b)) <==> Rank(a) < Rank(b))
    ensures CompareOrder(a, b) < 0 <==> Before(a, b)
    ensures CompareOrder(a, b) == 0 <==> Alike(a, b)
  {
    RanksDecide(a, b);
    hide KindBefore;
  }

  lemma LeavesAre(a: Value, b: Value)
    requires KindOf(a) == KindOf(b) && !a.List? && !a.Map?
    ensures CompareOrder(a, b) < 0 <==> Before(a, b)
    ensures CompareOrder(a, b) == 0 <==> Alike(a, b)
  {
    hide CompareNumberOrder, NumberBefore, NumberAlike, Compare;
    match a
    case NodeRef(n) => CompareEqual(n, b.node);
    case EdgeRef(e) => CompareEqual(e, b.edge);
    case PathRef(k) => CompareEqual(k, b.key);
    case Str(s) => CompareEqual(s, b.s);
    case Num(x) => NumbersAre(x, b.x);
    case _ =>
  }

  lemma ListsAre(a: Value, b: Value)
    requires a.List? && b.List?
    requires CompareItems(a.items, b.items) < 0 <==> ListBefore(a.items, b.items)
    requires CompareItems(a.items, b.items) == 0 <==> |a.items| == |b.items| && forall i | 0 <= i < |a.items| :: Alike(a.items[i], b.items[i])
    ensures CompareOrder(a, b) < 0 <==> Before(a, b)
    ensures CompareOrder(a, b) == 0 <==> Alike(a, b)
  {
    hide CompareItems, ListBefore;
  }

  lemma {:induction false} ItemsAre(a: seq<Value>, b: seq<Value>)
    ensures CompareItems(a, b) < 0 <==> ListBefore(a, b)
    ensures CompareItems(a, b) == 0 <==> |a| == |b| && forall i | 0 <= i < |a| :: Alike(a[i], b[i])
    decreases a, 0
  {
    hide CompareOrder, Before, Alike;
    if a != [] && b != [] {
      CompareIs(a[0], b[0]);
      ItemsAre(a[1..], b[1..]);
      assert (|a| == |b| && forall i | 0 <= i < |a| :: Alike(a[i], b[i])) <==>
             Alike(a[0], b[0]) && |a[1..]| == |b[1..]| && forall i | 0 <= i < |a[1..]| :: Alike(a[1..][i], b[1..][i]) by { AlikeCons(a, b); }
    }
  }

  lemma AlikeCons(a: seq<Value>, b: seq<Value>)
    requires a != [] && b != []
    ensures (|a| == |b| && forall i | 0 <= i < |a| :: Alike(a[i], b[i])) <==>
            Alike(a[0], b[0]) && |a[1..]| == |b[1..]| && forall i | 0 <= i < |a[1..]| :: Alike(a[1..][i], b[1..][i])
  {
    hide Alike;
    assert forall i | 0 <= i < |a[1..]| :: a[1..][i] == a[i + 1];
    assert forall i | 0 <= i < |b[1..]| :: b[1..][i] == b[i + 1];
    if Alike(a[0], b[0]) && |a[1..]| == |b[1..]| && forall i | 0 <= i < |a[1..]| :: Alike(a[1..][i], b[1..][i]) {
      forall i | 0 <= i < |a| ensures Alike(a[i], b[i]) { if i > 0 { assert Alike(a[1..][i - 1], b[1..][i - 1]); } }
    }
  }

  ghost predicate AlikeUnder(a: Value, b: Value, keys: seq<string>)
    requires a.Map? && b.Map?
  {
    forall k | k in keys && k in a.fields && k in b.fields :: Alike(a.fields[k], b.fields[k])
  }

  lemma {:induction false} FieldsAre(a: Value, b: Value, keys: seq<string>)
    requires a.Map? && b.Map?
    ensures CompareFields(a, b, keys) < 0 <==> FieldsBefore(a, b, keys)
    ensures CompareFields(a, b, keys) == 0 <==> AlikeUnder(a, b, keys)
    decreases a, 0, |keys|
  {
    hide CompareOrder, Before, Alike;
    if keys != [] {
      var k := keys[0];
      if k in a.fields && k in b.fields { CompareIs(a.fields[k], b.fields[k]); }
      FieldsAre(a, b, keys[1..]);
      assert AlikeUnder(a, b, keys) <==> (k in a.fields && k in b.fields ==> Alike(a.fields[k], b.fields[k])) && AlikeUnder(a, b, keys[1..]);
    }
  }

  // ---- the keys of two maps ----

  /** In increasing lists, the first difference shows the least key not in both. */
  lemma {:induction false} KeyListsAre(x: seq<string>, y: seq<string>)
    requires Increasing(x) && Increasing(y) && |x| == |y|
    ensures CompareKeys(x, y) < 0 <==> KeysBefore((set k | k in x), (set k | k in y))
    ensures CompareKeys(x, y) == 0 <==> x == y
  {
    if x != [] {
      CompareEqual(x[0], y[0]);
      CompareFlips(x[0], y[0]);
      if x[0] == y[0] {
        KeyListsAre(x[1..], y[1..]);
        TailKeys(x, y);
        assert x == [x[0]] + x[1..] && y == [y[0]] + y[1..];
      } else {
        HeadKeys(x, y);
      }
    }
  }

  lemma LessOnce(a: string, b: string, c: string)
    ensures Less(a, b) ==> !Less(b, a) && a != b
    ensures Less(a, b) && Less(b, c) ==> Less(a, c)
    ensures a == b || Less(a, b) || Less(b, a)
  {
    CompareFlips(a, b);
    CompareEqual(a, b);
    if Less(a, b) && Less(b, c) { CompareTransitive(a, b, c); }
    hide Compare;
  }

  lemma HeadIsLeast(x: seq<string>, k: string)
    requires Increasing(x) && k in x
    ensures k == x[0] || Less(x[0], k)
  {
    hide Less;
    var i :| 0 <= i < |x| && x[i] == k;
  }

  lemma HeadKeys(x: seq<string>, y: seq<string>)
    requires Increasing(x) && Increasing(y) && x != [] && y != [] && x[0] != y[0]
    ensures KeysBefore((set k | k in x), (set k | k in y)) <==> Less(x[0], y[0])
  {
    hide Less, Increasing;
    var (a, b) := (set k | k in x, set k | k in y);
    LessOnce(x[0], y[0], y[0]);
    forall k ensures k in x ==> k == x[0] || Less(x[0], k) { if k in x { HeadIsLeast(x, k); } }
    forall k ensures k in y ==> k == y[0] || Less(y[0], k) { if k in y { HeadIsLeast(y, k); } }
    forall j, k ensures Less(j, k) ==> !Less(k, j) && j != k { LessOnce(j, k, k); }
    if Less(x[0], y[0]) {
      assert x[0] in a && x[0] !in b;
      forall j | Less(j, x[0]) ensures j !in a && j !in b {
        LessOnce(j, x[0], y[0]);
        LessOnce(j, y[0], j);
      }
    } else {
      assert y[0] in b;
      forall k | k in a && k !in b ensures Less(y[0], k) && y[0] !in a {
        LessOnce(y[0], x[0], k);
      }
    }
  }

  lemma TailKeys(x: seq<string>, y: seq<string>)
    requires Increasing(x) && Increasing(y) && x != [] && y != [] && x[0] == y[0]
    ensures KeysBefore((set k | k in x), (set k | k in y)) <==> KeysBefore((set k | k in x[1..]), (set k | k in y[1..]))
  {
    hide Less;
    var (a, b, c, d) := (set k | k in x, set k | k in y, set k | k in x[1..], set k | k in y[1..]);
    IncreasingNoDup(x);
    IncreasingNoDup(y);
    hide Increasing;
    assert x == [x[0]] + x[1..] && y == [y[0]] + y[1..];
    assert x[0] !in x[1..] && x[0] !in y[1..];
    forall k ensures k in a <==> k == x[0] || k in c { }
    forall k ensures k in b <==> k == x[0] || k in d { }
  }

  lemma MapsAre(a: Value, b: Value)
    requires a.Map? && b.Map?
    requires CompareFields(a, b, SortedIds(a.fields.Keys)) < 0 <==> FieldsBefore(a, b, SortedIds(a.fields.Keys))
    requires CompareFields(a, b, SortedIds(a.fields.Keys)) == 0 <==> AlikeUnder(a, b, SortedIds(a.fields.Keys))
    ensures CompareOrder(a, b) < 0 <==> Before(a, b)
    ensures CompareOrder(a, b) == 0 <==> Alike(a, b)
  {
    var (x, y) := (Keys(a.fields), Keys(b.fields));
    MapOrder(a, b);
    KeysHaveSize(a);
    KeysHaveSize(b);
    SortedHolds(a.fields.Keys);
    SortedHolds(b.fields.Keys);
    assert (set k | k in x) == a.fields.Keys && (set k | k in y) == b.fields.Keys;
    if |a.fields| == |b.fields| { KeyListsAre(x, y); }
    hide CompareOrder, CompareFields, CompareKeys, FieldsBefore, KeysBefore;
    assert a.fields.Keys == b.fields.Keys ==> x == y && |a.fields.Keys| == |b.fields.Keys|;
    assert |a.fields.Keys| == |a.fields| && |b.fields.Keys| == |b.fields|;
    assert x == y ==> a.fields.Keys == b.fields.Keys;
    assert a.fields.Keys == b.fields.Keys ==> (Alike(a, b) <==> AlikeUnder(a, b, x));
    if a.fields.Keys == b.fields.Keys { SameKeys(a.fields.Keys); }
  }

  lemma SameKeys(a: set<string>)
    ensures !KeysBefore(a, a)
  {
  }

  // ---- strings ----

  /** One string is the beginning of the other, or has the smaller character where they
      first differ. */
  predicate StringBefore(s: string, t: string) {
    exists i :: 0 <= i <= |s| && i <= |t| && s[..i] == t[..i] && DecidedAt(s, t, i)
  }

  predicate DecidedAt(s: string, t: string, i: nat)
    requires i <= |s| && i <= |t|
  {
    i < |t| && (i == |s| || s[i] < t[i])
  }

  lemma {:induction false} LessIs(s: string, t: string)
    ensures Less(s, t) <==> StringBefore(s, t)
  {
    if s == [] || t == [] || s[0] != t[0] {
      assert s[..0] == t[..0];
      if s != [] && t != [] {
        forall i | 0 < i <= |s| && i <= |t| ensures s[..i] != t[..i] { assert s[..i][0] != t[..i][0]; }
      }
      assert s == [] || t == [] ==> (Less(s, t) <==> DecidedAt(s, t, 0));
      if t == [] { assert forall i | 0 <= i <= |s| && i <= |t| :: !DecidedAt(s, t, i); }
    } else {
      LessIs(s[1..], t[1..]);
      StringTail(s, t);
    }
  }

  lemma StringTail(s: string, t: string)
    requires s != [] && t != [] && s[0] == t[0]
    ensures StringBefore(s, t) <==> StringBefore(s[1..], t[1..])
  {
    if i :| 0 <= i <= |s| && i <= |t| && s[..i] == t[..i] && DecidedAt(s, t, i) {
      assert i > 0;
      assert s[1..][..i - 1] == s[..i][1..] && t[1..][..i - 1] == t[..i][1..];
      assert DecidedAt(s[1..], t[1..], i - 1);
    }
    if i :| 0 <= i <= |s[1..]| && i <= |t[1..]| && s[1..][..i] == t[1..][..i] && DecidedAt(s[1..], t[1..], i) {
      assert s[..i + 1] == [s[0]] + s[1..][..i] && t[..i + 1] == [t[0]] + t[1..][..i];
      assert DecidedAt(s, t, i + 1);
    }
  }

  // ---- sorted rows ----

  predicate SameLength(items: seq<Item>, a: seq<Value>, b: seq<Value>) {
    |a| == |b| == |items|
  }

  ghost predicate AllAlike(a: seq<Value>, b: seq<Value>) {
    |a| == |b| && forall i | 0 <= i < |a| :: Alike(a[i], b[i])
  }

  /** At the first key at which they are not alike, a's value comes before b's under ASC
      and after it under DESC. */
  ghost predicate RowBefore(items: seq<Item>, a: seq<Value>, b: seq<Value>)
    requires SameLength(items, a, b)
  {
    exists p :: 0 <= p < |items| && DecidesAt(items, a, b, p)
  }

  ghost predicate DecidesAt(items: seq<Item>, a: seq<Value>, b: seq<Value>, p: nat)
    requires SameLength(items, a, b) && p < |items|
  {
    && (forall q | 0 <= q < p :: Alike(a[q], b[q]))
    && if items[p].descending then Before(b[p], a[p]) else Before(a[p], b[p])
  }

  lemma {:induction false} RowsAre(items: seq<Item>, a: seq<Value>, b: seq<Value>)
    requires SameLength(items, a, b)
    ensures CompareRows(items, a, b) < 0 <==> RowBefore(items, a, b)
    ensures CompareRows(items, a, b) == 0 <==> AllAlike(a, b)
    decreases |items|
  {
    hide CompareOrder, Alike, Before;
    if items != [] {
      var (x, y) := (a[0], b[0]);
      CompareIs(x, y);
      CompareIs(y, x);
      OrderIsTotal(x, y, y);
      RowsAre(items[1..], a[1..], b[1..]);
      FirstDecides(items, a, b);
      AlikeTail(a, b);
    }
  }

  lemma AlikeTail(a: seq<Value>, b: seq<Value>)
    requires a != [] && |a| == |b|
    ensures AllAlike(a, b) <==> Alike(a[0], b[0]) && AllAlike(a[1..], b[1..])
  {
    hide Alike;
    AlikeCons(a, b);
  }

  lemma FirstDecides(items: seq<Item>, a: seq<Value>, b: seq<Value>)
    requires SameLength(items, a, b) && items != []
    ensures RowBefore(items, a, b) <==>
            || (if items[0].descending then Before(b[0], a[0]) else Before(a[0], b[0]))
            || (Alike(a[0], b[0]) && RowBefore(items[1..], a[1..], b[1..]))
  {
    hide Alike, Before;
    var (rest, x, y) := (items[1..], a[1..], b[1..]);
    if if items[0].descending then Before(b[0], a[0]) else Before(a[0], b[0]) { assert DecidesAt(items, a, b, 0); }
    if p :| 0 <= p < |items| && DecidesAt(items, a, b, p) {
      if p > 0 {
        forall q | 0 <= q < p - 1 ensures Alike(x[q], y[q]) { assert Alike(a[q + 1], b[q + 1]); }
        assert DecidesAt(rest, x, y, p - 1);
        assert Alike(a[0], b[0]);
      }
    }
    if Alike(a[0], b[0]) && RowBefore(rest, x, y) {
      var p :| 0 <= p < |rest| && DecidesAt(rest, x, y, p);
      forall q | 0 <= q < p + 1 ensures Alike(a[q], b[q]) { if q > 0 { assert Alike(x[q - 1], y[q - 1]); } }
      assert DecidesAt(items, a, b, p + 1);
    }
  }

  /** ORDER BY: of any two rows of the result, the keys of the earlier one come first in
      the directions asked for, or all keys are alike. */
  lemma SortMeans(items: seq<Item>, rows: seq<Keyed>, i: nat, j: nat)
    requires KeyedFor(items, rows) && i < j < |SortRows(items, rows)|
    ensures var (a, b) := (SortRows(items, rows)[i].keys, SortRows(items, rows)[j].keys);
            SameLength(items, a, b) && (RowBefore(items, a, b) || AllAlike(a, b))
  {
    hide RowBefore, AllAlike, CompareRows, SortRows;
    SortedInOrder(items, rows);
    var sorted := SortRows(items, rows);
    assert !RowLess(items, sorted[j].keys, sorted[i].keys);
    RowsAre(items, sorted[i].keys, sorted[j].keys);
    RowsOrdered(items, sorted[i].keys, sorted[j].keys, sorted[j].keys);
  }

  /** Rows with keys alike keep the order and the number they came in. */
  lemma StableMeans(items: seq<Item>, rows: seq<Keyed>, keys: seq<Value>) returns (same: seq<Keyed>)
    requires KeyedFor(items, rows) && |keys| == |items|
    ensures Selects(rows, same, (r: Keyed) => AllAlike(r.keys, keys)) && Selects(SortRows(items, rows), same, (r: Keyed) => AllAlike(r.keys, keys))
  {
    hide SortRows, Selects;
    SortIsStable(items, rows, keys);
    same := TiesOf(items, rows, keys);
    TiesSelect(items, rows, keys);
    TiesSelect(items, SortRows(items, rows), keys);
  }

  lemma TiesAre(items: seq<Item>, a: seq<Value>, b: seq<Value>)
    requires SameLength(items, a, b)
    ensures Ties(items, a, b) <==> AllAlike(a, b)
  {
    hide CompareRows, AllAlike, RowBefore;
    RowsAre(items, a, b);
    RowsOrdered(items, a, b, b);
  }

  lemma {:induction false} TiesSelect(items: seq<Item>, rows: seq<Keyed>, keys: seq<Value>)
    requires KeyedFor(items, rows) && |keys| == |items|
    ensures Selects(rows, TiesOf(items, rows, keys), (r: Keyed) => AllAlike(r.keys, keys))
  {
    hide Selects, Ties, AllAlike;
    var keep := (r: Keyed) => AllAlike(r.keys, keys);
    if rows == [] {
      SelectsNothing(keep);
    } else {
      assert rows[0] in rows;
      TiesSelect(items, rows[1..], keys);
      TiesAre(items, rows[0].keys, keys);
      SelectsFirst(rows[0], rows[1..], TiesOf(items, rows[1..], keys), keep);
      assert [rows[0]] + rows[1..] == rows;
    }
  }
}
