/** Property and label predicates pushed down to the index tables: which terms
    are indexed, the two forms of the lookup, and what is left to re-check. */
module IndexLookup {
  import opened Base
  import opened Sorted
  import opened Text
  import Json
  import PropertyTree

  /** Property values by key, each in its canonical encoding. */
  type Properties = map<string, string>

  datatype IndexRow = IndexRow(key: string, kind: string, value: string)

  datatype Compiled = Compiled(exact: Properties, scalars: seq<IndexRow>, hasResidual: bool)

  const MAX_TERMS: nat := 256
  const MAX_DIRECT_JOINS: nat := 60
  const MAX_KEY_BYTES: nat := 65_536

  function UpToQuote(s: string): string {
    if s == "" || s[0] == '"' then "" else [s[0]] + UpToQuote(s[1..])
  }

  /** The kind is the first field of an encoding: {"k":"...". */
  function KindOf(data: string): string {
    if |data| < 6 then "" else UpToQuote(data[6..])
  }

  predicate Letters(s: string) {
    forall i | 0 <= i < |s| :: 'a' <= s[i] <= 'z'
  }

  lemma {:induction false} LettersAreKept(s: string, rest: string)
    requires Letters(s)
    ensures Json.EscapeAll(s) == s && UpToQuote(s + "\"" + rest) == s
  {
    if s != "" {
      LettersAreKept(s[1..], rest);
      assert Json.Escape(s[0]) == [s[0]];
      hide Json.Escape;
      assert (s + "\"" + rest)[1..] == s[1..] + "\"" + rest;
      assert s == [s[0]] + s[1..];
    }
  }

  /** The kind read off an encoding is the kind that was encoded. */
  lemma KindIsRead(e: PropertyTree.Encoded)
    requires Letters(e.kind)
    ensures KindOf(PropertyTree.Marshal(e)) == e.kind
  {
    hide *;
    var rest := FirstField(e);
    var data := PropertyTree.Marshal(e);
    LettersAreKept(e.kind, rest);
    assert data[6..] == e.kind + "\"" + rest;
    assert KindOf(data) == UpToQuote(data[6..]) by { KindIs(data); }
  }

  lemma KindIs(data: string)
    requires |data| >= 6
    ensures KindOf(data) == UpToQuote(data[6..])
  {
  }

  lemma FirstField(e: PropertyTree.Encoded) returns (rest: string)
    ensures PropertyTree.Marshal(e) == "{\"k\":\"" + (Json.EscapeAll(e.kind) + "\"" + rest)
  {
    var members := MembersOf(e);
    var first := Json.PrintMember(members[0]);
    var tail := if |members| == 1 then "" else "," + Json.PrintMembers(members[1..]);
    FirstPrinted(e.kind);
    hide *;
    assert Json.PrintMembers(members) == first + tail by { FirstOf(members); }
    rest := tail + "}";
    Regroup("{", "\"k\":\"", Json.EscapeAll(e.kind), "\"", tail, "}");
    assert "{" + "\"k\":\"" == "{\"k\":\"";
  }

  lemma Regroup(x: string, p: string, a: string, q: string, t: string, z: string)
    ensures x + ((p + (a + q)) + t) + z == (x + p) + (a + q + (t + z))
  {
  }

  lemma MembersOf(e: PropertyTree.Encoded) returns (members: seq<Json.Member>)
    ensures members != [] && members[0] == Json.Member("k", Json.JString(e.kind))
    ensures PropertyTree.Marshal(e) == "{" + Json.PrintMembers(members) + "}"
  {
    members := PropertyTree.Head(e) + PropertyTree.Body(e);
  }

  lemma FirstOf(members: seq<Json.Member>)
    requires members != []
    ensures Json.PrintMembers(members) == Json.PrintMember(members[0]) + if |members| == 1 then "" else "," + Json.PrintMembers(members[1..])
  {
  }

  lemma FirstPrinted(kind: string)
    ensures Json.PrintMember(Json.Member("k", Json.JString(kind))) == "\"k\":\"" + (Json.EscapeAll(kind) + "\"")
  {
    hide Json.EscapeAll;
    assert Json.EscapeAll("k") == "k" by { LettersAreKept("k", ""); }
  }

  predicate Composite(data: string) {
    KindOf(data) == "map" || KindOf(data) == "list"
  }

  function RowOf(key: string, data: string): IndexRow {
    IndexRow(key, KindOf(data), data)
  }

  /** The rows kept for one version: its scalar properties. */
  function IndexRows(properties: Properties): set<IndexRow> {
    set k | k in properties && !Composite(properties[k]) :: RowOf(k, properties[k])
  }

  /** matchesProperties: every wanted key is there with the wanted value. */
  predicate Matches(actual: Properties, exact: Properties) {
    forall k | k in exact :: k in actual && actual[k] == exact[k]
  }

  // ---- compiling a predicate ----

  predicate IsCompiled(wanted: Properties, c: Compiled) {
    && c.exact == wanted
    && NoDup(c.scalars) && (set row | row in c.scalars) == IndexRows(wanted)
    && (c.hasResidual <==> exists k :: k in wanted && Composite(wanted[k]))
  }

  predicate KeysAllowed(wanted: Properties) {
    |wanted| <= MAX_TERMS && forall k | k in wanted :: ByteLen(k) <= MAX_KEY_BYTES
  }

  /** compileProperties. */
  method CompileProperties(wanted: Properties) returns (r: Result<Compiled>)
    ensures r.Ok? <==> KeysAllowed(wanted)
    ensures r.Ok? ==> IsCompiled(wanted, r.value)
  {
    if !KeysAllowed(wanted) { return Err(InvalidArgument); }
    hide *;
    var keys := SortedIds(wanted.Keys);
    OneKeyEach(wanted, keys);
    var c := Compiled(map[], [], false);
    CompiledNone();
    for i := 0 to |keys|
      invariant c.exact == Part(wanted, keys, i) && IsCompiled(c.exact, c)
    {
      var key := keys[i];
      PartMore(wanted, keys, i);
      CompiledMore(c, key, wanted[key]);
      c := Compiled(c.exact[key := wanted[key]],
                    if Composite(wanted[key]) then c.scalars else c.scalars + [RowOf(key, wanted[key])],
                    c.hasResidual || Composite(wanted[key]));
    }
    return Ok(c);
  }

  /** The part of a predicate on the first keys. */
  ghost function Part(wanted: Properties, keys: seq<string>, i: nat): Properties
    requires i <= |keys|
  {
    map k | k in wanted && k in keys[..i] :: wanted[k]
  }

  lemma OneKeyEach(wanted: Properties, keys: seq<string>)
    requires keys == SortedIds(wanted.Keys)
    ensures NoDup(keys) && (forall k | k in keys :: k in wanted)
    ensures Part(wanted, keys, 0) == map[] && Part(wanted, keys, |keys|) == wanted
  {
    SortedHolds(wanted.Keys);
    IncreasingNoDup(keys);
    assert keys[..|keys|] == keys;
  }

  lemma PartMore(wanted: Properties, keys: seq<string>, i: nat)
    requires NoDup(keys) && i < |keys| && keys[i] in wanted
    ensures keys[i] !in Part(wanted, keys, i)
    ensures Part(wanted, keys, i + 1) == Part(wanted, keys, i)[keys[i] := wanted[keys[i]]]
  {
    assert keys[..i + 1] == keys[..i] + [keys[i]];
  }

  lemma CompiledNone()
    ensures IsCompiled(map[], Compiled(map[], [], false))
  {
  }

  lemma CompiledMore(c: Compiled, key: string, data: string)
    requires IsCompiled(c.exact, c) && key !in c.exact
    ensures IsCompiled(c.exact[key := data],
                       Compiled(c.exact[key := data], if Composite(data) then c.scalars else c.scalars + [RowOf(key, data)],
                                c.hasResidual || Composite(data)))
  {
    hide Composite, KindOf, IndexRows, RowOf, NoDup;
    IndexedMore(c.exact, key, data);
    if !Composite(data) { NewRow(c.scalars, c.exact, RowOf(key, data)); }
    var more := c.exact[key := data];
    if Composite(data) { assert key in more && Composite(more[key]); }
    if c.hasResidual {
      var k :| k in c.exact && Composite(c.exact[k]);
      assert k in more && Composite(more[k]);
    }
  }

  lemma IndexedMore(properties: Properties, key: string, data: string)
    requires key !in properties
    ensures IndexRows(properties[key := data]) == IndexRows(properties) + if Composite(data) then {} else {RowOf(key, data)}
    ensures RowOf(key, data) !in IndexRows(properties)
  {
    hide Composite, KindOf;
    var more := properties[key := data];
    forall row ensures row in IndexRows(more) <==> row in IndexRows(properties) || (!Composite(data) && row == RowOf(key, data)) {
      if row in IndexRows(properties) || (!Composite(data) && row == RowOf(key, data)) { assert row.key in more; }
    }
  }

  lemma NewRow(scalars: seq<IndexRow>, properties: Properties, row: IndexRow)
    requires NoDup(scalars) && (set r | r in scalars) == IndexRows(properties) && row !in IndexRows(properties)
    ensures NoDup(scalars + [row]) && (set r | r in scalars + [row]) == IndexRows(properties) + {row}
  {
    assert forall r :: r in scalars <==> r in (set r | r in scalars);
    AppendNoDup(scalars, [row]);
  }

  // ---- the two forms of the lookup ----

  /** One join per term: each finds the row of the version. */
  predicate Joined<T>(rows: set<T>, terms: seq<T>) {
    forall t | t in terms :: t in rows
  }

  /** One scan for any of the terms, grouped by version, HAVING COUNT(*) = n. */
  predicate Grouped<T(==)>(rows: set<T>, terms: seq<T>) {
    terms == [] || |set row | row in rows && row in terms| == |terms|
  }

  /** Both forms select the same versions. */
  lemma FormsAgree<T>(rows: set<T>, terms: seq<T>)
    requires NoDup(terms)
    ensures Grouped(rows, terms) <==> Joined(rows, terms)
  {
    var wanted := set t | t in terms;
    var found := set row | row in rows && row in terms;
    DistinctSize(terms);
    if Joined(rows, terms) {
      assert found == wanted;
    } else if Grouped(rows, terms) {
      var t :| t in terms && t !in rows;
      SubsetSize(found, wanted - {t});
    }
  }

  lemma {:induction false} DistinctSize<T>(terms: seq<T>)
    requires NoDup(terms)
    ensures |set t | t in terms| == |terms|
  {
    if terms != [] {
      var n := |terms| - 1;
      DistinctSize(terms[..n]);
      assert terms[..n] + [terms[n]] == terms;
      assert (set t | t in terms) == (set t | t in terms[..n]) + {terms[n]};
      assert forall i | 0 <= i < n :: terms[..n][i] != terms[n];
    }
  }

  /** The condition of nodeSQL and edgeSQL on one version's index rows. */
  predicate Selected<L(==)>(labels: set<L>, rows: set<IndexRow>, wantedLabels: seq<L>, scalars: seq<IndexRow>) {
    if |wantedLabels| + |scalars| <= MAX_DIRECT_JOINS then Joined(labels, wantedLabels) && Joined(rows, scalars)
    else Grouped(labels, wantedLabels) && Grouped(rows, scalars)
  }

  /** Rows match the indexed terms exactly when the indexed properties match, and
      with no composite value wanted nothing is left to check. */
  lemma IndexIsExact(actual: Properties, wanted: Properties, c: Compiled)
    requires IsCompiled(wanted, c)
    ensures Joined(IndexRows(actual), c.scalars) <==> forall k | k in wanted && !Composite(wanted[k]) :: k in actual && actual[k] == wanted[k]
    ensures Matches(actual, c.exact) ==> Joined(IndexRows(actual), c.scalars)
    ensures !c.hasResidual ==> (Joined(IndexRows(actual), c.scalars) <==> Matches(actual, c.exact))
  {
    hide Composite, KindOf;
    assert forall row :: row in c.scalars <==> row in (set row | row in c.scalars);
    if Joined(IndexRows(actual), c.scalars) {
      forall k | k in wanted && !Composite(wanted[k]) ensures k in actual && actual[k] == wanted[k] {
        assert RowOf(k, wanted[k]) in IndexRows(wanted);
        assert RowOf(k, wanted[k]) in IndexRows(actual);
      }
    }
    if forall k | k in wanted && !Composite(wanted[k]) :: k in actual && actual[k] == wanted[k] {
      forall row | row in c.scalars ensures row in IndexRows(actual) {
        assert row in IndexRows(wanted);
        assert row.key in actual;
      }
    }
  }

  /** Versions selected through the indexes and re-checked are exactly those with
      all the labels and all the property values. */
  lemma LookupIsExact<L>(labels: set<L>, actual: Properties, wantedLabels: seq<L>, wanted: Properties, c: Compiled)
    requires IsCompiled(wanted, c) && NoDup(wantedLabels)
    ensures Selected(labels, IndexRows(actual), wantedLabels, c.scalars) && Matches(actual, c.exact)
            <==> Joined(labels, wantedLabels) && Matches(actual, wanted)
    ensures !c.hasResidual && Selected(labels, IndexRows(actual), wantedLabels, c.scalars) ==> Matches(actual, c.exact)
  {
    hide IndexRows, Matches, Joined, Grouped;
    FormsAgree(labels, wantedLabels);
    FormsAgree(IndexRows(actual), c.scalars);
    IndexIsExact(actual, wanted, c);
  }
}
