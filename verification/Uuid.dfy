/** The UUIDv7 generator (sections 5.7 and 6.2 of RFC 9562): a 48-bit millisecond
    timestamp and a 74-bit payload around fixed version and variant bits. */
module Uuid {
  import opened Base
  import opened Text
  import opened EntityId
  import opened Sorted
  import Json

  type byte = b: int | 0 <= b < 256

  const TWO_48: int := 0x1_0000_0000_0000
  const TWO_56: int := 0x100_0000_0000_0000
  const TWO_62: int := 0x4000_0000_0000_0000

  // ---- the fields of an identifier ----

  function At(id: seq<byte>, i: nat): int
    requires i < |id|
  {
    id[i]
  }

  function Stamp(id: seq<byte>): nat
    requires |id| == 16
  {
    At(id, 0) * 0x100_0000_0000 + At(id, 1) * 0x1_0000_0000 + At(id, 2) * 0x100_0000 + At(id, 3) * 0x1_0000 + At(id, 4) * 0x100 + At(id, 5)
  }

  /** The last seven bytes. */
  function Low56(id: seq<byte>): nat
    requires |id| == 16
  {
    At(id, 9) * TWO_48 + At(id, 10) * 0x100_0000_0000 + At(id, 11) * 0x1_0000_0000 + At(id, 12) * 0x100_0000 + At(id, 13) * 0x1_0000
    + At(id, 14) * 0x100 + At(id, 15)
  }

  /** The payload bits above and below the variant. */
  function High12(id: seq<byte>): nat
    requires |id| == 16
  {
    At(id, 6) % 16 * 256 + At(id, 7)
  }

  function Low62(id: seq<byte>): nat
    requires |id| == 16
  {
    At(id, 8) % 64 * TWO_56 + Low56(id)
  }

  function Payload(id: seq<byte>): nat
    requires |id| == 16
  {
    High12(id) * TWO_62 + Low62(id)
  }

  const ALL_ONES: int := 4096 * TWO_62 - 1

  lemma PayloadRange(id: seq<byte>)
    requires |id| == 16
    ensures Low56(id) < TWO_56 && Low62(id) < TWO_62 && High12(id) < 4096 && Payload(id) <= ALL_ONES && Stamp(id) < TWO_48
  {
  }

  /** Everything but the payload. */
  predicate SameFrame(a: seq<byte>, b: seq<byte>)
    requires |a| == |b| == 16
  {
    a[..6] == b[..6] && a[6] / 16 == b[6] / 16 && a[8] / 64 == b[8] / 64
  }

  predicate Versioned(id: seq<byte>)
    requires |id| == 16
  {
    id[6] / 16 == 7 && id[8] / 64 == 2
  }

  // ---- the increment ----

  /** incrementUUIDv7Payload: adds one to the payload, or reports that it was all
      ones and leaves it at zero. */
  method IncrementPayload(id: array<byte>) returns (ok: bool)
    requires id.Length == 16
    modifies id
    ensures SameFrame(id[..], old(id[..]))
    ensures ok <==> Payload(old(id[..])) != ALL_ONES
    ensures Payload(id[..]) == if ok then Payload(old(id[..])) + 1 else 0
  {
    hide *;
    ghost var before := id[..];
    PayloadRange(before);
    var index := 15;
    while index >= 9
      invariant 8 <= index <= 15
      invariant forall j | index < j <= 15 :: id[j] == 0 && before[j] == 255
      invariant forall j | 0 <= j <= index :: id[j] == before[j]
    {
      var byteValue: int := id[index];
      id[index] := (byteValue + 1) % 256;
      if id[index] != 0 {
        LowIncremented(before, id[..], index);
        return true;
      }
      index := index - 1;
    }
    LowExhausted(before, id[..]);
    ok := CarryIntoVariant(id, before);
  }

  lemma LowIncremented(before: seq<byte>, after: seq<byte>, index: int)
    requires |before| == |after| == 16 && 9 <= index <= 15
    requires forall j | index < j <= 15 :: after[j] == 0 && before[j] == 255
    requires forall j | 0 <= j < index :: after[j] == before[j]
    requires after[index] as int == before[index] as int + 1
    ensures SameFrame(after, before) && Payload(after) == Payload(before) + 1 && Payload(before) != ALL_ONES
  {
    PayloadRange(after);
    assert index == 9 || index == 10 || index == 11 || index == 12 || index == 13 || index == 14 || index == 15;
    assert Low56(after) == Low56(before) + 1;
  }

  lemma LowExhausted(before: seq<byte>, after: seq<byte>)
    requires |before| == |after| == 16 && forall j | 8 < j <= 15 :: after[j] == 0 && before[j] == 255
    ensures Low56(before) == TWO_56 - 1 && Low56(after) == 0
  {
  }

  /** The carry out of the last seven bytes, around the variant and the version. */
  method CarryIntoVariant(id: array<byte>, ghost before: seq<byte>) returns (ok: bool)
    requires id.Length == 16 && |before| == 16 && id[..9] == before[..9]
    requires Low56(before) == TWO_56 - 1 && Low56(id[..]) == 0
    modifies id
    ensures SameFrame(id[..], before)
    ensures ok <==> Payload(before) != ALL_ONES
    ensures Payload(id[..]) == if ok then Payload(before) + 1 else 0
  {
    PayloadRange(before);
    forall j | 0 <= j < 9 ensures id[j] == before[j] { assert id[j] == id[..9][j] && before[j] == before[..9][j]; }
    var eighth: int := id[8];
    var low := eighth % 64 + 1;
    id[8] := eighth / 64 * 64 + low % 64;
    assert Low56(id[..]) == 0;
    if low <= 63 { return true; }
    id[8] := eighth / 64 * 64;
    ok := CarryIntoVersion(id, before);
  }

  method CarryIntoVersion(id: array<byte>, ghost before: seq<byte>) returns (ok: bool)
    requires id.Length == 16 && |before| == 16 && Low62(before) == TWO_62 - 1 && Low62(id[..]) == 0
    requires (forall j | 0 <= j < 8 :: id[j] == before[j]) && At(id[..], 8) / 64 == At(before, 8) / 64
    modifies id
    ensures SameFrame(id[..], before)
    ensures ok <==> Payload(before) != ALL_ONES
    ensures Payload(id[..]) == if ok then Payload(before) + 1 else 0
  {
    hide Low62, High12, Payload, LowOf;
    ghost var low := id[8..];
    SameLow(id[..], low);
    var seventh: int := id[7];
    var value := seventh + 1;
    id[7] := value % 256;
    SameLow(id[..], low);
    if value <= 255 {
      VersionCarried(before, id[..]);
      return true;
    }
    var sixth: int := id[6];
    value := sixth % 16 + 1;
    id[6] := sixth / 16 * 16 + value % 16;
    SameLow(id[..], low);
    VersionCarried(before, id[..]);
    return value <= 15;
  }

  lemma VersionCarried(before: seq<byte>, after: seq<byte>)
    requires |before| == |after| == 16 && Low62(before) == TWO_62 - 1 && Low62(after) == 0
    requires (forall j | 0 <= j < 6 :: after[j] == before[j]) && At(after, 8) / 64 == At(before, 8) / 64
    requires if At(before, 7) < 255 then At(after, 7) == At(before, 7) + 1 && after[6] == before[6]
             else At(after, 7) == 0 && At(after, 6) == At(before, 6) / 16 * 16 + (At(before, 6) % 16 + 1) % 16
    ensures SameFrame(after, before)
    ensures Payload(before) == ALL_ONES <==> At(before, 7) == 255 && At(before, 6) % 16 == 15
    ensures Payload(after) == if Payload(before) == ALL_ONES then 0 else Payload(before) + 1
  {
    hide Low62;
    PayloadRange(before);
  }

  function LowOf(low: seq<byte>): nat
    requires |low| == 8
  {
    Low62(seq(8, i => 0) + low)
  }

  lemma SameLow(id: seq<byte>, low: seq<byte>)
    requires |id| == 16 && |low| == 8 && id[8..] == low
    ensures Low62(id) == LowOf(low)
  {
    var padded := seq(8, i => 0) + low;
    forall j | 8 <= j < 16 ensures id[j] == padded[j] { assert id[j] == id[8..][j - 8]; }
  }

  // ---- the text of an identifier ----

  function Hex(s: seq<byte>): (text: string)
    ensures |text| == 2 * |s|
  {
    if s == [] then "" else [Json.HexDigit(s[0] / 16), Json.HexDigit(s[0] % 16)] + Hex(s[1..])
  }

  function TextOf(id: seq<byte>): string
    requires |id| == 16
  {
    Hex(id[..4]) + ("-" + (Hex(id[4..6]) + ("-" + (Hex(id[6..8]) + ("-" + (Hex(id[8..10]) + ("-" + Hex(id[10..]))))))))
  }

  lemma HexDigitHolds(n: nat)
    requires n < 16
    ensures IsHexDigit(Json.HexDigit(n))
    ensures forall m: nat | m < 16 :: Json.HexDigit(m) < Json.HexDigit(n) <==> m < n
    ensures n == 7 <==> Json.HexDigit(n) == '7'
    ensures 8 <= n < 12 <==> Json.HexDigit(n) in "89ab"
  {
  }

  lemma {:induction false} HexHolds(s: seq<byte>, i: nat)
    requires i < 2 * |s|
    ensures Hex(s)[i] == Json.HexDigit(if i % 2 == 0 then s[i / 2] / 16 else s[i / 2] % 16)
    ensures IsHexDigit(Hex(s)[i])
  {
    hide Json.HexDigit, IsHexDigit;
    if i < 2 {
      HexDigitHolds(s[0] / 16);
      HexDigitHolds(s[0] % 16);
    } else {
      HexHolds(s[1..], i - 2);
    }
  }

  /** A versioned identifier is written as a valid entity ID. */
  lemma TextIsEntityId(id: seq<byte>)
    requires |id| == 16 && Versioned(id)
    ensures IsEntityId(TextOf(id))
  {
    var text := TextOf(id);
    hide Hex, IsHexDigit, Json.HexDigit;
    forall i | 0 <= i < 36 && i !in HYPHENS ensures IsHexDigit(text[i]) {
      if i < 8 { HexHolds(id[..4], i); }
      else if i < 13 { HexHolds(id[4..6], i - 9); }
      else if i < 18 { HexHolds(id[6..8], i - 14); }
      else if i < 23 { HexHolds(id[8..10], i - 19); }
      else { HexHolds(id[10..], i - 24); }
    }
    HexHolds(id[6..8], 0);
    HexHolds(id[8..10], 0);
    HexDigitHolds(id[6] / 16);
    HexDigitHolds(id[8] / 16);
  }

  // ---- the order of texts is the order of numbers ----

  predicate LexLess(a: seq<byte>, b: seq<byte>)
    requires |a| == |b|
  {
    a != [] && (a[0] < b[0] || (a[0] == b[0] && LexLess(a[1..], b[1..])))
  }

  lemma CompareHead(c: char, d: char, u: string, v: string)
    ensures Less([c] + u, [d] + v) <==> c < d || (c == d && Less(u, v))
  {
    assert ([c] + u)[1..] == u && ([d] + v)[1..] == v;
  }

  lemma {:induction false} HexCompare(a: seq<byte>, b: seq<byte>, u: string, v: string)
    requires |a| == |b|
    ensures Less(Hex(a) + u, Hex(b) + v) <==> LexLess(a, b) || (a == b && Less(u, v))
  {
    if a == [] {
      assert Hex(a) + u == u && Hex(b) + v == v;
    } else {
      HexCompare(a[1..], b[1..], u, v);
      ByteCompare(a, b, u, v);
    }
  }

  lemma ByteCompare(a: seq<byte>, b: seq<byte>, u: string, v: string)
    requires |a| == |b| && a != []
    requires Less(Hex(a[1..]) + u, Hex(b[1..]) + v) <==> LexLess(a[1..], b[1..]) || (a[1..] == b[1..] && Less(u, v))
    ensures Less(Hex(a) + u, Hex(b) + v) <==> LexLess(a, b) || (a == b && Less(u, v))
  {
    hide *;
    var x, y := Hex(a[1..]) + u, Hex(b[1..]) + v;
    HexOf(a);
    HexOf(b);
    PairCompare(a[0], b[0], x, y);
    Regroup(Json.HexDigit(a[0] / 16), Json.HexDigit(a[0] % 16), Hex(a[1..]), u);
    Regroup(Json.HexDigit(b[0] / 16), Json.HexDigit(b[0] % 16), Hex(b[1..]), v);
    LexOf(a, b);
    assert a == b <==> a[0] == b[0] && a[1..] == b[1..] by { assert a == [a[0]] + a[1..] && b == [b[0]] + b[1..]; }
  }

  lemma Regroup(p: char, q: char, h: string, u: string)
    ensures [p, q] + h + u == [p] + ([q] + (h + u))
  {
  }

  lemma PairCompare(m: byte, n: byte, x: string, y: string)
    ensures Less([Json.HexDigit(m / 16)] + ([Json.HexDigit(m % 16)] + x), [Json.HexDigit(n / 16)] + ([Json.HexDigit(n % 16)] + y))
            <==> m < n || (m == n && Less(x, y))
  {
    hide *;
    DigitOrder(m / 16, n / 16);
    DigitOrder(m % 16, n % 16);
    CompareHead(Json.HexDigit(m % 16), Json.HexDigit(n % 16), x, y);
    CompareHead(Json.HexDigit(m / 16), Json.HexDigit(n / 16), [Json.HexDigit(m % 16)] + x, [Json.HexDigit(n % 16)] + y);
    SameByte(m, n);
  }

  lemma HexOf(s: seq<byte>)
    requires s != []
    ensures Hex(s) == [Json.HexDigit(s[0] / 16), Json.HexDigit(s[0] % 16)] + Hex(s[1..])
  {
  }

  lemma DigitOrder(m: nat, n: nat)
    requires m < 16 && n < 16
    ensures Json.HexDigit(m) < Json.HexDigit(n) <==> m < n
    ensures Json.HexDigit(m) == Json.HexDigit(n) <==> m == n
  {
    HexDigitHolds(n);
    HexDigitHolds(m);
    hide Json.HexDigit;
  }

  lemma SameByte(x: int, y: int)
    ensures x < y <==> x / 16 < y / 16 || (x / 16 == y / 16 && x % 16 < y % 16)
    ensures x == y <==> x / 16 == y / 16 && x % 16 == y % 16
  {
  }

  lemma {:induction false} LexSplit(a: seq<byte>, b: seq<byte>, k: nat)
    requires |a| == |b| && k <= |a|
    ensures LexLess(a, b) <==> LexLess(a[..k], b[..k]) || (a[..k] == b[..k] && LexLess(a[k..], b[k..]))
  {
    if k > 0 {
      LexSplit(a[1..], b[1..], k - 1);
      assert a[..k][1..] == a[1..][..k - 1] && b[..k][1..] == b[1..][..k - 1];
      assert a[1..][k - 1..] == a[k..] && b[1..][k - 1..] == b[k..];
      assert a[..k] == [a[0]] + a[1..][..k - 1] && b[..k] == [b[0]] + b[1..][..k - 1];
    }
  }

  /** Texts compare like the bytes they spell. */
  lemma TextCompare(a: seq<byte>, b: seq<byte>)
    requires |a| == |b| == 16
    ensures Less(TextOf(a), TextOf(b)) <==> LexLess(a, b)
  {
    hide Less, LexLess, Hex;
    var (a4, b4) := (Hex(a[10..]), Hex(b[10..]));
    var (a3, b3) := (Hex(a[8..10]) + ("-" + a4), Hex(b[8..10]) + ("-" + b4));
    var (a2, b2) := (Hex(a[6..8]) + ("-" + a3), Hex(b[6..8]) + ("-" + b3));
    var (a1, b1) := (Hex(a[4..6]) + ("-" + a2), Hex(b[4..6]) + ("-" + b2));
    HexCompare(a[10..], b[10..], "", "");
    EmptyIsNotLess();
    assert a4 + "" == a4 && b4 + "" == b4;
    CompareHead('-', '-', a4, b4);
    HexCompare(a[8..10], b[8..10], "-" + a4, "-" + b4);
    CompareHead('-', '-', a3, b3);
    HexCompare(a[6..8], b[6..8], "-" + a3, "-" + b3);
    CompareHead('-', '-', a2, b2);
    HexCompare(a[4..6], b[4..6], "-" + a2, "-" + b2);
    CompareHead('-', '-', a1, b1);
    HexCompare(a[..4], b[..4], "-" + a1, "-" + b1);
    Segments(a, b);
  }

  lemma EmptyIsNotLess()
    ensures !Less("", "")
  {
  }

  lemma Segments(a: seq<byte>, b: seq<byte>)
    requires |a| == |b| == 16
    ensures LexLess(a, b) <==>
            || LexLess(a[..4], b[..4])
            || (a[..4] == b[..4] && (LexLess(a[4..6], b[4..6])
            || (a[4..6] == b[4..6] && (LexLess(a[6..8], b[6..8])
            || (a[6..8] == b[6..8] && (LexLess(a[8..10], b[8..10])
            || (a[8..10] == b[8..10] && LexLess(a[10..], b[10..]))))))))
  {
    hide LexLess;
    LexSplit(a, b, 4);
    LexSplit(a[4..], b[4..], 2);
    assert a[4..][..2] == a[4..6] && b[4..][..2] == b[4..6] && a[4..][2..] == a[6..] && b[4..][2..] == b[6..];
    LexSplit(a[6..], b[6..], 2);
    assert a[6..][..2] == a[6..8] && b[6..][..2] == b[6..8] && a[6..][2..] == a[8..] && b[6..][2..] == b[8..];
    LexSplit(a[8..], b[8..], 2);
    assert a[8..][..2] == a[8..10] && b[8..][..2] == b[8..10] && a[8..][2..] == a[10..] && b[8..][2..] == b[10..];
  }

  // ---- bytes as numbers ----

  function Pow256(n: nat): nat {
    if n == 0 then 1 else 256 * Pow256(n - 1)
  }

  function Big(s: seq<byte>): nat {
    if s == [] then 0 else s[0] * Pow256(|s| - 1) + Big(s[1..])
  }

  lemma {:induction false} BigIsBounded(s: seq<byte>)
    ensures Big(s) < Pow256(|s|)
  {
    if s != [] {
      BigIsBounded(s[1..]);
      TimesMonotone(s[0], 255, Pow256(|s| - 1));
    }
  }

  lemma TimesMonotone(x: int, y: int, p: nat)
    requires x <= y
    ensures x * p <= y * p
  {
  }

  lemma {:induction false} LexIsBig(a: seq<byte>, b: seq<byte>)
    requires |a| == |b|
    ensures LexLess(a, b) <==> Big(a) < Big(b)
    ensures a == b <==> Big(a) == Big(b)
  {
    if a != [] {
      hide *;
      LexIsBig(a[1..], b[1..]);
      BigIsBounded(a[1..]);
      BigIsBounded(b[1..]);
      BigOf(a);
      BigOf(b);
      LexOf(a, b);
      HeadDecides(a[0], b[0], Pow256(|a| - 1), Big(a[1..]), Big(b[1..]));
      assert a == [a[0]] + a[1..] && b == [b[0]] + b[1..];
    }
  }

  lemma HeadDecides(x: int, y: int, p: nat, u: nat, v: nat)
    requires u < p && v < p
    ensures x * p + u < y * p + v <==> x < y || (x == y && u < v)
    ensures x * p + u == y * p + v <==> x == y && u == v
  {
    if x < y { TimesMonotone(x + 1, y, p); }
    if y < x { TimesMonotone(y + 1, x, p); }
  }

  lemma BigOf(s: seq<byte>)
    requires s != []
    ensures Big(s) == s[0] * Pow256(|s| - 1) + Big(s[1..])
  {
  }

  lemma LexOf(a: seq<byte>, b: seq<byte>)
    requires |a| == |b| && a != []
    ensures LexLess(a, b) <==> a[0] < b[0] || (a[0] == b[0] && LexLess(a[1..], b[1..]))
  {
  }

  /** Timestamp and payload as one number. */
  function Number(id: seq<byte>): nat
    requires |id| == 16
  {
    Stamp(id) * (4096 * TWO_62) + Payload(id)
  }

  lemma StampIsBig(id: seq<byte>)
    requires |id| == 16
    ensures Big(id[..6]) == Stamp(id)
  {
    var s := id[..6];
    BigOf(s); BigOf(s[1..]); BigOf(s[1..][1..]); BigOf(s[1..][1..][1..]); BigOf(s[1..][1..][1..][1..]); BigOf(s[1..][1..][1..][1..][1..]);
    Powers();
    hide Big, Pow256;
    assert s[1..][1..][1..][1..][1..][1..] == [];
    assert Big([]) == 0 by { NoBytes(); }
  }

  lemma NoBytes()
    ensures Big([]) == 0
  {
  }

  lemma Powers()
    ensures Pow256(0) == 1 && Pow256(1) == 0x100 && Pow256(2) == 0x1_0000 && Pow256(3) == 0x100_0000 && Pow256(4) == 0x1_0000_0000
    ensures Pow256(5) == 0x100_0000_0000 && Pow256(6) == TWO_48 && Pow256(7) == TWO_56
    ensures Pow256(8) == 256 * TWO_56 && Pow256(9) == 0x1_0000 * TWO_56
  {
    PowerOf(1); PowerOf(2); PowerOf(3); PowerOf(4); PowerOf(5); PowerOf(6); PowerOf(7); PowerOf(8); PowerOf(9);
  }

  lemma PowerOf(n: nat)
    requires n > 0
    ensures Pow256(n) == 256 * Pow256(n - 1)
  {
  }

  lemma LastSeven(id: seq<byte>)
    requires |id| == 16
    ensures Big(id[9..]) == Low56(id)
  {
    var s := id[9..];
    BigOf(s); BigOf(s[1..]); BigOf(s[1..][1..]); BigOf(s[1..][1..][1..]); BigOf(s[1..][1..][1..][1..]);
    BigOf(s[1..][1..][1..][1..][1..]); BigOf(s[1..][1..][1..][1..][1..][1..]);
    Powers();
    hide Big, Pow256;
    assert s[1..][1..][1..][1..][1..][1..][1..] == [];
    NoBytes();
  }

  /** The last ten bytes of a versioned identifier, as a number. */
  lemma LastTen(id: seq<byte>)
    requires |id| == 16 && Versioned(id)
    ensures Big(id[6..]) == (112 * 256 + High12(id)) * (256 * TWO_56) + 128 * TWO_56 + Low62(id)
  {
    hide Big, Pow256, Low56;
    var s := id[6..];
    BigOf(s); BigOf(s[1..]); BigOf(s[1..][1..]);
    Powers();
    LastSeven(id);
    assert s[0] == id[6] && s[1..][0] == id[7] && s[1..][1..][0] == id[8];
    assert s[1..][1..][1..] == id[9..];
    ThreeBytes(id[6], id[7], id[8], Low56(id));
  }

  lemma ThreeBytes(sixth: int, seventh: int, eighth: int, low: int)
    requires sixth / 16 == 7 && eighth / 64 == 2
    ensures sixth * (0x1_0000 * TWO_56) + (seventh * (256 * TWO_56) + (eighth * TWO_56 + low))
            == (112 * 256 + (sixth % 16 * 256 + seventh)) * (256 * TWO_56) + 128 * TWO_56 + (eighth % 64 * TWO_56 + low)
  {
    assert sixth == 112 + sixth % 16 && eighth == 128 + eighth % 64;
  }

  /** Identifiers sort as text in the order of their numbers. */
  lemma TextOrderIsNumberOrder(a: seq<byte>, b: seq<byte>)
    requires |a| == |b| == 16 && Versioned(a) && Versioned(b)
    ensures Less(TextOf(a), TextOf(b)) <==> Number(a) < Number(b)
  {
    hide *;
    TextCompare(a, b);
    LexSplit(a, b, 6);
    StampCompare(a, b);
    TailCompare(a, b);
    PayloadRange(a);
    PayloadRange(b);
    HeadDecides(Stamp(a), Stamp(b), ALL_ONES + 1, Payload(a), Payload(b));
    NumberIs(a);
    NumberIs(b);
  }

  lemma StampCompare(a: seq<byte>, b: seq<byte>)
    requires |a| == |b| == 16
    ensures LexLess(a[..6], b[..6]) <==> Stamp(a) < Stamp(b)
    ensures a[..6] == b[..6] <==> Stamp(a) == Stamp(b)
  {
    hide *;
    LexIsBig(a[..6], b[..6]);
    StampIsBig(a);
    StampIsBig(b);
  }

  lemma TailCompare(a: seq<byte>, b: seq<byte>)
    requires |a| == |b| == 16 && Versioned(a) && Versioned(b)
    ensures LexLess(a[6..], b[6..]) <==> Payload(a) < Payload(b)
  {
    hide *;
    LexIsBig(a[6..], b[6..]);
    LastTen(a);
    LastTen(b);
    PayloadRange(a);
    PayloadRange(b);
    PayloadIs(a);
    PayloadIs(b);
    HeadDecides(High12(a), High12(b), TWO_62, Low62(a), Low62(b));
    assert 128 * TWO_56 + Low62(a) < 256 * TWO_56 && 128 * TWO_56 + Low62(b) < 256 * TWO_56 by { Doubled(); }
    HeadDecides(112 * 256 + High12(a), 112 * 256 + High12(b), 256 * TWO_56, 128 * TWO_56 + Low62(a), 128 * TWO_56 + Low62(b));
  }

  lemma Doubled()
    ensures 128 * TWO_56 == 2 * TWO_62 && 256 * TWO_56 == 4 * TWO_62
  {
  }

  lemma NumberIs(id: seq<byte>)
    requires |id| == 16
    ensures Number(id) == Stamp(id) * (ALL_ONES + 1) + Payload(id)
  {
    hide Stamp, Payload;
  }

  lemma PayloadIs(id: seq<byte>)
    requires |id| == 16
    ensures Payload(id) == High12(id) * TWO_62 + Low62(id)
  {
    hide High12, Low62;
  }

  // ---- the generator ----

  /** The timestamp the next identifier gets: the clock's, or when the clock has not
      passed the last one, the last one again, or one more when the payload is full. */
  function NextStamp(last: seq<byte>, millis: nat): nat
    requires |last| == 16
  {
    if millis > Stamp(last) then millis
    else if Payload(last) == ALL_ONES then Stamp(last) + 1
    else Stamp(last)
  }

  /** The payload is counted up, not drawn. */
  predicate Follows(last: seq<byte>, millis: nat)
    requires |last| == 16
  {
    millis <= Stamp(last) && Payload(last) != ALL_ONES
  }

  /** The payload of ten drawn bytes. */
  function RandomPayload(random: seq<byte>): nat
    requires |random| == 10
  {
    Payload([0, 0, 0, 0, 0, 0] + random)
  }

  /** What follows an identifier at a clock reading. */
  ghost predicate Succeeds(last: seq<byte>, millis: nat, next: seq<byte>)
    requires |last| == 16 && |next| == 16
  {
    && Versioned(next) && Stamp(next) == NextStamp(last, millis) % TWO_48
    && (Follows(last, millis) ==> Payload(next) == Payload(last) + 1)
  }

  /** Stamped and versioned: the six timestamp bytes, and two bits overwritten. */
  method Finish(id: array<byte>, millis: nat)
    requires id.Length == 16
    modifies id
    ensures Stamp(id[..]) == millis % TWO_48 && Versioned(id[..]) && Payload(id[..]) == Payload(old(id[..]))
  {
    ghost var tail := id[..];
    id[0] := millis / 0x100_0000_0000 % 256;
    id[1] := millis / 0x1_0000_0000 % 256;
    id[2] := millis / 0x100_0000 % 256;
    id[3] := millis / 0x1_0000 % 256;
    id[4] := millis / 0x100 % 256;
    id[5] := millis % 256;
    var sixth: int, eighth: int := id[6], id[8];
    id[6] := 7 * 16 + sixth % 16;
    id[8] := 2 * 64 + eighth % 64;
    SixBytes(millis);
    SamePayload(tail, id[..]);
  }

  lemma SixBytes(millis: nat)
    ensures millis / 0x100_0000_0000 % 256 * 0x100_0000_0000 + millis / 0x1_0000_0000 % 256 * 0x1_0000_0000
            + millis / 0x100_0000 % 256 * 0x100_0000 + millis / 0x1_0000 % 256 * 0x1_0000 + millis / 0x100 % 256 * 0x100 + millis % 256
            == millis % TWO_48
  {
    var b0 := millis / 256;
    var b1 := b0 / 256;
    var b2 := b1 / 256;
    var b3 := b2 / 256;
    var b4 := b3 / 256;
    var b5 := b4 / 256;
    assert b1 == millis / 0x1_0000 && b2 == millis / 0x100_0000 && b3 == millis / 0x1_0000_0000 && b4 == millis / 0x100_0000_0000;
    assert b5 == millis / TWO_48;
  }

  lemma SamePayload(a: seq<byte>, b: seq<byte>)
    requires |a| == |b| == 16 && a[7] == b[7] && (forall j | 9 <= j < 16 :: a[j] == b[j])
    requires At(a, 6) % 16 == At(b, 6) % 16 && At(a, 8) % 64 == At(b, 8) % 64
    ensures Payload(a) == Payload(b)
  {
  }

  class Generator {
    const last: array<byte>
    var started: bool

    constructor ()
      ensures !started && last.Length == 16 && fresh(last)
    {
      last := new byte[16](i => 0);
      started := false;
    }

    ghost predicate Valid()
      reads this, last
    {
      last.Length == 16 && (started ==> Versioned(last[..]))
    }

    /** newUUIDv7: the clock and the random bytes are given; reading them may fail. */
    method NewId(millis: nat, random: Option<seq<byte>>) returns (r: Option<string>)
      requires Valid() && (random.Some? ==> |random.value| == 10)
      modifies this`started, last
      ensures Valid()
      ensures r.None? ==> started == old(started) && last[..] == old(last[..]) && random.None?
      ensures r.Some? ==> started && r.value == TextOf(last[..]) && IsEntityId(r.value)
      ensures r.Some? && old(started) ==> Succeeds(old(last[..]), millis, last[..])
      ensures r.Some? && !old(started) ==> Stamp(last[..]) == millis % TWO_48
      ensures r.Some? && !(old(started) && Follows(old(last[..]), millis)) ==> random.Some? && Payload(last[..]) == RandomPayload(random.value)
    {
      hide Stamp, Payload, TextOf, IsEntityId, Json.HexDigit;
      ghost var before := last[..];
      var id := new byte[16](i => 0);
      var stamp := millis;
      var lastMillis := StampOf(last);
      if started && millis <= lastMillis {
        CopyInto(id, last);
        assert id[..] == before;
        var ok := IncrementPayload(id);
        if ok {
          stamp := lastMillis;
        } else {
          stamp := lastMillis + 1;
          if random.None? { return None; }
          FillRandom(id, random.value);
        }
      } else {
        if random.None? { return None; }
        FillRandom(id, random.value);
      }
      Finish(id, stamp);
      TextIsEntityId(id[..]);
      var text := TextOf(id[..]);
      ghost var done := id[..];
      CopyInto(last, id);
      assert last[..] == done;
      started := true;
      return Some(text);
    }

    method StampOf(id: array<byte>) returns (n: nat)
      requires id.Length == 16
      ensures n == Stamp(id[..])
    {
      n := Stamp(id[..]);
    }
  }

  method CopyInto(target: array<byte>, source: array<byte>)
    requires target.Length == source.Length == 16 && target != source
    modifies target
    ensures target[..] == source[..]
  {
    for i := 0 to 16
      invariant forall j | 0 <= j < i :: target[j] == source[j]
    {
      target[i] := source[i];
    }
  }

  method FillRandom(id: array<byte>, random: seq<byte>)
    requires id.Length == 16 && |random| == 10
    modifies id
    ensures Payload(id[..]) == RandomPayload(random)
  {
    hide *;
    for i := 0 to 10
      invariant forall j | 0 <= j < i :: id[6 + j] == random[j]
    {
      id[6 + i] := random[i];
    }
    Drawn(id[..], random);
  }

  lemma Drawn(id: seq<byte>, random: seq<byte>)
    requires |id| == 16 && |random| == 10 && forall j | 0 <= j < 10 :: id[6 + j] == random[j]
    ensures Payload(id) == RandomPayload(random)
  {
    hide Payload, Low56, Low62, High12;
    var b := [0, 0, 0, 0, 0, 0] + random;
    forall j | 6 <= j < 16 ensures id[j] == b[j] { assert id[6 + (j - 6)] == random[j - 6]; }
    SamePayload(id, b);
  }

  // ---- runs of the generator ----

  /** Within 48 bits of timestamp, the successor's number is larger. */
  lemma SuccessorIsLarger(last: seq<byte>, millis: nat, next: seq<byte>)
    requires |last| == |next| == 16 && Versioned(last) && Succeeds(last, millis, next) && NextStamp(last, millis) < TWO_48
    ensures Number(last) < Number(next) && Less(TextOf(last), TextOf(next))
  {
    hide *;
    SucceedsIs(last, millis, next);
    PayloadRange(last);
    PayloadRange(next);
    NumberIs(last);
    NumberIs(next);
    HeadDecides(Stamp(last), Stamp(next), ALL_ONES + 1, Payload(last), Payload(next));
    TextOrderIsNumberOrder(last, next);
  }

  lemma SucceedsIs(last: seq<byte>, millis: nat, next: seq<byte>)
    requires |last| == |next| == 16 && Succeeds(last, millis, next) && NextStamp(last, millis) < TWO_48
    ensures Versioned(next)
    ensures Stamp(next) > Stamp(last) || (Stamp(next) == Stamp(last) && Payload(next) == Payload(last) + 1)
  {
    hide Stamp, Payload, Versioned;
  }

  /** A run: each identifier follows the one before at its clock reading. */
  ghost predicate IsRun(ids: seq<seq<byte>>, clock: seq<nat>) {
    && |ids| == |clock| && (forall i | 0 <= i < |ids| :: |ids[i]| == 16 && Versioned(ids[i]))
    && forall i | 0 < i < |ids| :: Succeeds(ids[i - 1], clock[i], ids[i])
  }

  /** No reading, and no carried timestamp, needs more than 48 bits. */
  ghost predicate InRange(ids: seq<seq<byte>>, clock: seq<nat>)
    requires IsRun(ids, clock)
  {
    forall i | 0 < i < |ids| :: NextStamp(ids[i - 1], clock[i]) < TWO_48
  }

  function Texts(ids: seq<seq<byte>>): (texts: seq<Id>)
    requires forall i | 0 <= i < |ids| :: |ids[i]| == 16
    ensures |texts| == |ids| && forall i | 0 <= i < |ids| :: texts[i] == TextOf(ids[i])
  {
    if ids == [] then [] else [TextOf(ids[0])] + Texts(ids[1..])
  }

  /** Generated identifiers increase strictly over every run, whatever the clock does. */
  lemma {:induction false} RunIncreases(ids: seq<seq<byte>>, clock: seq<nat>)
    requires IsRun(ids, clock) && InRange(ids, clock)
    ensures Increasing(Texts(ids))
  {
    hide TextOf, Number, Versioned, Succeeds, NextStamp, Less;
    forall i, j | 0 <= i < j < |ids| ensures Less(Texts(ids)[i], Texts(ids)[j]) { LaterIsLarger(ids, clock, i, j); }
  }

  lemma {:induction false} LaterIsLarger(ids: seq<seq<byte>>, clock: seq<nat>, i: nat, j: nat)
    requires IsRun(ids, clock) && InRange(ids, clock) && i < j < |ids|
    ensures Less(TextOf(ids[i]), TextOf(ids[j]))
    decreases j
  {
    hide TextOf, Number, Versioned, Succeeds, NextStamp, Less;
    SuccessorIsLarger(ids[j - 1], clock[j], ids[j]);
    if i < j - 1 {
      LaterIsLarger(ids, clock, i, j - 1);
      LessIsTransitive(TextOf(ids[i]), TextOf(ids[j - 1]), TextOf(ids[j]));
    }
  }

  lemma LessIsTransitive(a: string, b: string, c: string)
    requires Less(a, b) && Less(b, c)
    ensures Less(a, c)
  {
    CompareTransitive(a, b, c);
  }

  /** The boundary: at the end of the 48-bit range the timestamp starts over. */
  lemma WrappedStampDecreases(last: seq<byte>, millis: nat, next: seq<byte>)
    requires |last| == |next| == 16 && Versioned(last) && Succeeds(last, millis, next)
    requires millis <= Stamp(last) && Payload(last) == ALL_ONES && Stamp(last) == TWO_48 - 1
    ensures NextStamp(last, millis) == TWO_48 && Less(TextOf(next), TextOf(last))
  {
    hide TextOf, Less, Versioned, Payload, Stamp;
    PayloadRange(next);
    NumberIs(last);
    NumberIs(next);
    TextOrderIsNumberOrder(next, last);
  }
}
