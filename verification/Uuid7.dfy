// The time-ordered row keys: the 128-bit layout of section 5.7 of RFC 9562, built
// with shifts and bitwise ors, and its 8-4-4-4-12 hexadecimal text.
module Uuid7 {
  import opened Arithmetic

  // ---------------------------------------------------------------------
  // Bit operations, bit by bit
  // ---------------------------------------------------------------------

  function Bit(x: int): nat {
    x % 2
  }

  // x & m. With floored halving this is two's complement for a negative x.
  function And(x: int, m: nat): nat
    decreases m
  {
    if m == 0 then 0
    else (if Bit(x) == 1 && Bit(m) == 1 then 1 else 0) + 2 * And(x / 2, m / 2)
  }

  function Or(x: nat, y: nat): nat {
    if x == 0 && y == 0 then 0
    else (if Bit(x) == 1 || Bit(y) == 1 then 1 else 0) + 2 * Or(x / 2, y / 2)
  }

  function Shl(x: nat, k: nat): (r: nat)
    ensures x > 0 ==> r > 0
  {
    if k == 0 then x else 2 * Shl(x, k - 1)
  }

  lemma {:induction false} ShlAdds(x: nat, j: nat, k: nat)
    ensures Shl(Shl(x, j), k) == Shl(x, j + k)
  {
    if k > 0 { ShlAdds(x, j, k - 1); }
  }

  lemma {:induction false} ShlIsProduct(x: nat, k: nat)
    ensures Shl(x, k) == x * Shl(1, k)
  {
    if k > 0 {
      ShlIsProduct(x, k - 1);
      assert 2 * (x * Shl(1, k - 1)) == x * (2 * Shl(1, k - 1));
    }
  }

  lemma MaskStep(x: int, p: nat)
    requires p >= 1
    ensures And(x, 2 * p - 1) == x % 2 + 2 * And(x / 2, p - 1)
  {
    assert Bit(2 * p - 1) == 1 && (2 * p - 1) / 2 == p - 1;
  }

  lemma RemainderStep(x: int, p: nat)
    requires p >= 1
    ensures x % (2 * p) == x % 2 + 2 * ((x / 2) % p)
  {
    var q, r := (x / 2) / p, (x / 2) % p;
    assert x == 2 * (x / 2) + x % 2;
    assert x / 2 == q * p + r;
    assert x == q * (2 * p) + (x % 2 + 2 * r) by {
      assert 2 * (q * p) == q * (2 * p);
    }
    DivisionUnique(x, 2 * p, q, x % 2 + 2 * r);
  }

  // A mask of k ones keeps the remainder modulo 2^k.
  lemma {:induction false} MaskIsRemainder(x: int, k: nat)
    ensures Shl(1, k) >= 1
    ensures And(x, Shl(1, k) - 1) == x % Shl(1, k)
    decreases k
  {
    if k > 0 {
      MaskIsRemainder(x / 2, k - 1);
      MaskStep(x, Shl(1, k - 1));
      RemainderStep(x, Shl(1, k - 1));
    }
  }

  lemma {:induction false} OrZero(x: nat)
    ensures Or(x, 0) == x
  {
    if x > 0 { OrZero(x / 2); }
  }

  // Fields that do not overlap: or is addition.
  lemma {:induction false} OrOfDisjoint(x: nat, k: nat, y: nat)
    requires y < Shl(1, k)
    ensures Or(Shl(x, k), y) == Shl(x, k) + y
  {
    if k == 0 {
      OrZero(x);
    } else {
      OrOfDisjoint(x, k - 1, y / 2);
    }
  }

  // ---------------------------------------------------------------------
  // The layout
  // ---------------------------------------------------------------------

  const TWO_12: nat := 0x1000
  const TWO_48: nat := 0x1_0000_0000_0000
  const TWO_62: nat := 0x4000_0000_0000_0000
  const TWO_64: nat := 0x1_0000_0000_0000_0000
  const TWO_76: nat := 0x1000_0000_0000_0000_0000
  const TWO_80: nat := 0x1_0000_0000_0000_0000_0000
  const TWO_128: nat := 0x1_0000_0000_0000_0000_0000_0000_0000_0000

  // The two random draws of `_uuid7`.
  datatype Draw = Draw(a: nat, b: nat) {
    predicate Valid() {
      a < TWO_12 && b < TWO_62
    }
  }

  const TIMESTAMP_BITS: nat := 48

  // Where the fields start.
  const TIMESTAMP_AT: nat := 80
  const VERSION_AT: nat := 76
  const RAND_A_AT: nat := 64
  const VARIANT_AT: nat := 62

  // The fields or-ed together, each shifted to its place.
  function Assemble(ts: nat, d: Draw, tsAt: nat, versionAt: nat, aAt: nat, variantAt: nat): nat {
    Or(Or(Or(Or(Shl(ts, tsAt), Shl(7, versionAt)), Shl(d.a, aAt)), Shl(2, variantAt)), d.b)
  }

  function Integer(timestampMs: int, d: Draw): nat {
    Assemble(And(timestampMs, Shl(1, TIMESTAMP_BITS) - 1), d, TIMESTAMP_AT, VERSION_AT, RAND_A_AT, VARIANT_AT)
  }

  // The same fields added up.
  function Sum(ts: nat, d: Draw): nat {
    ts * TWO_80 + 7 * TWO_76 + d.a * TWO_64 + 2 * TWO_62 + d.b
  }

  // The fields as a reader of section 5.7 of RFC 9562 extracts them.
  datatype Fields = Fields(timestamp: nat, version: nat, randA: nat, variant: nat, randB: nat)

  function Decode(u: nat): Fields {
    Fields(u / TWO_80, u / TWO_76 % 16, u / TWO_64 % TWO_12, u / TWO_62 % 4, u % TWO_62)
  }

  // 2^(j + k) from 2^j and 2^k.
  lemma PowerSum(j: nat, k: nat, p: nat, q: nat)
    requires Shl(1, j) == p && Shl(1, k) == q
    ensures Shl(1, j + k) == p * q
  {
    ShlAdds(1, j, k);
    ShlIsProduct(p, k);
  }

  lemma SmallPowers()
    ensures Shl(1, 0) == 1 && Shl(1, 2) == 4 && Shl(1, 4) == 16 && Shl(1, 12) == TWO_12
  {
    assert Shl(1, 1) == 2;
    assert Shl(1, 3) == 8;
    PowerSum(4, 4, 16, 16);
    PowerSum(8, 4, 256, 16);
  }

  lemma PowersOfTwo()
    ensures Shl(1, 12) == TWO_12 && Shl(1, 48) == TWO_48 && Shl(1, 62) == TWO_62
    ensures Shl(1, 64) == TWO_64 && Shl(1, 76) == TWO_76 && Shl(1, 80) == TWO_80
  {
    SmallPowers();
    PowerSum(12, 12, 0x1000, 0x1000);
    PowerSum(24, 24, 0x100_0000, 0x100_0000);
    PowerSum(48, 12, TWO_48, 0x1000);
    PowerSum(60, 2, 0x1000_0000_0000_0000, 4);
    PowerSum(62, 2, TWO_62, 4);
    PowerSum(64, 12, TWO_64, 0x1000);
    PowerSum(76, 4, TWO_76, 16);
  }

  lemma {:induction false} ShlSum(x: nat, y: nat, k: nat)
    ensures Shl(x + y, k) == Shl(x, k) + Shl(y, k)
  {
    if k > 0 { ShlSum(x, y, k - 1); }
  }

  lemma {:induction false} ShlMonotone(x: nat, y: nat, k: nat)
    requires x < y
    ensures Shl(x, k) < Shl(y, k)
  {
    if k > 0 { ShlMonotone(x, y, k - 1); }
  }

  lemma OrField(x: nat, k: nat, y: nat, j: nat)
    requires j <= k && y < Shl(1, k - j)
    ensures Or(Shl(x, k), Shl(y, j)) == Shl(Shl(x, k - j) + y, j)
  {
    ShlSum(Shl(x, k - j), y, j);
    ShlAdds(x, k - j, j);
    ShlMonotone(y, Shl(1, k - j), j);
    ShlAdds(1, k - j, j);
    OrOfDisjoint(x, k, Shl(y, j));
  }

  lemma MaskedTimestamp(timestampMs: int)
    ensures And(timestampMs, Shl(1, TIMESTAMP_BITS) - 1) == timestampMs % TWO_48
  {
    PowersOfTwo();
    MaskIsRemainder(timestampMs, 48);
  }

  function Nested(ts: nat, d: Draw, variantAt: nat): nat {
    Shl(Shl(Shl(Shl(ts, 4) + 7, 12) + d.a, 2) + 2, variantAt) + d.b
  }

  lemma AssembleIsNested(ts: nat, d: Draw, tsAt: nat, versionAt: nat, aAt: nat, variantAt: nat)
    requires tsAt == versionAt + 4 && versionAt == aAt + 12 && aAt == variantAt + 2
    requires d.a < Shl(1, 12) && d.b < Shl(1, variantAt)
    ensures Assemble(ts, d, tsAt, versionAt, aAt, variantAt) == Nested(ts, d, variantAt)
  {
    SmallPowers();
    var x1 := Shl(ts, 4) + 7;
    OrField(ts, tsAt, 7, versionAt);
    var x2 := Shl(x1, 12) + d.a;
    OrField(x1, versionAt, d.a, aAt);
    var x3 := Shl(x2, 2) + 2;
    OrField(x2, aAt, 2, variantAt);
    OrOfDisjoint(x3, variantAt, d.b);
  }

  lemma NestedIsSum(ts: nat, d: Draw)
    ensures Nested(ts, d, 62) == Sum(ts, d)
  {
    PowersOfTwo();
    SmallPowers();
    var x1 := Shl(ts, 4) + 7;
    var x2 := Shl(x1, 12) + d.a;
    var x3 := Shl(x2, 2) + 2;
    ShlIsProduct(ts, 4);
    ShlIsProduct(x1, 12);
    ShlIsProduct(x2, 2);
    ShlIsProduct(x3, 62);
  }

  lemma AssembleIsSum(ts: nat, d: Draw)
    requires d.Valid()
    ensures Assemble(ts, d, TIMESTAMP_AT, VERSION_AT, RAND_A_AT, VARIANT_AT) == Sum(ts, d)
  {
    PowersOfTwo();
    AssembleIsNested(ts, d, TIMESTAMP_AT, VERSION_AT, RAND_A_AT, VARIANT_AT);
    NestedIsSum(ts, d);
  }

  // The four ors are additions, for every timestamp (of either sign) and every draw.
  lemma IntegerIsSum(timestampMs: int, d: Draw)
    requires d.Valid()
    ensures Integer(timestampMs, d) == Sum(timestampMs % TWO_48, d)
  {
    var ts := And(timestampMs, Shl(1, TIMESTAMP_BITS) - 1);
    MaskedTimestamp(timestampMs);
    assert ts < TWO_48;
    AssembleIsSum(ts, d);
  }

  lemma DecodeSum(ts: nat, d: Draw)
    requires ts < TWO_48 && d.Valid()
    ensures Sum(ts, d) < TWO_128
    ensures Decode(Sum(ts, d)) == Fields(ts, 7, d.a, 2, d.b)
  {
    var u := Sum(ts, d);
    var v76 := ts * 16 + 7;
    var v64 := v76 * TWO_12 + d.a;
    var v62 := v64 * 4 + 2;
    DivisionUnique(u, TWO_80, ts, u - ts * TWO_80);
    DivisionUnique(u, TWO_76, v76, u - v76 * TWO_76);
    DivisionUnique(v76, 16, ts, 7);
    DivisionUnique(u, TWO_64, v64, u - v64 * TWO_64);
    DivisionUnique(v64, TWO_12, v76, d.a);
    DivisionUnique(u, TWO_62, v62, d.b);
    DivisionUnique(v62, 4, v64, 2);
  }

  // The key decodes to the timestamp modulo 2^48, version 7, variant 2 and the draws.
  lemma LayoutRoundTrip(timestampMs: int, d: Draw)
    requires d.Valid()
    ensures Integer(timestampMs, d) < TWO_128
    ensures Decode(Integer(timestampMs, d)) == Fields(timestampMs % TWO_48, 7, d.a, 2, d.b)
  {
    IntegerIsSum(timestampMs, d);
    DecodeSum(timestampMs % TWO_48, d);
  }

  lemma EarlierIsSmaller(t1: int, d1: Draw, t2: int, d2: Draw)
    requires d1.Valid() && d2.Valid()
    requires t1 % TWO_48 < t2 % TWO_48
    ensures Integer(t1, d1) < Integer(t2, d2)
  {
    IntegerIsSum(t1, d1);
    IntegerIsSum(t2, d2);
  }

  // ---------------------------------------------------------------------
  // The text
  // ---------------------------------------------------------------------

  function HexChar(d: nat): char
    requires d < 16
  {
    if d < 10 then (d + '0' as int) as char else (d - 10 + 'a' as int) as char
  }

  // The k low hexadecimal digits, most significant first: `'%032x' % n`, or
  // toString(16).padStart(32, "0"), when n has at most k digits.
  function Hex(n: nat, k: nat): (s: string)
    ensures |s| == k
  {
    if k == 0 then "" else Hex(n / 16, k - 1) + [HexChar(n % 16)]
  }

  function Hyphenate(h: string): (s: string)
    requires |h| == 32
    ensures |s| == 36
  {
    h[..8] + "-" + h[8..12] + "-" + h[12..16] + "-" + h[16..20] + "-" + h[20..]
  }

  function Text(u: nat): string {
    Hyphenate(Hex(u, 32))
  }

  function Generate(timestampMs: int, d: Draw): string {
    Text(Integer(timestampMs, d))
  }

  // Lexicographic order, which is how PostgreSQL orders the uuid column.
  predicate LexLess(s: string, t: string) {
    if s == "" || t == "" then s == "" && t != ""
    else s[0] < t[0] || (s[0] == t[0] && LexLess(s[1..], t[1..]))
  }

  lemma {:induction false} LexConcat(p: string, q: string, s: string, t: string)
    requires |p| == |q|
    ensures LexLess(p + s, q + t) <==> LexLess(p, q) || (p == q && LexLess(s, t))
  {
    if p == "" {
      assert p + s == s && q + t == t;
    } else {
      assert (p + s)[1..] == p[1..] + s && (q + t)[1..] == q[1..] + t;
      LexConcat(p[1..], q[1..], s, t);
      assert p == [p[0]] + p[1..] && q == [q[0]] + q[1..];
    }
  }

  function HexBound(k: nat): (b: nat)
    ensures b >= 1
  {
    if k == 0 then 1 else 16 * HexBound(k - 1)
  }

  lemma ConcatEqual(p: string, q: string, s: string, t: string)
    requires |p| == |q|
    ensures p + s == q + t <==> p == q && s == t
  {
    if p + s == q + t {
      assert (p + s)[..|p|] == p && (q + t)[..|p|] == q;
      assert (p + s)[|p|..] == s && (q + t)[|p|..] == t;
    }
  }

  lemma {:induction false} HexOrder(m: nat, n: nat, k: nat)
    requires m < HexBound(k) && n < HexBound(k)
    ensures LexLess(Hex(m, k), Hex(n, k)) <==> m < n
    ensures Hex(m, k) == Hex(n, k) <==> m == n
  {
    if k > 0 {
      HexOrder(m / 16, n / 16, k - 1);
      var a, b := [HexChar(m % 16)], [HexChar(n % 16)];
      assert LexLess(a, b) <==> m % 16 < n % 16;
      LexConcat(Hex(m / 16, k - 1), Hex(n / 16, k - 1), a, b);
      ConcatEqual(Hex(m / 16, k - 1), Hex(n / 16, k - 1), a, b);
    }
  }

  // One hyphen in the same place on both sides changes neither order nor equality.
  lemma HyphenOrder(p: string, q: string, s: string, t: string)
    requires |p| == |q|
    ensures LexLess(p + "-" + s, q + "-" + t) <==> LexLess(p + s, q + t)
    ensures p + "-" + s == q + "-" + t <==> p + s == q + t
  {
    LexConcat(p, q, s, t);
    LexConcat(p + "-", q + "-", s, t);
    LexConcat(p, q, "-", "-");
    ConcatEqual(p, q, s, t);
    ConcatEqual(p, q, "-", "-");
    ConcatEqual(p + "-", q + "-", s, t);
  }

  // The text cut at the given offset, with a hyphen there.
  function Cut(h: string, k: nat): (s: string)
    requires k <= |h|
  {
    h[..k] + "-" + h[k..]
  }

  lemma CutJoins(h: string, k: nat)
    requires k <= |h|
    ensures h[..k] + h[k..] == h
  {
  }

  lemma CutOrder(g: string, h: string, k: nat)
    requires k <= |g| == |h|
    ensures LexLess(Cut(g, k), Cut(h, k)) <==> LexLess(g, h)
    ensures Cut(g, k) == Cut(h, k) <==> g == h
  {
    CutJoins(g, k);
    CutJoins(h, k);
    HyphenOrder(g[..k], h[..k], g[k..], h[k..]);
  }

  lemma HyphenateIsCuts(h: string)
    requires |h| == 32
    ensures Hyphenate(h) == Cut(Cut(Cut(Cut(h, 20), 16), 12), 8)
  {
    var c1 := Cut(h, 20);
    var c2 := Cut(c1, 16);
    assert c2 == h[..16] + "-" + h[16..20] + "-" + h[20..];
    var c3 := Cut(c2, 12);
    assert c3 == h[..12] + "-" + h[12..16] + "-" + h[16..20] + "-" + h[20..];
    assert Cut(c3, 8) == Hyphenate(h);
  }

  lemma HyphenateOrder(g: string, h: string)
    requires |g| == |h| == 32
    ensures LexLess(Hyphenate(g), Hyphenate(h)) <==> LexLess(g, h)
    ensures Hyphenate(g) == Hyphenate(h) <==> g == h
  {
    HyphenateIsCuts(g);
    HyphenateIsCuts(h);
    CutOrder(g, h, 20);
    CutOrder(Cut(g, 20), Cut(h, 20), 16);
    CutOrder(Cut(Cut(g, 20), 16), Cut(Cut(h, 20), 16), 12);
    CutOrder(Cut(Cut(Cut(g, 20), 16), 12), Cut(Cut(Cut(h, 20), 16), 12), 8);
  }

  lemma HexBound32()
    ensures HexBound(32) == TWO_128
  {
    assert HexBound(8) == 0x1_0000_0000;
    assert HexBound(16) == TWO_64;
    assert HexBound(24) == 0x1_0000_0000 * TWO_64;
  }

  // Text order is integer order, and distinct integers have distinct texts.
  lemma TextOrder(u: nat, v: nat)
    requires u < TWO_128 && v < TWO_128
    ensures LexLess(Text(u), Text(v)) <==> u < v
    ensures Text(u) == Text(v) <==> u == v
  {
    HexBound32();
    HexOrder(u, v, 32);
    HyphenateOrder(Hex(u, 32), Hex(v, 32));
  }

  // Keys generated for different milliseconds of one 2^48 window sort by time.
  lemma KeysSortByTime(t1: int, d1: Draw, t2: int, d2: Draw)
    requires d1.Valid() && d2.Valid()
    requires t1 / TWO_48 == t2 / TWO_48 && t1 < t2
    ensures LexLess(Generate(t1, d1), Generate(t2, d2))
  {
    EarlierIsSmaller(t1, d1, t2, d2);
    LayoutRoundTrip(t1, d1);
    LayoutRoundTrip(t2, d2);
    TextOrder(Integer(t1, d1), Integer(t2, d2));
  }

  // Two generated keys coincide only if the whole timestamp field and both draws do.
  lemma KeysCollideOnlyOnEqualFields(t1: int, d1: Draw, t2: int, d2: Draw)
    requires d1.Valid() && d2.Valid()
    ensures Generate(t1, d1) == Generate(t2, d2) <==> t1 % TWO_48 == t2 % TWO_48 && d1 == d2
  {
    LayoutRoundTrip(t1, d1);
    LayoutRoundTrip(t2, d2);
    IntegerIsSum(t1, d1);
    IntegerIsSum(t2, d2);
    TextOrder(Integer(t1, d1), Integer(t2, d2));
  }
}
