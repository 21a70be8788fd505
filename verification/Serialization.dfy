/** The big-endian, self-delimiting byte format of canonical geometries, and a
    decoder for it.

        bytes        = 0x02, type tag, body
        ring         = int4 count, then count times (int8 x, int8 y)
        Polygon      = int4 count, then the rings, exterior first
        MultiPolygon = int4 count, then the polygon bodies
        MultiPoint   = int4 count, then count times (int8 x, int8 y)
        Point        = int8 x, int8 y
  */
module Serialization {
  import opened Orders
  import opened Rings

  type byte = b: int | 0 <= b < 256
  type bytes = seq<byte>

  predicate ByteLe(a: byte, b: byte) {
    a <= b
  }

  /** memcmp order, which is also the order of Python bytes objects. */
  predicate BytesLe(a: bytes, b: bytes) {
    LexLe(ByteLe, a, b)
  }

  lemma BytesOrder()
    ensures TotalOrder(BytesLe)
  {
    assert TotalOrder(ByteLe);
    forall a: bytes, b: bytes
      ensures BytesLe(a, b) || BytesLe(b, a)
      ensures BytesLe(a, b) && BytesLe(b, a) ==> a == b
    {
      LexTotal(ByteLe, a, b);
    }
    forall a: bytes, b: bytes, c: bytes | BytesLe(a, b) && BytesLe(b, c)
      ensures BytesLe(a, c)
    {
      LexTransitive(ByteLe, a, b, c);
    }
  }

  predicate SmallerAt(a: bytes, b: bytes, k: nat) {
    k < |a| && k < |b| && a[k] < b[k] && forall i :: 0 <= i < k ==> a[i] == b[i]
  }

  /** Smaller at the first byte where they differ. */
  ghost predicate Before(a: bytes, b: bytes) {
    exists k: nat :: SmallerAt(a, b, k)
  }

  /** That is, strictly smaller in the order of byte strings. */
  lemma BeforeIsByteOrder(a: bytes, b: bytes)
    requires Before(a, b)
    ensures BytesLe(a, b) && !BytesLe(b, a)
  {
    var k: nat :| SmallerAt(a, b, k);
    assert TotalOrder(ByteLe);
    LexFirstDifference(ByteLe, a, b, k);
    LexFirstDifference(ByteLe, b, a, k);
  }

  /** Byte strings compare at the first byte where they differ; a prefix comes
      first. */
  lemma {:induction false} BytesLeExactly(a: bytes, b: bytes)
    ensures BytesLe(a, b) <==> a <= b || Before(a, b)
  {
    if a != [] && b != [] && a[0] == b[0] {
      BytesLeExactly(a[1..], b[1..]);
      assert a == [a[0]] + a[1..] && b == [b[0]] + b[1..];
      if k: nat :| SmallerAt(a[1..], b[1..], k) {
        assert SmallerAt([a[0]] + a[1..], [b[0]] + b[1..], k + 1);
      }
      if k: nat :| SmallerAt(a, b, k) {
        assert SmallerAt(a[1..], b[1..], k - 1);
      }
    } else if a != [] && b != [] {
      assert a[0] < b[0] ==> SmallerAt(a, b, 0);
      if k: nat :| SmallerAt(a, b, k) {
        assert k == 0;
      }
    }
  }

  // ---- Fixed-width integers

  function Pow256(w: nat): nat {
    if w == 0 then 1 else 256 * Pow256(w - 1)
  }

  function BigEndian(w: nat, n: nat): (r: bytes)
    ensures |r| == w
  {
    if w == 0 then [] else BigEndian(w - 1, n / 256) + [n % 256]
  }

  function Number(b: bytes): nat {
    if b == [] then 0 else 256 * Number(b[..|b| - 1]) + b[|b| - 1]
  }

  lemma {:induction false} NumberOfBigEndian(w: nat, n: nat)
    requires n < Pow256(w)
    ensures Number(BigEndian(w, n)) == n
  {
    if w > 0 {
      var b := BigEndian(w, n);
      assert b[..|b| - 1] == BigEndian(w - 1, n / 256);
      NumberOfBigEndian(w - 1, n / 256);
    }
  }

  lemma {:induction false} BigEndianOfNumber(b: bytes)
    ensures Number(b) < Pow256(|b|)
    ensures BigEndian(|b|, Number(b)) == b
  {
    if b != [] {
      BigEndianOfNumber(b[..|b| - 1]);
      assert b == b[..|b| - 1] + [b[|b| - 1]];
    }
  }

  const INT4_MAX: int := 0x7FFF_FFFF
  const INT8_MIN: int := -0x8000_0000_0000_0000
  const INT8_MAX: int := 0x7FFF_FFFF_FFFF_FFFF
  const TWO_64: int := 0x1_0000_0000_0000_0000

  lemma Widths()
    ensures Pow256(4) == INT4_MAX + 1 + INT4_MAX + 1 && Pow256(8) == TWO_64
  {
    assert Pow256(1) == 256 && Pow256(2) == 65536 && Pow256(3) == 16777216;
    assert Pow256(4) == 4294967296;
    assert Pow256(5) == 256 * Pow256(4) && Pow256(6) == 256 * Pow256(5) && Pow256(7) == 256 * Pow256(6);
  }

  /** struct '>i' / int4send of a count. */
  function Int4(n: nat): (r: bytes)
    ensures |r| == 4
  {
    BigEndian(4, n)
  }

  /** struct '>q' / int8send: two's complement. */
  function Int8(x: int): (r: bytes)
    requires INT8_MIN <= x <= INT8_MAX
    ensures |r| == 8
  {
    BigEndian(8, if x < 0 then x + TWO_64 else x)
  }

  function SignedNumber(b: bytes): int
    requires |b| == 8
  {
    if Number(b) > INT8_MAX then Number(b) - TWO_64 else Number(b)
  }

  lemma Int8RoundTrip(x: int, b: bytes)
    requires INT8_MIN <= x <= INT8_MAX && |b| == 8
    ensures SignedNumber(Int8(x)) == x
    ensures INT8_MIN <= SignedNumber(b) <= INT8_MAX && Int8(SignedNumber(b)) == b
  {
    Widths();
    NumberOfBigEndian(8, if x < 0 then x + TWO_64 else x);
    BigEndianOfNumber(b);
  }

  /** Two's complement, most significant byte first. */
  lemma TwosComplement(x: int)
    requires INT8_MIN <= x <= INT8_MAX
    ensures Number(Int8(x)) == if x < 0 then x + 0x1_0000_0000_0000_0000 else x
  {
    Widths();
    NumberOfBigEndian(8, if x < 0 then x + TWO_64 else x);
  }

  // ---- Encoding

  predicate PackablePoint(p: Point) {
    INT8_MIN <= p.x <= INT8_MAX && INT8_MIN <= p.y <= INT8_MAX
  }

  predicate PackablePoints(ps: seq<Point>) {
    |ps| <= INT4_MAX && forall p :: p in ps ==> PackablePoint(p)
  }

  function PointBytes(p: Point): (r: bytes)
    requires PackablePoint(p)
    ensures |r| == 16
  {
    Int8(p.x) + Int8(p.y)
  }

  function PointsBytes(ps: seq<Point>): bytes
    requires forall p :: p in ps ==> PackablePoint(p)
  {
    if ps == [] then [] else PointBytes(ps[0]) + PointsBytes(ps[1..])
  }

  /** A ring, or the members of a MultiPoint: a count, then the points. */
  function RingBytes(ps: seq<Point>): bytes
    requires PackablePoints(ps)
  {
    Int4(|ps|) + PointsBytes(ps)
  }

  function Flatten(pieces: seq<bytes>): bytes {
    if pieces == [] then [] else pieces[0] + Flatten(pieces[1..])
  }

  predicate PackablePolygon(rings: seq<Cycle>) {
    |rings| <= INT4_MAX && forall r :: r in rings ==> PackablePoints(r)
  }

  function RingsBytes(rings: seq<Cycle>): bytes
    requires forall r :: r in rings ==> PackablePoints(r)
  {
    if rings == [] then [] else RingBytes(rings[0]) + RingsBytes(rings[1..])
  }

  function PolygonBytes(rings: seq<Cycle>): bytes
    requires PackablePolygon(rings)
  {
    Int4(|rings|) + RingsBytes(rings)
  }

  function PolygonsBytes(parts: seq<seq<Cycle>>): bytes
    requires forall q :: q in parts ==> PackablePolygon(q)
  {
    if parts == [] then [] else PolygonBytes(parts[0]) + PolygonsBytes(parts[1..])
  }

  /** A geometry whose coordinates are lattice points. */
  datatype Shape =
    | PointShape(point: Point)
    | MultiPointShape(points: seq<Point>)
    | PolygonShape(rings: seq<Cycle>)
    | MultiPolygonShape(parts: seq<seq<Cycle>>)

  const VERSION: byte := 2

  predicate Packable(s: Shape) {
    match s
    case PointShape(p) => PackablePoint(p)
    case MultiPointShape(ps) => PackablePoints(ps)
    case PolygonShape(rings) => PackablePolygon(rings)
    case MultiPolygonShape(parts) => |parts| <= INT4_MAX && forall q :: q in parts ==> PackablePolygon(q)
  }

  function Encode(s: Shape): bytes
    requires Packable(s)
  {
    match s
    case PointShape(p) => [VERSION, 1] + PointBytes(p)
    case MultiPointShape(ps) => [VERSION, 2] + RingBytes(ps)
    case PolygonShape(rings) => [VERSION, 3] + PolygonBytes(rings)
    case MultiPolygonShape(parts) => [VERSION, 4] + (Int4(|parts|) + PolygonsBytes(parts))
  }

  // ---- Decoding

  datatype Read<T> = Bad | Got(value: T, rest: bytes)

  function ReadCount(b: bytes): Read<nat> {
    if |b| < 4 || Number(b[..4]) > INT4_MAX then Bad else Got(Number(b[..4]), b[4..])
  }

  function ReadPoint(b: bytes): Read<Point> {
    if |b| < 16 then Bad
    else Got(Point(SignedNumber(b[..8]), SignedNumber(b[8..16])), b[16..])
  }

  function ReadPoints(n: nat, b: bytes): Read<seq<Point>> {
    if n == 0 then Got([], b)
    else match ReadPoint(b)
      case Bad => Bad
      case Got(p, b') =>
        match ReadPoints(n - 1, b')
        case Bad => Bad
        case Got(ps, rest) => Got([p] + ps, rest)
  }

  function ReadRing(b: bytes): Read<seq<Point>> {
    match ReadCount(b)
    case Bad => Bad
    case Got(n, b') => ReadPoints(n, b')
  }

  function ReadRings(n: nat, b: bytes): Read<seq<Cycle>> {
    if n == 0 then Got([], b)
    else match ReadRing(b)
      case Bad => Bad
      case Got(r, b') =>
        match ReadRings(n - 1, b')
        case Bad => Bad
        case Got(rs, rest) => Got([r] + rs, rest)
  }

  function ReadPolygon(b: bytes): Read<seq<Cycle>> {
    match ReadCount(b)
    case Bad => Bad
    case Got(n, b') => ReadRings(n, b')
  }

  function ReadPolygons(n: nat, b: bytes): Read<seq<seq<Cycle>>> {
    if n == 0 then Got([], b)
    else match ReadPolygon(b)
      case Bad => Bad
      case Got(q, b') =>
        match ReadPolygons(n - 1, b')
        case Bad => Bad
        case Got(qs, rest) => Got([q] + qs, rest)
  }

  function ReadMultiPolygon(b: bytes): Read<seq<seq<Cycle>>> {
    match ReadCount(b)
    case Bad => Bad
    case Got(n, b') => ReadPolygons(n, b')
  }

  datatype Decoded = Undecodable | Decoded(shape: Shape)

  /** Reads a whole byte string; leftover bytes are an error. */
  function Decode(b: bytes): Decoded {
    if |b| < 2 || b[0] != VERSION then Undecodable else DecodeBody(b[1], b[2..])
  }

  function DecodeBody(tag: byte, body: bytes): Decoded {
    if tag == 1 then
      match ReadPoint(body)
      case Bad => Undecodable
      case Got(p, rest) => if rest == [] then Decoded(PointShape(p)) else Undecodable
    else if tag == 2 then
      match ReadRing(body)
      case Bad => Undecodable
      case Got(ps, rest) => if rest == [] then Decoded(MultiPointShape(ps)) else Undecodable
    else if tag == 3 then
      match ReadPolygon(body)
      case Bad => Undecodable
      case Got(rs, rest) => if rest == [] then Decoded(PolygonShape(rs)) else Undecodable
    else if tag == 4 then
      match ReadMultiPolygon(body)
      case Bad => Undecodable
      case Got(qs, rest) => if rest == [] then Decoded(MultiPolygonShape(qs)) else Undecodable
    else Undecodable
  }

  // ---- Decoding undoes encoding

  lemma ReadCountOf(n: nat, rest: bytes)
    requires n <= INT4_MAX
    ensures ReadCount(Int4(n) + rest) == Got(n, rest)
  {
    Widths();
    NumberOfBigEndian(4, n);
    var b := Int4(n) + rest;
    assert b[..4] == Int4(n) && b[4..] == rest;
  }

  lemma ReadPointOf(p: Point, rest: bytes)
    requires PackablePoint(p)
    ensures ReadPoint(PointBytes(p) + rest) == Got(p, rest)
  {
    var b := PointBytes(p) + rest;
    assert b[..8] == Int8(p.x) && b[8..16] == Int8(p.y) && b[16..] == rest;
    Int8RoundTrip(p.x, Int8(p.x));
    Int8RoundTrip(p.y, Int8(p.y));
  }

  lemma {:induction false} ReadPointsOf(ps: seq<Point>, rest: bytes)
    requires forall p :: p in ps ==> PackablePoint(p)
    ensures ReadPoints(|ps|, PointsBytes(ps) + rest) == Got(ps, rest)
  {
    if ps == [] {
      assert PointsBytes(ps) + rest == rest;
    } else {
      var tail := PointsBytes(ps[1..]) + rest;
      Assoc(PointBytes(ps[0]), PointsBytes(ps[1..]), rest);
      ReadPointOf(ps[0], tail);
      ReadPointsOf(ps[1..], rest);
      assert ps == [ps[0]] + ps[1..];
    }
  }

  /** Rings are self-delimiting. */
  lemma ReadRingOf(ps: seq<Point>, rest: bytes)
    requires PackablePoints(ps)
    ensures ReadRing(RingBytes(ps) + rest) == Got(ps, rest)
  {
    Assoc(Int4(|ps|), PointsBytes(ps), rest);
    ReadCountOf(|ps|, PointsBytes(ps) + rest);
    ReadPointsOf(ps, rest);
  }

  lemma {:induction false} ReadRingsOf(rings: seq<Cycle>, rest: bytes)
    requires forall r :: r in rings ==> PackablePoints(r)
    ensures ReadRings(|rings|, RingsBytes(rings) + rest) == Got(rings, rest)
  {
    if rings == [] {
      assert RingsBytes(rings) + rest == rest;
    } else {
      var tail := RingsBytes(rings[1..]) + rest;
      Assoc(RingBytes(rings[0]), RingsBytes(rings[1..]), rest);
      ReadRingOf(rings[0], tail);
      ReadRingsOf(rings[1..], rest);
      assert rings == [rings[0]] + rings[1..];
    }
  }

  /** Polygon bodies are self-delimiting. */
  lemma ReadPolygonOf(rings: seq<Cycle>, rest: bytes)
    requires PackablePolygon(rings)
    ensures ReadPolygon(PolygonBytes(rings) + rest) == Got(rings, rest)
  {
    Assoc(Int4(|rings|), RingsBytes(rings), rest);
    ReadCountOf(|rings|, RingsBytes(rings) + rest);
    ReadRingsOf(rings, rest);
  }

  lemma {:induction false} ReadPolygonsOf(parts: seq<seq<Cycle>>, rest: bytes)
    requires forall q :: q in parts ==> PackablePolygon(q)
    ensures ReadPolygons(|parts|, PolygonsBytes(parts) + rest) == Got(parts, rest)
  {
    if parts == [] {
      assert PolygonsBytes(parts) + rest == rest;
    } else {
      var tail := PolygonsBytes(parts[1..]) + rest;
      Assoc(PolygonBytes(parts[0]), PolygonsBytes(parts[1..]), rest);
      ReadPolygonOf(parts[0], tail);
      ReadPolygonsOf(parts[1..], rest);
      assert parts == [parts[0]] + parts[1..];
    }
  }

  lemma DecodeTagged(tag: byte, body: bytes)
    ensures Decode([VERSION, tag] + body) == DecodeBody(tag, body)
    ensures body + [] == body
  {
    assert ([VERSION, tag] + body)[2..] == body;
  }

  lemma ReadMultiPolygonOf(parts: seq<seq<Cycle>>, rest: bytes)
    requires |parts| <= INT4_MAX && forall q :: q in parts ==> PackablePolygon(q)
    ensures ReadMultiPolygon((Int4(|parts|) + PolygonsBytes(parts)) + rest) == Got(parts, rest)
  {
    Assoc(Int4(|parts|), PolygonsBytes(parts), rest);
    ReadCountOf(|parts|, PolygonsBytes(parts) + rest);
    ReadPolygonsOf(parts, rest);
  }

  /** Decoding undoes encoding, consuming every byte. */
  lemma DecodeEncode(s: Shape)
    requires Packable(s)
    ensures Decode(Encode(s)) == Decoded(s)
  {
    match s
    case PointShape(p) =>
      DecodeTagged(1, PointBytes(p));
      ReadPointOf(p, []);
    case MultiPointShape(ps) =>
      DecodeTagged(2, RingBytes(ps));
      ReadRingOf(ps, []);
    case PolygonShape(rings) =>
      DecodeTagged(3, PolygonBytes(rings));
      ReadPolygonOf(rings, []);
    case MultiPolygonShape(parts) =>
      DecodeTagged(4, Int4(|parts|) + PolygonsBytes(parts));
      ReadMultiPolygonOf(parts, []);
  }

  // ---- Encoding undoes decoding

  lemma CountOfRead(b: bytes)
    requires ReadCount(b).Got?
    ensures ReadCount(b).value <= INT4_MAX && b == Int4(ReadCount(b).value) + ReadCount(b).rest
  {
    BigEndianOfNumber(b[..4]);
    assert b == b[..4] + b[4..];
  }

  lemma PointOfRead(b: bytes)
    requires ReadPoint(b).Got?
    ensures PackablePoint(ReadPoint(b).value)
    ensures b == PointBytes(ReadPoint(b).value) + ReadPoint(b).rest
  {
    Int8RoundTrip(0, b[..8]);
    Int8RoundTrip(0, b[8..16]);
    assert b == b[..8] + b[8..16] + b[16..];
  }

  lemma {:induction false} PointsOfRead(n: nat, b: bytes)
    requires ReadPoints(n, b).Got?
    ensures var r := ReadPoints(n, b);
            && |r.value| == n && (forall p :: p in r.value ==> PackablePoint(p))
            && b == PointsBytes(r.value) + r.rest
    decreases n
  {
    if n > 0 {
      var p, b' := ReadPoint(b).value, ReadPoint(b).rest;
      PointOfRead(b);
      PointsOfRead(n - 1, b');
      var ps, r := ReadPoints(n, b).value, ReadPoints(n, b).rest;
      assert ps[1..] == ReadPoints(n - 1, b').value;
      Assoc(PointBytes(p), PointsBytes(ps[1..]), r);
    }
  }

  lemma RingOfRead(b: bytes)
    requires ReadRing(b).Got?
    ensures PackablePoints(ReadRing(b).value)
    ensures b == RingBytes(ReadRing(b).value) + ReadRing(b).rest
  {
    CountOfRead(b);
    PointsOfRead(ReadCount(b).value, ReadCount(b).rest);
    Assoc(Int4(ReadCount(b).value), PointsBytes(ReadRing(b).value), ReadRing(b).rest);
  }

  lemma {:induction false} RingsOfRead(n: nat, b: bytes)
    requires ReadRings(n, b).Got?
    ensures var r := ReadRings(n, b);
            && |r.value| == n && (forall c :: c in r.value ==> PackablePoints(c))
            && b == RingsBytes(r.value) + r.rest
    decreases n
  {
    if n > 0 {
      var c, b' := ReadRing(b).value, ReadRing(b).rest;
      RingOfRead(b);
      RingsOfRead(n - 1, b');
      var cs, r := ReadRings(n, b).value, ReadRings(n, b).rest;
      assert cs[1..] == ReadRings(n - 1, b').value;
      Assoc(RingBytes(c), RingsBytes(cs[1..]), r);
    }
  }

  lemma PolygonOfRead(b: bytes)
    requires ReadPolygon(b).Got?
    ensures PackablePolygon(ReadPolygon(b).value)
    ensures b == PolygonBytes(ReadPolygon(b).value) + ReadPolygon(b).rest
  {
    CountOfRead(b);
    RingsOfRead(ReadCount(b).value, ReadCount(b).rest);
    Assoc(Int4(ReadCount(b).value), RingsBytes(ReadPolygon(b).value), ReadPolygon(b).rest);
  }

  lemma {:induction false} PolygonsOfRead(n: nat, b: bytes)
    requires ReadPolygons(n, b).Got?
    ensures var r := ReadPolygons(n, b);
            && |r.value| == n && (forall q :: q in r.value ==> PackablePolygon(q))
            && b == PolygonsBytes(r.value) + r.rest
    decreases n
  {
    if n > 0 {
      var q, b' := ReadPolygon(b).value, ReadPolygon(b).rest;
      PolygonOfRead(b);
      PolygonsOfRead(n - 1, b');
      var qs, r := ReadPolygons(n, b).value, ReadPolygons(n, b).rest;
      assert qs[1..] == ReadPolygons(n - 1, b').value;
      Assoc(PolygonBytes(q), PolygonsBytes(qs[1..]), r);
    }
  }

  /** Only encodings decode: every string the decoder accepts is the encoding of
      what it returns. */
  lemma EncodeDecode(b: bytes)
    requires Decode(b).Decoded?
    ensures Packable(Decode(b).shape) && Encode(Decode(b).shape) == b
  {
    var body := b[2..];
    assert b == [VERSION, b[1]] + body;
    if b[1] == 1 {
      PointOfRead(body);
    } else if b[1] == 2 {
      RingOfRead(body);
    } else if b[1] == 3 {
      PolygonOfRead(body);
    } else {
      CountOfRead(body);
      PolygonsOfRead(ReadCount(body).value, ReadCount(body).rest);
    }
  }
}
