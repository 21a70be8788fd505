/** Identifiers: the content-addressed UUIDv8 geoid stamped from a geometry hash,
    and the monotonic UUIDv7 generator for infrastructure rows.
  */
module Identifiers {
  import opened Orders
  import opened Serialization

  type Uuid = bytes

  type CollectionId = Uuid

  // ---- Bit operations on bytes

  /** `(b & 0x0F) | 0x80` and `(b & 0x3F) | 0x80`, in arithmetic. */
  lemma StampedBits(b: bv8)
    ensures (b & 0x0F) | 0x80 == (b % 16) + 128
    ensures (b & 0x3F) | 0x80 == (b % 64) + 128
  {
  }

  /** `0x70 | v` for a nibble and `0x80 | (v & 0x3F)`, in arithmetic. */
  lemma FieldBits(v: bv8)
    ensures v < 16 ==> 0x70 | v == 0x70 + v
    ensures 0x80 | (v & 0x3F) == 0x80 + (v % 64)
  {
  }

  // ---- UUIDv8: the geoid

  function Stamp(hash: bytes): (r: Uuid)
    requires |hash| >= 16
    ensures |r| == 16
  {
    hash[..6] + [hash[6] % 16 + 128] + [hash[7]] + [hash[8] % 64 + 128] + hash[9..16]
  }

  datatype GeoidResult = Geoid(id: Uuid) | TooShort(length: nat)

  /** `geoid_from_geom_hash`: stamps version and variant in place. */
  method GeoidFromGeomHash(hash: bytes) returns (r: GeoidResult)
    ensures |hash| < 16 ==> r == TooShort(|hash|)
    ensures |hash| >= 16 ==> r == Geoid(Stamp(hash))
  {
    if |hash| < 16 {
      return TooShort(|hash|);
    }
    var raw := new byte[16](i requires 0 <= i < 16 => hash[i]);
    raw[6] := raw[6] % 16 + 128;
    raw[8] := raw[8] % 64 + 128;
    assert raw[..] == Stamp(hash);
    return Geoid(raw[..]);
  }

  /** The 122 bits of a digest that survive the stamp. */
  ghost predicate Same122Bits(a: bytes, b: bytes)
    requires |a| >= 16 && |b| >= 16
  {
    && (forall i :: 0 <= i < 16 && i != 6 && i != 8 ==> a[i] == b[i])
    && a[6] % 16 == b[6] % 16
    && a[8] % 64 == b[8] % 64
  }

  /** The geoid has version 8 and the RFC 4122 variant, and identifies exactly 122
      bits of the hash. */
  lemma StampKeeps122Bits(a: bytes, b: bytes)
    requires |a| >= 16 && |b| >= 16
    ensures Stamp(a)[6] / 16 == 8 && Stamp(a)[8] / 64 == 2
    ensures Same122Bits(Stamp(a), a)
    ensures Stamp(a) == Stamp(b) <==> Same122Bits(a, b)
  {
    StampIndex(a);
    StampIndex(b);
    if Stamp(a) == Stamp(b) {
      forall i | 0 <= i < 16 && i != 6 && i != 8 ensures a[i] == b[i] {
        assert Stamp(a)[i] == Stamp(b)[i];
      }
      assert Stamp(a)[6] == Stamp(b)[6] && Stamp(a)[8] == Stamp(b)[8];
    }
  }

  lemma StampIndex(a: bytes)
    requires |a| >= 16
    ensures forall i :: 0 <= i < 16 ==>
      Stamp(a)[i] == if i == 6 then a[6] % 16 + 128 else if i == 8 then a[8] % 64 + 128 else a[i]
  {
  }

  // ---- UUIDv7: byte layout

  const TWO_48: int := 0x1_0000_0000_0000
  const TWO_62: int := 0x4000_0000_0000_0000
  const COUNTER_MAX: int := 0xFFF

  /** The layout of RFC 9562 section 5.7: 48-bit time, version 7 with 12 bits,
      variant 10 with 62 bits. */
  function Layout(time: nat, a: nat, b: nat): (r: Uuid)
    ensures |r| == 16
  {
    BigEndian(6, time) + BigEndian(2, 0x7000 + a) + BigEndian(8, 0x8000_0000_0000_0000 + b)
  }

  /** Each value masked to the width of its field. */
  function Assemble(ms: nat, randA: nat, randB: nat): (r: Uuid)
    ensures |r| == 16
  {
    Layout(ms % TWO_48, randA % 4096, randB % TWO_62)
  }

  /** Shifting right by eight bits at a time. */
  lemma Shifts(n: nat)
    ensures n / 0x1_0000 == n / 0x100 / 0x100
    ensures n / 0x100_0000 == n / 0x1_0000 / 0x100
    ensures n / 0x1_0000_0000 == n / 0x100_0000 / 0x100
    ensures n / 0x100_0000_0000 == n / 0x1_0000_0000 / 0x100
    ensures n / 0x1_0000_0000_0000 == n / 0x100_0000_0000 / 0x100
    ensures n / 0x100_0000_0000_0000 == n / 0x1_0000_0000_0000 / 0x100
  {
  }

  lemma LastByte(w: nat, n: nat, shorter: bytes)
    requires w > 0 && BigEndian(w - 1, n / 0x100) == shorter
    ensures BigEndian(w, n) == shorter + [n % 0x100]
  {
  }

  lemma TwoBytes(n: nat)
    ensures BigEndian(2, n) == [n / 0x100 % 0x100, n % 0x100]
  {
    LastByte(1, n / 0x100, []);
    LastByte(2, n, [n / 0x100 % 0x100]);
  }

  lemma SixBytes(n: nat)
    ensures BigEndian(6, n) == [n / 0x100_0000_0000 % 0x100, n / 0x1_0000_0000 % 0x100, n / 0x100_0000 % 0x100,
                                n / 0x1_0000 % 0x100, n / 0x100 % 0x100, n % 0x100]
  {
    Shifts(n);
    TwoBytes(n / 0x1_0000_0000);
    var b2 := [n / 0x100_0000_0000 % 0x100, n / 0x1_0000_0000 % 0x100];
    LastByte(3, n / 0x100_0000, b2);
    LastByte(4, n / 0x1_0000, b2 + [n / 0x100_0000 % 0x100]);
    LastByte(5, n / 0x100, b2 + [n / 0x100_0000 % 0x100] + [n / 0x1_0000 % 0x100]);
    LastByte(6, n, b2 + [n / 0x100_0000 % 0x100] + [n / 0x1_0000 % 0x100] + [n / 0x100 % 0x100]);
  }

  lemma EightBytes(n: nat)
    ensures BigEndian(8, n) == [n / 0x100_0000_0000_0000 % 0x100, n / 0x1_0000_0000_0000 % 0x100,
                                n / 0x100_0000_0000 % 0x100, n / 0x1_0000_0000 % 0x100, n / 0x100_0000 % 0x100,
                                n / 0x1_0000 % 0x100, n / 0x100 % 0x100, n % 0x100]
  {
    Shifts(n);
    Shifts(n / 0x1_0000);
    SixBytes(n / 0x1_0000);
    var b6 := BigEndian(6, n / 0x1_0000);
    LastByte(7, n / 0x100, b6);
    LastByte(8, n, b6 + [n / 0x100 % 0x100]);
  }

  /** `_assemble`: fills sixteen bytes with shifted and masked fields. */
  method AssembleInPlace(tsMs: nat, randA: nat, randB: nat) returns (id: Uuid)
    ensures id == Assemble(tsMs, randA, randB)
  {
    hide BigEndian;
    var b := new byte[16](_ => 0);
    FillTime(b, tsMs % TWO_48);
    FillVersion(b, randA % 4096);
    FillVariant(b, randB % TWO_62);
    ThreeFields(b[..]);
    return b[..];
  }

  lemma ThreeFields(b: bytes)
    requires |b| == 16
    ensures b == b[..6] + b[6..8] + b[8..]
  {
  }

  /** 48-bit timestamp, big-endian, bytes 0 to 5. */
  method FillTime(b: array<byte>, ts: nat)
    requires b.Length == 16
    modifies b
    ensures b[..6] == BigEndian(6, ts) && b[6..] == old(b[6..])
  {
    SixBytes(ts);
    b[0] := ts / 0x100_0000_0000 % 0x100;
    b[1] := ts / 0x1_0000_0000 % 0x100;
    b[2] := ts / 0x100_0000 % 0x100;
    b[3] := ts / 0x1_0000 % 0x100;
    b[4] := ts / 0x100 % 0x100;
    b[5] := ts % 0x100;
  }

  /** Version in the high nibble of byte 6, and the 12 bits of rand_a. The `|` is
      a sum by FieldBits. */
  method FillVersion(b: array<byte>, a: nat)
    requires b.Length == 16 && a < 4096
    modifies b
    ensures b[..6] == old(b[..6]) && b[6..8] == BigEndian(2, 0x7000 + a) && b[8..] == old(b[8..])
  {
    VersionField(a);
    b[6] := 0x70 + a / 0x100;
    b[7] := a % 0x100;
  }

  /** Variant in the high bits of byte 8, and the 62 bits of rand_b. */
  method FillVariant(b: array<byte>, r: nat)
    requires b.Length == 16 && r < TWO_62
    modifies b
    ensures b[..8] == old(b[..8]) && b[8..] == BigEndian(8, 0x8000_0000_0000_0000 + r)
  {
    VariantField(r);
    EightBytes(r);
    TopDigit(r);
    b[8] := 0x80 + r / 0x100_0000_0000_0000 % 0x40;
    b[9] := r / 0x1_0000_0000_0000 % 0x100;
    b[10] := r / 0x100_0000_0000 % 0x100;
    b[11] := r / 0x1_0000_0000 % 0x100;
    b[12] := r / 0x100_0000 % 0x100;
    b[13] := r / 0x1_0000 % 0x100;
    b[14] := r / 0x100 % 0x100;
    b[15] := r % 0x100;
  }

  lemma VersionField(a: nat)
    requires a < 4096
    ensures BigEndian(2, 0x7000 + a) == [0x70 + a / 0x100, a % 0x100]
  {
    TwoBytes(0x7000 + a);
  }

  /** Setting the top bit of a w-byte number below it changes the first byte
      only. */
  lemma {:induction false} TopBit(w: nat, r: nat, t: nat)
    requires w > 0 && t == 128 * Pow256(w - 1) && r < t
    ensures BigEndian(w, r)[0] < 128
    ensures BigEndian(w, t + r) == [128 + BigEndian(w, r)[0]] + BigEndian(w, r)[1..]
    decreases w
  {
    if w == 1 {
      LastByte(1, r, []);
      LastByte(1, t + r, []);
    } else {
      var u := 128 * Pow256(w - 2);
      assert t == 256 * u;
      assert (t + r) / 256 == u + r / 256 && (t + r) % 256 == r % 256;
      TopBit(w - 1, r / 256, u);
    }
  }

  lemma VariantField(r: nat)
    requires r < TWO_62
    ensures BigEndian(8, r)[0] < 0x40
    ensures BigEndian(8, 0x8000_0000_0000_0000 + r) == [0x80 + BigEndian(8, r)[0]] + BigEndian(8, r)[1..]
  {
    assert 128 * Pow256(7) == 0x8000_0000_0000_0000 by { FieldWidths(); }
    TopBit(8, r, 0x8000_0000_0000_0000);
    EightBytes(r);
    TopDigit(r);
  }

  lemma TopDigit(r: nat)
    requires r < TWO_62
    ensures r / 0x100_0000_0000_0000 < 0x40
    ensures r / 0x100_0000_0000_0000 % 0x40 == r / 0x100_0000_0000_0000 % 0x100 == r / 0x100_0000_0000_0000
  {
  }

  lemma LayoutFields(time: nat, a: nat, b: nat)
    requires time < TWO_48 && a < 4096 && b < TWO_62
    ensures var id := Layout(time, a, b);
            && Number(id[..6]) == time
            && Number(id[6..8]) == 0x7000 + a
            && Number(id[8..]) == 0x8000_0000_0000_0000 + b
            && id[6] / 16 == 7 && id[8] / 64 == 2
  {
    FieldWidths();
    NumberOfBigEndian(6, time);
    NumberOfBigEndian(2, 0x7000 + a);
    NumberOfBigEndian(8, 0x8000_0000_0000_0000 + b);
    VersionField(a);
    VariantField(b);
    var id := Layout(time, a, b);
    assert id[..6] == BigEndian(6, time);
    assert id[6..8] == BigEndian(2, 0x7000 + a);
    assert id[8..] == BigEndian(8, 0x8000_0000_0000_0000 + b);
  }

  /** The fields can be read back: version 7, variant 10, and the masked values. */
  lemma AssembleFields(ms: nat, randA: nat, randB: nat)
    ensures var id := Assemble(ms, randA, randB);
            && Number(id[..6]) == ms % 0x1_0000_0000_0000
            && Number(id[6..8]) == 0x7000 + randA % 0x1000
            && Number(id[8..]) == 0x8000_0000_0000_0000 + randB % 0x4000_0000_0000_0000
            && id[6] / 16 == 7 && id[8] / 64 == 2
  {
    LayoutFields(ms % TWO_48, randA % 4096, randB % TWO_62);
  }

  // ---- UUIDv7: byte order follows (time, counter)

  lemma PrefixDecides(a: bytes, b: bytes, c: bytes, d: bytes)
    requires Before(a, b)
    ensures Before(a + c, b + d)
  {
    var k: nat :| SmallerAt(a, b, k);
    assert SmallerAt(a + c, b + d, k);
  }

  lemma CommonPrefix(p: bytes, a: bytes, b: bytes)
    requires Before(a, b)
    ensures Before(p + a, p + b)
  {
    var k: nat :| SmallerAt(a, b, k);
    assert SmallerAt(p + a, p + b, |p| + k);
  }

  /** Big-endian bytes of one width compare like the numbers. */
  lemma {:induction false} BigEndianOrder(w: nat, m: nat, n: nat)
    requires m < n < Pow256(w)
    ensures Before(BigEndian(w, m), BigEndian(w, n))
  {
    if m / 256 < n / 256 {
      BigEndianOrder(w - 1, m / 256, n / 256);
      PrefixDecides(BigEndian(w - 1, m / 256), BigEndian(w - 1, n / 256), [m % 256], [n % 256]);
    } else {
      assert SmallerAt([m % 256], [n % 256], 0);
      CommonPrefix(BigEndian(w - 1, m / 256), [m % 256], [n % 256]);
    }
  }

  // ---- UUIDv7: the monotonic generator

  /** The process-wide state: the last millisecond used and its counter. */
  datatype Clock = Clock(ms: nat, counter: nat)

  predicate ClockValid(c: Clock) {
    c.counter <= COUNTER_MAX
  }

  /** One critical section of `uuid7`, given the clock reading and the two random
      seed bytes. */
  function Tick(c: Clock, reading: nat, seed: nat): Clock {
    if reading > c.ms then Clock(reading, seed % 4096)
    else if c.counter + 1 > COUNTER_MAX then Clock(c.ms + 1, seed % 4096)
    else Clock(c.ms, c.counter + 1)
  }

  predicate Earlier(c: Clock, d: Clock) {
    c.ms < d.ms || (c.ms == d.ms && c.counter < d.counter)
  }

  lemma SmallerTime(a1: bytes, b1: bytes, a2: bytes, b2: bytes, a3: bytes, b3: bytes)
    requires Before(a1, b1)
    ensures Before(a1 + a2 + a3, b1 + b2 + b3)
  {
    Assoc(a1, a2, a3);
    Assoc(b1, b2, b3);
    PrefixDecides(a1, b1, a2 + a3, b2 + b3);
  }

  lemma SmallerCounter(p: bytes, a2: bytes, b2: bytes, a3: bytes, b3: bytes)
    requires Before(a2, b2)
    ensures Before(p + a2 + a3, p + b2 + b3)
  {
    Assoc(p, a2, a3);
    Assoc(p, b2, b3);
    PrefixDecides(a2, b2, a3, b3);
    CommonPrefix(p, a2 + a3, b2 + b3);
  }

  lemma EarlierLayout(s: nat, t: nat, a: nat, b: nat, tailA: nat, tailB: nat)
    requires s < t < TWO_48 || (s == t && a < b <= COUNTER_MAX)
    ensures Before(Layout(s, a, tailA), Layout(t, b, tailB))
  {
    FieldWidths();
    var a2, b2 := BigEndian(2, 0x7000 + a), BigEndian(2, 0x7000 + b);
    var a3, b3 := BigEndian(8, 0x8000_0000_0000_0000 + tailA), BigEndian(8, 0x8000_0000_0000_0000 + tailB);
    if s < t {
      BigEndianOrder(6, s, t);
      SmallerTime(BigEndian(6, s), BigEndian(6, t), a2, b2, a3, b3);
    } else {
      BigEndianOrder(2, 0x7000 + a, 0x7000 + b);
      SmallerCounter(BigEndian(6, s), a2, b2, a3, b3);
    }
  }

  lemma AssembleInRange(ms: nat, a: nat, tail: nat)
    requires ms < TWO_48 && a <= COUNTER_MAX
    ensures Assemble(ms, a, tail) == Layout(ms, a, tail % TWO_62)
  {
  }

  /** Identifiers assembled from an earlier snapshot come first in byte order,
      whatever their random tails and whenever they are assembled. */
  lemma EarlierIsBefore(c: Clock, d: Clock, tailC: nat, tailD: nat, idC: Uuid, idD: Uuid)
    requires ClockValid(c) && ClockValid(d) && Earlier(c, d) && d.ms < TWO_48
    requires idC == Assemble(c.ms, c.counter, tailC) && idD == Assemble(d.ms, d.counter, tailD)
    ensures BytesLe(idC, idD) && !BytesLe(idD, idC)
  {
    var k, m := tailC % TWO_62, tailD % TWO_62;
    AssembleInRange(c.ms, c.counter, tailC);
    AssembleInRange(d.ms, d.counter, tailD);
    EarlierLayout(c.ms, d.ms, c.counter, d.counter, k, m);
    BeforeIsByteOrder(idC, idD);
  }

  lemma FieldWidths()
    ensures Pow256(2) == 65536 && Pow256(6) == TWO_48 && Pow256(8) == TWO_64
  {
    Widths();
    assert Pow256(2) == 65536 && Pow256(6) == TWO_48;
  }

  /** What one call reads: the clock, the seed bytes, and the tail bytes drawn
      outside the lock. */
  datatype Draw = Draw(reading: nat, seed: nat, tail: nat)

  /** The state after the i-th critical section. */
  function ClockAfter(start: Clock, draws: seq<Draw>, i: nat): Clock
    requires i <= |draws|
  {
    if i == 0 then start else Tick(ClockAfter(start, draws, i - 1), draws[i - 1].reading, draws[i - 1].seed)
  }

  lemma {:induction false} ClockAdvances(start: Clock, draws: seq<Draw>, i: nat, j: nat)
    requires ClockValid(start) && i <= j <= |draws|
    ensures ClockValid(ClockAfter(start, draws, j))
    ensures i < j ==> Earlier(ClockAfter(start, draws, i), ClockAfter(start, draws, j))
    ensures i == 0 || ClockAfter(start, draws, i).ms >= draws[i - 1].reading
    ensures ClockAfter(start, draws, i).ms <= ClockAfter(start, draws, j).ms
    decreases j
  {
    if i < j {
      ClockAdvances(start, draws, i, j - 1);
    } else if i > 0 {
      ClockAdvances(start, draws, i - 1, j - 1);
    }
  }

  /** The identifier minted by the i-th call to enter the critical section. */
  function Minted(start: Clock, draws: seq<Draw>, i: nat): Uuid
    requires i < |draws|
  {
    var c := ClockAfter(start, draws, i + 1);
    Assemble(c.ms, c.counter, draws[i].tail)
  }

  /** For any clock readings, including backward jumps, and any random bytes:
      identifiers strictly increase in the order the calls took the lock, and are
      therefore pairwise distinct, as long as the held millisecond fits the 48-bit
      field. */
  lemma MintsIncrease(start: Clock, draws: seq<Draw>, i: nat, j: nat, idI: Uuid, idJ: Uuid)
    requires ClockValid(start) && i < j < |draws|
    requires ClockAfter(start, draws, |draws|).ms < TWO_48
    requires idI == Minted(start, draws, i) && idJ == Minted(start, draws, j)
    ensures BytesLe(idI, idJ) && !BytesLe(idJ, idI)
  {
    ClocksIncrease(start, draws, i, j);
    var c, d := ClockAfter(start, draws, i + 1), ClockAfter(start, draws, j + 1);
    EarlierIsBefore(c, d, draws[i].tail, draws[j].tail, idI, idJ);
  }

  lemma ClocksIncrease(start: Clock, draws: seq<Draw>, i: nat, j: nat)
    requires ClockValid(start) && i < j < |draws|
    ensures ClockValid(ClockAfter(start, draws, i + 1)) && ClockValid(ClockAfter(start, draws, j + 1))
    ensures Earlier(ClockAfter(start, draws, i + 1), ClockAfter(start, draws, j + 1))
    ensures ClockAfter(start, draws, j + 1).ms <= ClockAfter(start, draws, |draws|).ms
  {
    ClockAdvances(start, draws, 0, i + 1);
    ClockAdvances(start, draws, i + 1, j + 1);
    ClockAdvances(start, draws, j + 1, |draws|);
  }

  /** The embedded time is never behind the clock reading. */
  lemma MintTimeNotBehind(start: Clock, draws: seq<Draw>, i: nat, id: Uuid)
    requires ClockValid(start) && i < |draws|
    requires ClockAfter(start, draws, i + 1).ms < TWO_48
    requires id == Minted(start, draws, i)
    ensures Number(id[..6]) == ClockAfter(start, draws, i + 1).ms >= draws[i].reading
  {
    hide Assemble, Number, ClockAfter;
    var c := ClockAfter(start, draws, i + 1);
    ClockAdvances(start, draws, i + 1, i + 1);
    AssembleFields(c.ms, c.counter, draws[i].tail);
  }

  /** What an identifier embeds, exactly: a reading later than the held time, with a
      fresh counter; otherwise the held time with the next counter; and one
      millisecond more, with a fresh counter, only when the counter was used up. */
  lemma MintIsExact(start: Clock, draws: seq<Draw>, i: nat, id: Uuid)
    requires ClockValid(start) && i < |draws| && ClockAfter(start, draws, i + 1).ms < 0x1_0000_0000_0000
    requires id == Minted(start, draws, i)
    ensures var (held, draw) := (ClockAfter(start, draws, i), draws[i]);
            && held.counter <= 4095
            && (draw.reading > held.ms ==>
                  Number(id[..6]) == draw.reading && Number(id[6..8]) == 0x7000 + draw.seed % 4096)
            && (draw.reading <= held.ms && held.counter < 4095 ==>
                  Number(id[..6]) == held.ms && Number(id[6..8]) == 0x7000 + held.counter + 1)
            && (draw.reading <= held.ms && held.counter == 4095 ==>
                  Number(id[..6]) == held.ms + 1 && Number(id[6..8]) == 0x7000 + draw.seed % 4096)
            && Number(id[8..]) == 0x8000_0000_0000_0000 + draw.tail % 0x4000_0000_0000_0000
  {
    hide Assemble, Number;
    var c := ClockAfter(start, draws, i + 1);
    ClockAdvances(start, draws, 0, i);
    ClockAdvances(start, draws, 0, i + 1);
    AssembleFields(c.ms, c.counter, draws[i].tail);
  }

  /** The latest of the starting time and the first i readings. */
  function Latest(start: Clock, draws: seq<Draw>, i: nat): nat
    requires i <= |draws|
  {
    if i == 0 then start.ms
    else
      var before := Latest(start, draws, i - 1);
      if draws[i - 1].reading > before then draws[i - 1].reading else before
  }

  /** How many of the first i calls found the counter used up at a time their
      reading did not pass. */
  function Overflows(start: Clock, draws: seq<Draw>, i: nat): nat
    requires i <= |draws|
  {
    if i == 0 then 0
    else
      var held := ClockAfter(start, draws, i - 1);
      Overflows(start, draws, i - 1)
        + if draws[i - 1].reading <= held.ms && held.counter == 4095 then 1 else 0
  }

  /** The held time never falls behind the latest reading, and runs ahead of it by
      no more than one millisecond for each overflow. */
  lemma {:induction false} TimeKeepsPace(start: Clock, draws: seq<Draw>, i: nat)
    requires ClockValid(start) && i <= |draws|
    ensures Latest(start, draws, i) <= ClockAfter(start, draws, i).ms
    ensures ClockAfter(start, draws, i).ms <= Latest(start, draws, i) + Overflows(start, draws, i)
  {
    if i > 0 {
      TimeKeepsPace(start, draws, i - 1);
      ClockAdvances(start, draws, 0, i - 1);
    }
  }

  /** The bound is needed: past the last 48-bit millisecond the field wraps and
      order is lost. */
  lemma WrapLosesOrder()
    ensures var c := Clock(TWO_48 - 1, COUNTER_MAX); var d := Tick(c, 0, 0);
            d.ms == TWO_48 && BytesLe(Assemble(d.ms, d.counter, 0), Assemble(c.ms, c.counter, 0))
  {
    var first, last := Assemble(0, 0, 0), Assemble(TWO_48 - 1, COUNTER_MAX, 0);
    assert Assemble(TWO_48, 0, 0) == first;
    EarlierIsBefore(Clock(0, 0), Clock(TWO_48 - 1, COUNTER_MAX), 0, 0, first, last);
  }

  class Uuid7Generator {
    var lastMs: nat
    var counter: nat

    ghost predicate Valid()
      reads this
    {
      counter <= COUNTER_MAX
    }

    ghost function State(): Clock
      reads this
    {
      Clock(lastMs, counter)
    }

    constructor ()
      ensures Valid() && State() == Clock(0, 0)
    {
      lastMs, counter := 0, 0;
    }

    /** `uuid7()` */
    method Uuid7(draw: Draw) returns (id: Uuid)
      requires Valid()
      modifies this
      ensures Valid()
      ensures State() == Tick(old(State()), draw.reading, draw.seed)
      ensures draw.reading > old(lastMs) ==> lastMs == draw.reading && counter == draw.seed % 4096
      ensures draw.reading <= old(lastMs) && old(counter) < 4095 ==> lastMs == old(lastMs) && counter == old(counter) + 1
      ensures draw.reading <= old(lastMs) && old(counter) == 4095 ==> lastMs == old(lastMs) + 1 && counter == draw.seed % 4096
      ensures id == Assemble(lastMs, counter, draw.tail)
    {
      if draw.reading > lastMs {
        lastMs := draw.reading;
        counter := draw.seed % 4096;
      } else {
        counter := counter + 1;
        if counter > COUNTER_MAX {
          lastMs := lastMs + 1;
          counter := draw.seed % 4096;
        }
      }
      id := AssembleInPlace(lastMs, counter, draw.tail);
    }
  }
}
