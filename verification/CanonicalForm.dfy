/** The canonical bytes spelled out: the one structure they encode, the bytes they
    begin with, and the form of the simplest ring there is.
  */
module CanonicalForm {
  import opened Orders
  import opened Quantization
  import opened Rings
  import opened Redrawing
  import opened Serialization
  import opened Recipe
  import opened Identity

  // ---- Structures in canonical form

  ghost predicate Ascending(pieces: seq<bytes>) {
    forall i, j :: 0 <= i < j < |pieces| ==> BytesLe(pieces[i], pieces[j])
  }

  /** Every ring in normal form, the holes in the order of their bytes. */
  ghost predicate CanonicalPolygon(rings: seq<Cycle>) {
    && rings != [] && PackablePolygon(rings)
    && (forall r :: r in rings ==> NormalForm(r))
    && Ascending(Map(RingCodeOf, rings[1..]))
  }

  function RingCodeOf(r: Cycle): bytes {
    if PackablePoints(r) then RingBytes(r) else []
  }

  function PolygonCodeOf(rings: seq<Cycle>): bytes {
    if PackablePolygon(rings) then PolygonBytes(rings) else []
  }

  /** Points west to east, then south to north. */
  ghost predicate WestToEast(ps: seq<Point>) {
    forall i, j :: 0 <= i < j < |ps| ==> ps[i].x < ps[j].x || (ps[i].x == ps[j].x && ps[i].y <= ps[j].y)
  }

  ghost predicate InCanonicalForm(s: Shape) {
    Packable(s) && match s
      case PointShape(_) => true
      case MultiPointShape(ps) => ps != [] && WestToEast(ps)
      case PolygonShape(rings) => CanonicalPolygon(rings)
      case MultiPolygonShape(parts) =>
        && parts != [] && (forall q :: q in parts ==> CanonicalPolygon(q))
        && Ascending(Map(PolygonCodeOf, parts))
  }

  // ---- They are their own canonical structure

  lemma SortedStays<T(!new)>(le: (T, T) -> bool, s: seq<T>)
    requires TotalOrder(le) && Sorted(le, s)
    ensures Sort(le, s) == s
  {
    SortSorts(le, s);
    SortedIsUnique(le, Sort(le, s), s);
  }

  lemma NormalRingCode(r: Cycle)
    requires NormalForm(r) && PackablePoints(r)
    ensures CycleCode(r) == Ok(RingCodeOf(r))
  {
    NormalFormIsFixed(r);
  }

  lemma CollectOf(rs: seq<Result<bytes>>, codes: seq<bytes>)
    requires |rs| == |codes| && forall i :: 0 <= i < |rs| ==> rs[i] == Ok(codes[i])
    ensures Collect(rs) == Ok(codes)
  {
    CollectAll(rs);
    forall i | 0 <= i < |codes| ensures Collect(rs).value[i] == codes[i] {
      assert rs[i] == Ok(codes[i]);
    }
    assert Collect(rs).value == codes;
  }

  lemma MapRest(rings: seq<Cycle>)
    requires rings != []
    ensures Map(RingCodeOf, rings)[0] == RingCodeOf(rings[0]) && Map(RingCodeOf, rings)[1..] == Map(RingCodeOf, rings[1..])
  {
  }

  lemma MapRestOfParts(parts: seq<seq<Cycle>>)
    requires parts != []
    ensures Map(PolygonCodeOf, parts)[0] == PolygonCodeOf(parts[0])
    ensures Map(PolygonCodeOf, parts)[1..] == Map(PolygonCodeOf, parts[1..])
  {
  }

  lemma FlattenFirst(pieces: seq<bytes>)
    requires pieces != []
    ensures Flatten(pieces) == pieces[0] + Flatten(pieces[1..])
  {
  }

  lemma {:induction false} FlattenIsRings(rings: seq<Cycle>)
    requires forall r :: r in rings ==> PackablePoints(r)
    ensures Flatten(Map(RingCodeOf, rings)) == RingsBytes(rings)
    decreases |rings|
  {
    if rings != [] {
      FlattenIsRings(rings[1..]);
      assert rings[0] in rings;
      hide RingBytes;
      MapRest(rings);
      FlattenFirst(Map(RingCodeOf, rings));
    }
  }

  lemma CanonicalRingCodes(rings: seq<Cycle>)
    requires CanonicalPolygon(rings)
    ensures Collect(Map(CycleCode, rings)) == Ok(Map(RingCodeOf, rings))
  {
    hide NormalForm, CycleCode, RingCodeOf;
    var rs: seq<Result<bytes>>, codes: seq<bytes> := Map(CycleCode, rings), Map(RingCodeOf, rings);
    forall i | 0 <= i < |rings| ensures rs[i] == Ok(codes[i]) {
      assert rings[i] in rings && rs[i] == CycleCode(rings[i]) && codes[i] == RingCodeOf(rings[i]);
      NormalRingCode(rings[i]);
    }
    hide CanonicalPolygon;
    CollectOf(rs, codes);
  }

  lemma BodyOfSorted(rs: seq<Result<bytes>>, codes: seq<bytes>)
    requires rs != [] && codes != [] && |codes| <= INT4_MAX && Collect(rs) == Ok(codes) && Ascending(codes[1..])
    ensures Body(rs) == Ok(Int4(|codes|) + (codes[0] + Flatten(codes[1..])))
  {
    BytesOrder();
    SortedStays(BytesLe, codes[1..]);
  }

  lemma CanonicalPolygonCode(rings: seq<Cycle>)
    requires CanonicalPolygon(rings)
    ensures PolygonCode(rings) == Ok(PolygonBytes(rings))
  {
    var codes := Map(RingCodeOf, rings);
    CanonicalRingCodes(rings);
    MapRest(rings);
    FlattenIsRings(rings[1..]);
    assert rings[0] in rings && RingCodeOf(rings[0]) == RingBytes(rings[0]);
    hide CycleCode, NormalForm, RingBytes, RingCodeOf, Body, Flatten, Collect;
    BodyOfSorted(Map(CycleCode, rings), codes);
  }

  lemma {:induction false} FlattenIsPolygons(parts: seq<seq<Cycle>>)
    requires forall q :: q in parts ==> PackablePolygon(q)
    ensures Flatten(Map(PolygonCodeOf, parts)) == PolygonsBytes(parts)
    decreases |parts|
  {
    if parts != [] {
      FlattenIsPolygons(parts[1..]);
      assert parts[0] in parts;
      hide PolygonBytes;
      MapRestOfParts(parts);
      FlattenFirst(Map(PolygonCodeOf, parts));
    }
  }

  lemma CanonicalPartCodes(parts: seq<seq<Cycle>>)
    requires forall q :: q in parts ==> CanonicalPolygon(q)
    ensures Collect(Map(PolygonCode, parts)) == Ok(Map(PolygonCodeOf, parts))
  {
    var rs: seq<Result<bytes>>, codes: seq<bytes> := Map(PolygonCode, parts), Map(PolygonCodeOf, parts);
    forall i | 0 <= i < |parts| ensures rs[i] == Ok(codes[i]) {
      hide PolygonCode, PolygonCodeOf;
      assert parts[i] in parts && rs[i] == PolygonCode(parts[i]) && codes[i] == PolygonCodeOf(parts[i]);
      CanonicalPartCode(parts[i]);
    }
    hide *;
    CollectOf(rs, codes);
  }

  lemma CanonicalPartCode(part: seq<Cycle>)
    requires CanonicalPolygon(part)
    ensures PolygonCode(part) == Ok(PolygonCodeOf(part))
  {
    CanonicalPolygonCode(part);
    hide PolygonCode, PolygonBytes;
  }

  lemma CanonicalPartsCode(parts: seq<seq<Cycle>>)
    requires InCanonicalForm(MultiPolygonShape(parts))
    ensures Bodies(Map(PolygonCode, parts)) == Ok(Int4(|parts|) + PolygonsBytes(parts))
  {
    FlattenIsPolygons(parts);
    hide CanonicalPolygon, PolygonCode, PolygonCodeOf, Ascending, PolygonBytes, Bodies, Collect;
    CanonicalPartCodes(parts);
    BodiesOfSorted(Map(PolygonCode, parts), Map(PolygonCodeOf, parts));
  }

  lemma BodiesOfSorted(rs: seq<Result<bytes>>, codes: seq<bytes>)
    requires |codes| <= INT4_MAX && Collect(rs) == Ok(codes) && Ascending(codes)
    ensures Bodies(rs) == Ok(Int4(|codes|) + Flatten(codes))
  {
    BytesOrder();
    SortedStays(BytesLe, codes);
  }

  /** A structure in canonical form is encoded as it stands. */
  lemma CanonicalFormIsFixed(s: Shape)
    requires InCanonicalForm(s)
    ensures ShapeBytes(s) == Ok(Encode(s))
  {
    match s
    case PointShape(p) =>
    case MultiPointShape(ps) =>
      PointOrder();
      SortedStays(PointLe, ps);
    case PolygonShape(rings) => CanonicalPolygonCode(rings);
    case MultiPolygonShape(parts) => CanonicalPartsCode(parts);
  }

  /** The canonical bytes are the encoding of any structure in canonical form that
      is the same shape as the one drawn; so there is only one. */
  lemma CanonicalBytesAre(g: Geometry, s: Shape)
    requires WellFormed(g) && SameShape(s, Drawn(g)) && InCanonicalForm(s)
    ensures CanonicalBytes(g) == Ok(Encode(s))
  {
    CanonicalFormIsFixed(s);
    BytesOfDrawing(g);
    SameShapeSameBytes(s, Drawn(g));
  }

  // ---- Every canonical byte string encodes one

  lemma RingOfIsNormal(code: bytes)
    requires IsRingCode(code) && CycleCode(RingOf(code)) == Ok(code)
    ensures NormalForm(RingOf(code)) && RingCodeOf(RingOf(code)) == code
  {
    CycleCodeDecodes(RingOf(code));
    CanonNormalForm(RingOf(code));
  }

  lemma RingCodesOfRings(codes: seq<bytes>)
    requires forall c :: c in codes ==> IsRingCode(c)
    ensures Map(RingCodeOf, Map(RingOf, codes)) == codes
  {
    var back := Map(RingCodeOf, Map(RingOf, codes));
    forall i | 0 <= i < |codes| ensures back[i] == codes[i] {
      assert codes[i] in codes;
    }
  }

  lemma SortedPieces(pieces: seq<bytes>)
    ensures Ascending(Sort(BytesLe, pieces)) && |Sort(BytesLe, pieces)| == |pieces|
    ensures forall c :: c in Sort(BytesLe, pieces) ==> c in pieces
  {
    BytesOrder();
    SortSorts(BytesLe, pieces);
    forall c | c in Sort(BytesLe, pieces) ensures c in pieces {
      assert c in multiset(Sort(BytesLe, pieces));
    }
  }

  lemma CanonRingsAreCanonical(codes: seq<bytes>)
    requires codes != [] && |codes| <= INT4_MAX
    requires forall c :: c in codes ==> IsRingCode(c) && CycleCode(RingOf(c)) == Ok(c)
    ensures CanonicalPolygon(CanonRings(codes))
  {
    hide NormalForm, CycleCode, RingOf, IsRingCode, RingCodeOf, Sort, PolygonBytes;
    var holes, rings := Sort(BytesLe, codes[1..]), CanonRings(codes);
    BodyIsPolygon(codes);
    SortedPieces(codes[1..]);
    forall r | r in rings ensures NormalForm(r) {
      var i :| 0 <= i < |rings| && rings[i] == r;
      var c := if i == 0 then codes[0] else holes[i - 1];
      assert i > 0 ==> c in holes;
      assert c in codes && r == RingOf(c);
      RingOfIsNormal(c);
    }
    assert rings[1..] == Map(RingOf, holes);
    RingCodesOfRings(holes);
  }

  lemma RingsOfIsCanonical(part: seq<Cycle>, code: bytes)
    requires PolygonCode(part) == Ok(code)
    ensures CanonicalPolygon(RingsOf(code)) && PolygonCodeOf(RingsOf(code)) == code
  {
    PolygonCodeDecodes(part);
    RingCodes(part);
    hide CycleCode, CanonicalPolygon;
    CanonRingsAreCanonical(Collect(Map(CycleCode, part)).value);
  }

  lemma CanonPartsAreCanonical(parts: seq<seq<Cycle>>)
    requires parts != [] && Bodies(Map(PolygonCode, parts)).Ok?
    ensures Collect(Map(PolygonCode, parts)).Ok?
    ensures InCanonicalForm(MultiPolygonShape(CanonParts(Collect(Map(PolygonCode, parts)).value)))
  {
    PartCodes(parts);
    var codes: seq<bytes> := Collect(Map(PolygonCode, parts)).value;
    var sorted: seq<bytes> := Sort(BytesLe, codes);
    var canon := CanonParts(codes);
    SortedPieces(codes);
    BodiesAreMultiPolygon(codes);
    hide PolygonCode, CanonicalPolygon, PolygonCodeOf, RingsOf, Sort, Collect, Bodies;
    forall i | 0 <= i < |canon| ensures CanonicalPolygon(canon[i]) && PolygonCodeOf(canon[i]) == sorted[i] {
      assert sorted[i] in sorted;
      var j :| 0 <= j < |codes| && codes[j] == sorted[i];
      RingsOfIsCanonical(parts[j], codes[j]);
    }
    assert Map(PolygonCodeOf, canon) == sorted;
  }

  lemma StructureInCanonicalForm(s: Shape)
    requires ShapeBytes(s).Ok?
    ensures InCanonicalForm(Structure(s))
  {
    StructureEncodes(s);
    match s
    case PointShape(p) =>
    case MultiPointShape(ps) =>
      PointOrder();
      SortSorts(PointLe, ps);
    case PolygonShape(rings) =>
      RingCodes(rings);
      CanonRingsAreCanonical(Collect(Map(CycleCode, rings)).value);
    case MultiPolygonShape(parts) =>
      CanonPartsAreCanonical(parts);
  }

  /** What the decoder reads from canonical bytes is in canonical form: every ring
      counter-clockwise from its least start, holes, parts and members in order. */
  lemma DecodesToCanonicalForm(g: Geometry)
    requires CanonicalBytes(g).Ok?
    ensures Decode(CanonicalBytes(g).value).Decoded? && InCanonicalForm(Decode(CanonicalBytes(g).value).shape)
  {
    BytesOfDrawing(g);
    StructureEncodes(Drawn(g));
    DecodeEncode(Structure(Drawn(g)));
    StructureInCanonicalForm(Drawn(g));
  }

  // ---- The first bytes

  /** A version byte 2, then the type: 1 Point, 2 MultiPoint, 3 Polygon,
      4 MultiPolygon. */
  lemma Header(g: Geometry)
    requires CanonicalBytes(g).Ok?
    ensures var b := CanonicalBytes(g).value;
            && |b| >= 2 && b[0] == 2
            && b[1] == (match g
                        case GeoPoint(_) => 1
                        case GeoMultiPoint(_) => 2
                        case GeoPolygon(_) => 3
                        case GeoMultiPolygon(_) => 4
                        case GeoOther(_) => 0)
  {
  }

  // ---- The layout

  function Unsigned64(x: int): int {
    if x < 0 then x + 0x1_0000_0000_0000_0000 else x
  }

  lemma PointLayout(p: Point)
    requires PackablePoint(p)
    ensures Number(PointBytes(p)[..8]) == Unsigned64(p.x) && Number(PointBytes(p)[8..]) == Unsigned64(p.y)
  {
    TwosComplement(p.x);
    TwosComplement(p.y);
    assert PointBytes(p)[..8] == Int8(p.x) && PointBytes(p)[8..] == Int8(p.y);
  }

  lemma {:induction false} PointsLayout(ps: seq<Point>, k: nat)
    requires k < |ps| && forall p :: p in ps ==> PackablePoint(p)
    ensures |PointsBytes(ps)| == 16 * |ps|
    ensures PointsBytes(ps)[16 * k..16 * k + 16] == PointBytes(ps[k])
    decreases |ps|
  {
    var rest := ps[1..];
    var b := PointBytes(ps[0]) + PointsBytes(rest);
    if rest == [] {
      assert PointsBytes(rest) == [];
      assert b[..16] == PointBytes(ps[0]);
    } else {
      PointsLayout(rest, if k == 0 then 0 else k - 1);
      assert b[..16] == PointBytes(ps[0]);
      if k > 0 {
        AfterFirst(PointBytes(ps[0]), PointsBytes(rest), 16 * (k - 1));
      }
    }
  }

  lemma AfterFirst(first: bytes, rest: bytes, i: nat)
    requires |first| == 16 && i + 16 <= |rest|
    ensures (first + rest)[i + 16..i + 32] == rest[i..i + 16]
  {
  }

  /** A ring's bytes: the count in 4 bytes, then x and y of each vertex in 8 bytes
      each, two's complement, most significant byte first. */
  lemma RingLayout(ps: seq<Point>, k: nat)
    requires PackablePoints(ps) && k < |ps|
    ensures var b := RingBytes(ps);
            && |b| == 4 + 16 * |ps| && Number(b[..4]) == |ps|
            && Number(b[4 + 16 * k..12 + 16 * k]) == Unsigned64(ps[k].x)
            && Number(b[12 + 16 * k..20 + 16 * k]) == Unsigned64(ps[k].y)
  {
    var b, body := RingBytes(ps), PointsBytes(ps);
    PointsLayout(ps, k);
    assert ps[k] in ps;
    PointLayout(ps[k]);
    Widths();
    NumberOfBigEndian(4, |ps|);
    assert b[..4] == Int4(|ps|);
    VertexOfRing(Int4(|ps|), body, 16 * k);
    assert b[4 + 16 * k..12 + 16 * k] == PointBytes(ps[k])[..8];
    assert b[12 + 16 * k..20 + 16 * k] == PointBytes(ps[k])[8..];
  }

  lemma VertexOfRing(count: bytes, body: bytes, i: nat)
    requires |count| == 4 && i + 16 <= |body|
    ensures (count + body)[4 + i..12 + i] == body[i..i + 16][..8]
    ensures (count + body)[12 + i..20 + i] == body[i..i + 16][8..]
  {
  }

  /** Behind the header: a Point's two coordinates; a MultiPoint's members laid out
      like a ring; a Polygon's ring count and its exterior first; a MultiPolygon's
      part count and its first part. */
  lemma ShapeLayout(s: Shape)
    requires Packable(s)
    ensures var b := Encode(s);
            && |b| >= 2
            && match s
               case PointShape(p) => b[2..] == PointBytes(p)
               case MultiPointShape(ps) => b[2..] == RingBytes(ps)
               case PolygonShape(rings) => rings != [] ==> Int4(|rings|) + RingBytes(rings[0]) <= b[2..]
               case MultiPolygonShape(parts) => parts != [] ==> Int4(|parts|) + PolygonBytes(parts[0]) <= b[2..]
  {
    match s
    case PointShape(p) =>
    case MultiPointShape(ps) =>
    case PolygonShape(rings) =>
      assert Encode(s)[2..] == PolygonBytes(rings);
      if rings != [] {
        Assoc(Int4(|rings|), RingBytes(rings[0]), RingsBytes(rings[1..]));
      }
    case MultiPolygonShape(parts) =>
      assert Encode(s)[2..] == Int4(|parts|) + PolygonsBytes(parts);
      if parts != [] {
        Assoc(Int4(|parts|), PolygonBytes(parts[0]), PolygonsBytes(parts[1..]));
      }
  }

  // ---- What is accepted

  /** A point both of whose coordinates fit bigint. */
  predicate Fits(p: Point) {
    && -0x8000_0000_0000_0000 <= p.x < 0x8000_0000_0000_0000
    && -0x8000_0000_0000_0000 <= p.y < 0x8000_0000_0000_0000
  }

  /** A ring with an area, whose coordinates and de-duplicated length fit. */
  predicate Sound(ring: Cycle) {
    && Shoelace(ring) != 0 && |Dedup(ring)| < 0x8000_0000
    && forall p :: p in ring ==> Fits(p)
  }

  predicate SoundPolygon(rings: seq<Cycle>) {
    0 < |rings| < 0x8000_0000 && forall r :: r in rings ==> Sound(r)
  }

  predicate SoundShape(s: Shape) {
    match s
    case PointShape(p) => Fits(p)
    case MultiPointShape(ps) => 0 < |ps| < 0x8000_0000 && forall p :: p in ps ==> Fits(p)
    case PolygonShape(rings) => SoundPolygon(rings)
    case MultiPolygonShape(parts) => 0 < |parts| < 0x8000_0000 && forall q :: q in parts ==> SoundPolygon(q)
  }

  lemma RingAcceptedExactly(ring: Cycle)
    ensures CycleCode(ring).Ok? <==> Sound(ring)
  {
    AcceptedExactly(ring);
    CanonMembers(ring);
    if CanonCycle(ring).Canonical? {
      CanonNormalForm(ring);
      CanonLength(ring);
    }
  }

  lemma PolygonAcceptedExactly(rings: seq<Cycle>)
    ensures PolygonCode(rings).Ok? <==> SoundPolygon(rings)
  {
    var codes: seq<Result<bytes>> := Map(CycleCode, rings);
    CollectAll(codes);
    hide Sound, CycleCode, Collect;
    forall i | 0 <= i < |rings| ensures codes[i].Ok? <==> Sound(rings[i]) {
      RingAcceptedExactly(rings[i]);
    }
  }

  /** Canonical bytes exist exactly for the nonempty shapes whose rings all have an
      area and whose coordinates and counts fit the fixed-width integers. */
  lemma ShapeAcceptedExactly(s: Shape)
    ensures ShapeBytes(s).Ok? <==> SoundShape(s)
  {
    match s
    case PointShape(p) =>
    case MultiPointShape(ps) =>
      PointOrder();
      SortSorts(PointLe, ps);
      SortedMembers(ps);
    case PolygonShape(rings) => PolygonAcceptedExactly(rings);
    case MultiPolygonShape(parts) =>
      var codes: seq<Result<bytes>> := Map(PolygonCode, parts);
      CollectAll(codes);
      hide SoundPolygon, PolygonCode, Collect;
      forall i | 0 <= i < |parts| ensures codes[i].Ok? <==> SoundPolygon(parts[i]) {
        PolygonAcceptedExactly(parts[i]);
      }
  }

  lemma SortedMembers(ps: seq<Point>)
    requires multiset(Sort(PointLe, ps)) == multiset(ps)
    ensures forall p :: p in Sort(PointLe, ps) <==> p in ps
  {
    forall p ensures p in Sort(PointLe, ps) <==> p in ps {
      assert p in multiset(Sort(PointLe, ps)) <==> p in multiset(ps);
    }
  }

  lemma CanonLength(ring: Cycle)
    requires CanonCycle(ring).Canonical?
    ensures |CanonCycle(ring).vertices| == |Dedup(ring)|
  {
    LeastRotationIsLeast(Oriented(Dedup(ring)));
  }

  // ---- A rectangle

  function Corners(west: int, south: int, east: int, north: int): Cycle {
    [Point(west, south), Point(east, south), Point(east, north), Point(west, north)]
  }

  lemma CornersArea(west: int, south: int, east: int, north: int)
    ensures Shoelace(Corners(west, south, east, north)) == 2 * (east - west) * (north - south)
  {
    var s := Corners(west, south, east, north);
    assert s[..3] == [s[0], s[1], s[2]] && s[..3][..2] == [s[0], s[1]] && s[..3][..2][..1] == [s[0]];
    assert PathSum([s[0]]) == 0;
    assert PathSum([s[0], s[1]]) == Cross(s[0], s[1]);
    assert PathSum([s[0], s[1], s[2]]) == Cross(s[0], s[1]) + Cross(s[1], s[2]);
    assert PathSum(s) == Cross(s[0], s[1]) + Cross(s[1], s[2]) + Cross(s[2], s[3]);
  }

  lemma CornersAreLeast(west: int, south: int, east: int, north: int)
    requires west < east && south < north
    ensures var s := Corners(west, south, east, north); IsLeastRotation(s, s)
  {
    var s := Corners(west, south, east, north);
    assert Rotate(s, 0) == s && Rotate(s, 4) == s;
    PointOrder();
    LexTotal(PointLe, s, s);
    forall k {:trigger Rotate(s, k)} | 0 <= k <= 4 ensures VerticesLe(s, Rotate(s, k)) {
      if 0 < k < 4 {
        RotateIndex(s, k, 0);
        assert !PointLe(s[k], s[0]) && PointLe(s[0], s[k]);
        hide Rotate, LexLe;
        LexFirstDifference(PointLe, s, Rotate(s, k), 0);
      }
    }
    assert IsRotation(s, s);
  }

  /** Counter-clockwise from the south-west corner is the normal form. */
  lemma CornersAreNormal(west: int, south: int, east: int, north: int)
    requires west < east && south < north
    ensures NormalForm(Corners(west, south, east, north))
  {
    var s := Corners(west, south, east, north);
    CornersArea(west, south, east, north);
    PositiveProduct(east - west, north - south);
    hide IsLeastRotation, Shoelace;
    CornersAreLeast(west, south, east, north);
  }

  lemma PositiveProduct(a: int, b: int)
    requires a > 0 && b > 0
    ensures 2 * a * b > 0
  {
  }

  /** However a rectangle is listed, its canonical ring runs counter-clockwise from
      the south-west corner. */
  lemma RectangleCanon(p: Cycle, west: int, south: int, east: int, north: int)
    requires west < east && south < north && Redrawn(p, Corners(west, south, east, north))
    ensures CanonCycle(p) == Canonical([Point(west, south), Point(east, south), Point(east, north), Point(west, north)])
  {
    var s := Corners(west, south, east, north);
    CornersAreNormal(west, south, east, north);
    NormalFormIsFixed(s);
    RedrawnIffSameRing(p, s);
    SameRingSameResult(p, s);
  }

  function WholeDegrees(lon: int, lat: int): Position {
    [lon as real, lat as real]
  }

  /** A closed listing of a rectangle of whole degrees, from its north-east corner
      and clockwise. */
  function Clockwise(west: int, south: int, east: int, north: int): seq<Position> {
    [WholeDegrees(east, north), WholeDegrees(east, south), WholeDegrees(west, south), WholeDegrees(west, north),
     WholeDegrees(east, north)]
  }

  /** Its bytes: one ring of four vertices, counter-clockwise from the south-west,
      at ten million steps to the degree. */
  lemma RectangleBytes(west: int, south: int, east: int, north: int)
    requires -180 <= west < east <= 180 && -90 <= south < north <= 90
    ensures var ring := [Point(west * 10_000_000, south * 10_000_000), Point(east * 10_000_000, south * 10_000_000),
                         Point(east * 10_000_000, north * 10_000_000), Point(west * 10_000_000, north * 10_000_000)];
            Packable(PolygonShape([ring]))
            && CanonicalBytes(GeoPolygon([Clockwise(west, south, east, north)])) == Ok(Encode(PolygonShape([ring])))
  {
    var w, s, e, n := west * 10_000_000, south * 10_000_000, east * 10_000_000, north * 10_000_000;
    var ring, listed := Corners(w, s, e, n), Clockwise(west, south, east, north);
    QuantizeWhole(west);
    QuantizeWhole(south);
    QuantizeWhole(east);
    QuantizeWhole(north);
    var lattice := [Point(e, n), Point(e, s), Point(w, s), Point(w, n), Point(e, n)];
    assert LatticeRing(listed) == lattice;
    ClockwiseIsCorners(w, s, e, n);
    CornersAreNormal(w, s, e, n);
    hide Redrawn, NormalForm, Quantize;
    assert Drawn(GeoPolygon([listed])).rings == [lattice];
    CanonicalBytesAre(GeoPolygon([listed]), PolygonShape([ring]));
  }

  lemma ClockwiseIsCorners(w: int, s: int, e: int, n: int)
    ensures Redrawn(Corners(w, s, e, n), [Point(e, n), Point(e, s), Point(w, s), Point(w, n), Point(e, n)])
  {
    var closed := [Point(e, n), Point(e, s), Point(w, s), Point(w, n), Point(e, n)];
    var open := [Point(e, n), Point(e, s), Point(w, s), Point(w, n)];
    var back := [Point(w, n), Point(w, s), Point(e, s), Point(e, n)];
    assert closed[..4] == open;
    RedrawnUnclosed(closed);
    RedrawnMove(Rewind, open);
    assert Reverse(open) == back;
    RedrawnMove(StartAt(1), back);
    assert Rotate(back, 1) == Corners(w, s, e, n);
    hide Redrawn;
    RedrawnTransitive(open, back, Corners(w, s, e, n));
    RedrawnSymmetric(open, Corners(w, s, e, n));
    RedrawnTransitive(closed, open, Corners(w, s, e, n));
    RedrawnSymmetric(closed, Corners(w, s, e, n));
  }
}
