/** The request schema's geometry checks, and what they guarantee to the recipe:
    no accepted geometry overflows an integer, and the only rejections left for
    the database are the ones named here.
  */
module Schema {
  import opened Orders
  import opened Quantization
  import opened Rings
  import opened Serialization
  import opened Recipe

  // ---- The walks over the coordinate array

  /** GeoJSON coordinates: numbers and arrays, nested. */
  datatype Json = Number(value: real) | Array(items: seq<Json>)

  /** A position once it is recognised: its first two ordinates, and whether
      there are more. */
  datatype Leaf = Leaf(lon: real, lat: real, more: bool)

  /** `iter_positions`, with `_has_z` noted per position. A position is an array
      whose first item is a number; an empty array holds none. The GeoJSON model
      guarantees two or three numbers per position. */
  function Leaves(c: Json): seq<Leaf> {
    if c.Number? || c.items == [] then []
    else if c.items[0].Number? then
      if |c.items| >= 2 && c.items[1].Number?
      then [Leaf(c.items[0].value, c.items[1].value, |c.items| > 2)]
      else []
    else LeavesOfAll(c.items)
  }

  function LeavesOfAll(items: seq<Json>): seq<Leaf> {
    if items == [] then [] else Leaves(items[0]) + LeavesOfAll(items[1..])
  }

  // ---- The coordinate array of a geometry

  function PositionJson(p: Position): Json {
    Array(Map((v: real) => Number(v), p))
  }

  function PositionsJson(ps: seq<Position>): Json {
    Array(Map(PositionJson, ps))
  }

  function RingsJson(rings: seq<seq<Position>>): Json {
    Array(Map(PositionsJson, rings))
  }

  function CoordinatesJson(g: Geometry): Json {
    match g
    case GeoPoint(p) => PositionJson(p)
    case GeoMultiPoint(ps) => PositionsJson(ps)
    case GeoPolygon(rings) => RingsJson(rings)
    case GeoMultiPolygon(parts) => Array(Map(RingsJson, parts))
    case GeoOther(_) => Array([])
  }

  // ---- The validator

  datatype SchemaVerdict = Accepted | NoCoordinates | HasZ | OutOfBounds | DegenerateGeometry

  predicate InBounds(lon: real, lat: real) {
    -180.0 <= lon <= 180.0 && -90.0 <= lat <= 90.0
  }

  /** `_validate_lonlat_bounds`: complaints of the recipe other than degeneracy
      are left to others. */
  function Validate(g: Geometry): SchemaVerdict {
    var leaves := Leaves(CoordinatesJson(g));
    if leaves == [] then NoCoordinates
    else if exists l :: l in leaves && l.more then HasZ
    else if exists l :: l in leaves && !InBounds(l.lon, l.lat) then OutOfBounds
    else match CanonicalBytes(g)
      case Err(e) => if e.Degenerate() then DegenerateGeometry else Accepted
      case Ok(_) => Accepted
  }

  // ---- What acceptance means for the positions

  predicate TwoOrThree(ps: seq<Position>) {
    forall p :: p in ps ==> |p| == 2 || |p| == 3
  }

  /** The shape the GeoJSON model (RFC 7946) has already checked: every position
      has two or three numbers. */
  predicate Parsed(g: Geometry) {
    match g
    case GeoPoint(p) => |p| == 2 || |p| == 3
    case GeoMultiPoint(ps) => TwoOrThree(ps)
    case GeoPolygon(rings) => forall r :: r in rings ==> TwoOrThree(r)
    case GeoMultiPolygon(parts) => forall q, r :: q in parts && r in q ==> TwoOrThree(r)
    case GeoOther(_) => true
  }

  function LeafOf(p: Position): Leaf
    requires |p| >= 2
  {
    Leaf(p[0], p[1], |p| > 2)
  }

  lemma PositionLeaf(p: Position)
    requires |p| >= 2
    ensures Leaves(PositionJson(p)) == [LeafOf(p)]
  {
  }

  /** The walk reaches every item of an array of arrays. */
  lemma {:induction false} LeavesReach(items: seq<Json>, i: nat, l: Leaf)
    requires i < |items| && l in Leaves(items[i])
    ensures l in LeavesOfAll(items)
  {
    if i > 0 {
      LeavesReach(items[1..], i - 1, l);
    }
  }

  lemma LeavesOfArrays(items: seq<Json>, i: nat, l: Leaf)
    requires i < |items| && l in Leaves(items[i])
    requires forall k :: 0 <= k < |items| ==> items[k].Array?
    ensures l in Leaves(Array(items))
  {
    LeavesReach(items, i, l);
  }

  lemma PositionsReach(ps: seq<Position>, i: nat)
    requires i < |ps| && |ps[i]| >= 2
    ensures LeafOf(ps[i]) in Leaves(PositionsJson(ps))
  {
    var items := Map(PositionJson, ps);
    assert items[i] == PositionJson(ps[i]);
    PositionLeaf(ps[i]);
    assert forall k :: 0 <= k < |items| ==> items[k] == PositionJson(ps[k]);
    LeavesOfArrays(items, i, LeafOf(ps[i]));
  }

  lemma RingsReach(rings: seq<seq<Position>>, i: nat, j: nat)
    requires i < |rings| && j < |rings[i]| && |rings[i][j]| >= 2
    ensures LeafOf(rings[i][j]) in Leaves(RingsJson(rings))
  {
    var items := Map(PositionsJson, rings);
    PositionsReach(rings[i], j);
    assert forall k :: 0 <= k < |items| ==> items[k] == PositionsJson(rings[k]);
    LeavesOfArrays(items, i, LeafOf(rings[i][j]));
  }

  lemma PartsReach(parts: seq<seq<seq<Position>>>, h: nat, i: nat, j: nat)
    requires h < |parts| && i < |parts[h]| && j < |parts[h][i]| && |parts[h][i][j]| >= 2
    ensures LeafOf(parts[h][i][j]) in Leaves(CoordinatesJson(GeoMultiPolygon(parts)))
  {
    var items := Map(RingsJson, parts);
    RingsReach(parts[h], i, j);
    assert forall k :: 0 <= k < |items| ==> items[k] == RingsJson(parts[k]);
    LeavesOfArrays(items, h, LeafOf(parts[h][i][j]));
  }

  predicate OnEarth(p: Position) {
    |p| == 2 && InBounds(p[0], p[1])
  }

  predicate AllOnEarth(ps: seq<Position>) {
    forall i :: 0 <= i < |ps| ==> OnEarth(ps[i])
  }

  predicate EveryPositionOnEarth(g: Geometry) {
    match g
    case GeoPoint(p) => OnEarth(p)
    case GeoMultiPoint(ps) => AllOnEarth(ps)
    case GeoPolygon(rings) => forall i :: 0 <= i < |rings| ==> AllOnEarth(rings[i])
    case GeoMultiPolygon(parts) => forall h, i :: 0 <= h < |parts| && 0 <= i < |parts[h]| ==> AllOnEarth(parts[h][i])
    case GeoOther(_) => true
  }

  /** An accepted geometry has only 2D positions within the bounds: the walks miss
      none. */
  lemma AcceptedOnEarth(g: Geometry)
    requires Parsed(g) && Validate(g) == Accepted
    ensures EveryPositionOnEarth(g)
  {
    match g
    case GeoOther(_) =>
    case GeoPoint(p) => PositionLeaf(p);
    case GeoMultiPoint(ps) =>
      forall i | 0 <= i < |ps| ensures OnEarth(ps[i]) {
        assert ps[i] in ps;
        PositionsReach(ps, i);
      }
    case GeoPolygon(rings) =>
      forall i, j | 0 <= i < |rings| && 0 <= j < |rings[i]| ensures OnEarth(rings[i][j]) {
        assert rings[i] in rings && rings[i][j] in rings[i];
        RingsReach(rings, i, j);
      }
    case GeoMultiPolygon(parts) =>
      forall h, i, j | 0 <= h < |parts| && 0 <= i < |parts[h]| && 0 <= j < |parts[h][i]| ensures OnEarth(parts[h][i][j]) {
        assert parts[h] in parts && parts[h][i] in parts[h] && parts[h][i][j] in parts[h][i];
        PartsReach(parts, h, i, j);
      }
  }

  // ---- Bounds on the lattice

  const LON_MAX: int := 1_800_000_000
  const LAT_MAX: int := 900_000_000

  predicate WorldPoint(p: Point) {
    -LON_MAX <= p.x <= LON_MAX && -LAT_MAX <= p.y <= LAT_MAX
  }

  lemma OnEarthIsWorldPoint(p: Position)
    requires OnEarth(p)
    ensures WorldPoint(OnLattice(p)) && PackablePoint(OnLattice(p))
  {
    QuantizeWhole(180);
    QuantizeWhole(-180);
    QuantizeWhole(90);
    QuantizeWhole(-90);
    QuantizeMonotone(-180.0, p[0]);
    QuantizeMonotone(p[0], 180.0);
    QuantizeMonotone(-90.0, p[1]);
    QuantizeMonotone(p[1], 90.0);
  }

  lemma MulLe(a: int, b: int, c: int)
    requires a <= b && c >= 0
    ensures a * c <= b * c
  {
    assert (b - a) * c >= 0;
  }

  lemma AbsProductBound(x: int, y: int, a: int, b: int)
    requires 0 <= x <= a && 0 <= y <= b
    ensures 0 <= x * y <= a * b
  {
    MulLe(0, x, y);
    MulLe(x, a, y);
    MulLe(y, b, a);
  }

  lemma ProductBound(x: int, y: int, a: int, b: int)
    requires -a <= x <= a && -b <= y <= b
    ensures -(a * b) <= x * y <= a * b
  {
    AbsProductBound(if x < 0 then -x else x, if y < 0 then -y else y, a, b);
    if x < 0 && y < 0 {
      assert (-x) * (-y) == x * y;
    } else if x < 0 {
      assert (-x) * y == -(x * y);
    } else if y < 0 {
      assert x * (-y) == -(x * y);
    }
  }

  /** Every shoelace term of an accepted ring fits int64. */
  lemma ShoelaceTermFits(p: Point, q: Point)
    requires WorldPoint(p) && WorldPoint(q)
    ensures INT8_MIN <= Cross(p, q) <= INT8_MAX
    ensures -2 * LON_MAX * LAT_MAX <= Cross(p, q) <= 2 * LON_MAX * LAT_MAX
  {
    ProductBound(p.x, q.y, LON_MAX, LAT_MAX);
    ProductBound(q.x, p.y, LON_MAX, LAT_MAX);
  }

  /** ... while the sum is bounded only by the number of vertices ... */
  lemma {:induction false} PathSumBound(s: Cycle)
    requires forall p :: p in s ==> WorldPoint(p)
    ensures -2 * LON_MAX * LAT_MAX * |s| <= PathSum(s) <= 2 * LON_MAX * LAT_MAX * |s|
  {
    if |s| > 1 {
      PathSumBound(s[..|s| - 1]);
      ShoelaceTermFits(s[|s| - 2], s[|s| - 1]);
    }
  }

  /** ... and four corners already overflow int64: exact arithmetic is needed. */
  lemma WorldRectangleOverflows()
    ensures var world := [Point(-LON_MAX, -LAT_MAX), Point(LON_MAX, -LAT_MAX), Point(LON_MAX, LAT_MAX), Point(-LON_MAX, LAT_MAX)];
            && (forall p :: p in world ==> WorldPoint(p))
            && Shoelace(world) > INT8_MAX
            && CanonCycle(world).Canonical?
  {
    var a, b, c, d := Point(-LON_MAX, -LAT_MAX), Point(LON_MAX, -LAT_MAX), Point(LON_MAX, LAT_MAX), Point(-LON_MAX, LAT_MAX);
    var world := [a, b, c, d];
    assert world[..3] == [a, b, c] && [a, b, c][..2] == [a, b] && [a, b][..1] == [a];
    assert PathSum([a]) == 0;
    assert PathSum([a, b]) == Cross(a, b);
    assert PathSum([a, b, c]) == Cross(a, b) + Cross(b, c);
    assert PathSum(world) == Cross(a, b) + Cross(b, c) + Cross(c, d);
    assert Reduced(world);
    DedupReduces(world);
  }

  // ---- No rejection but degeneracy

  predicate RingCountsFit(rings: seq<seq<Position>>) {
    |rings| <= INT4_MAX && forall i :: 0 <= i < |rings| ==> |rings[i]| <= INT4_MAX
  }

  predicate CountsFit(g: Geometry) {
    match g
    case GeoPoint(_) => true
    case GeoMultiPoint(ps) => |ps| <= INT4_MAX
    case GeoPolygon(rings) => RingCountsFit(rings)
    case GeoMultiPolygon(parts) => |parts| <= INT4_MAX && forall i :: 0 <= i < |parts| ==> RingCountsFit(parts[i])
    case GeoOther(_) => true
  }

  predicate PartsHaveRings(g: Geometry) {
    g.GeoMultiPolygon? ==> forall q :: q in g.parts ==> q != []
  }

  predicate OnlyDegenerate(r: Result<bytes>) {
    r.Err? ==> r.error.Degenerate()
  }

  lemma {:induction false} CollectError(rs: seq<Result<bytes>>) returns (i: nat)
    requires Collect(rs).Err?
    ensures i < |rs| && rs[i] == Err(Collect(rs).error)
  {
    if rs[0].Err? {
      i := 0;
    } else {
      var k := CollectError(rs[1..]);
      i := k + 1;
    }
  }

  lemma LatticePacks(ps: seq<Position>)
    requires AllOnEarth(ps)
    ensures FlatPositions(ps) && forall p :: p in LatticeRing(ps) ==> PackablePoint(p)
  {
    forall p | p in ps ensures |p| == 2 {
      var i :| 0 <= i < |ps| && ps[i] == p;
      assert OnEarth(ps[i]);
    }
    forall p | p in LatticeRing(ps) ensures PackablePoint(p) {
      var i :| 0 <= i < |ps| && LatticeRing(ps)[i] == p;
      OnEarthIsWorldPoint(ps[i]);
    }
  }

  lemma RingOnEarth(ring: seq<Position>)
    requires AllOnEarth(ring) && |ring| <= INT4_MAX
    ensures OnlyDegenerate(RingCode(ring))
  {
    LatticePacks(ring);
    RingCodeIsLattice(ring);
    CanonMembers(LatticeRing(ring));
  }

  lemma PolygonOnEarth(rings: seq<seq<Position>>)
    requires RingCountsFit(rings) && forall i :: 0 <= i < |rings| ==> AllOnEarth(rings[i])
    ensures rings == [] ==> PolygonBody(rings) == Err(NoRings)
    ensures rings != [] ==> OnlyDegenerate(PolygonBody(rings))
  {
    var codes: seq<Result<bytes>> := Map(RingCode, rings);
    CollectAll(codes);
    if Collect(codes).Err? {
      var i := CollectError(codes);
      RingOnEarth(rings[i]);
      assert codes[i] == RingCode(rings[i]);
    }
  }

  lemma PartsOnEarth(parts: seq<seq<seq<Position>>>)
    requires |parts| <= INT4_MAX && forall i :: 0 <= i < |parts| ==> RingCountsFit(parts[i])
    requires forall h, i :: 0 <= h < |parts| && 0 <= i < |parts[h]| ==> AllOnEarth(parts[h][i])
    ensures var r := Bodies(Map(PolygonBody, parts));
            && (r.Err? ==> r.error == NoRings || r.error.Degenerate())
            && ((forall q :: q in parts ==> q != []) ==> OnlyDegenerate(r))
            && (r.Ok? ==> forall q :: q in parts ==> q != [])
  {
    var codes: seq<Result<bytes>> := Map(PolygonBody, parts);
    CollectAll(codes);
    if Collect(codes).Err? {
      var i := CollectError(codes);
      PolygonOnEarth(parts[i]);
      assert codes[i] == PolygonBody(parts[i]) && parts[i] in parts;
    } else {
      forall q | q in parts ensures q != [] {
        var i :| 0 <= i < |parts| && parts[i] == q;
        assert codes[i].Ok? && codes[i] == PolygonBody(parts[i]);
      }
    }
  }

  lemma MembersOnEarth(ps: seq<Position>)
    requires AllOnEarth(ps) && |ps| <= INT4_MAX && ps != []
    ensures CanonicalBytes(GeoMultiPoint(ps)).Ok?
  {
    LatticePacks(ps);
    QuantizeAllIsLattice(ps);
    var qs := LatticeRing(ps);
    PointOrder();
    SortSorts(PointLe, qs);
    forall p | p in Sort(PointLe, qs) ensures PackablePoint(p) {
      assert p in multiset(Sort(PointLe, qs));
      assert p in qs;
    }
  }

  /** A geometry that passes the schema, with counts that fit int4, is serialized
      without overflow: the only thing that can still stop it is a multipolygon
      part without rings, which the schema's checks let through and the database
      rejects. */
  lemma AcceptedSerializes(g: Geometry)
    requires Parsed(g) && CountsFit(g) && Validate(g) == Accepted
    ensures CanonicalBytes(g).Ok? <==> PartsHaveRings(g)
    ensures CanonicalBytes(g).Err? ==> CanonicalBytes(g) == Err(NoRings)
  {
    AcceptedOnEarth(g);
    match g
    case GeoOther(_) =>
    case GeoPoint(p) => OnEarthIsWorldPoint(p);
    case GeoMultiPoint(ps) => MembersOnEarth(ps);
    case GeoPolygon(rings) => PolygonOnEarth(rings);
    case GeoMultiPolygon(parts) => PartsOnEarth(parts);
  }

  /** The gap is real: a multipolygon with an empty part beside a good one passes
      the schema and has no canonical bytes. */
  lemma EmptyPartPasses(good: seq<seq<Position>>)
    requires Validate(GeoPolygon(good)) == Accepted
    ensures Validate(GeoMultiPolygon([good, []])) == Accepted
    ensures CanonicalBytes(GeoMultiPolygon([good, []])).Err?
  {
    var g := GeoMultiPolygon([good, []]);
    var codes: seq<Result<bytes>> := Map(PolygonBody, [good, []]);
    assert codes[1] == PolygonBody([]) == Err(NoRings);
    CollectAll(codes);
    EmptyPartLeaves(good);
    EmptyPartError(good);
  }

  lemma EmptyPartLeaves(good: seq<seq<Position>>)
    requires Leaves(RingsJson(good)) != []
    ensures Leaves(CoordinatesJson(GeoMultiPolygon([good, []]))) == Leaves(RingsJson(good))
  {
    var items := Map(RingsJson, [good, []]);
    assert items == [RingsJson(good), RingsJson([])];
    assert items[1..] == [RingsJson([])] && items[1..][1..] == [];
    assert Leaves(RingsJson([])) == [];
    assert LeavesOfAll(items[1..]) == [];
    assert LeavesOfAll(items) == Leaves(RingsJson(good)) + [];
  }

  lemma EmptyPartError(good: seq<seq<Position>>)
    requires good != [] && (PolygonBody(good).Err? ==> !PolygonBody(good).error.Degenerate())
    ensures CanonicalBytes(GeoMultiPolygon([good, []])).Err?
    ensures !CanonicalBytes(GeoMultiPolygon([good, []])).error.Degenerate()
  {
    var codes: seq<Result<bytes>> := Map(PolygonBody, [good, []]);
    assert codes == [PolygonBody(good), PolygonBody([])];
    assert codes[1..] == [PolygonBody([])];
    CollectAll(codes);
    CollectAll(codes[1..]);
    var i := CollectError(codes);
  }
}
