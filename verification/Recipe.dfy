/** The identity recipe: from a geometry's coordinates to its canonical bytes,
    and why those bytes are a complete invariant of the shape drawn.
  */
module Recipe {
  import opened Orders
  import opened Quantization
  import opened Rings
  import opened Redrawing
  import opened Serialization

  // ---- Results

  datatype Error =
    | BadPosition                 // not a 2D pair
    | Unsupported(kind: string)
    | Empty
    | NoRings
    | CollapsedRing(count: nat)   // degenerate: fewer than 3 lattice vertices
    | ZeroAreaRing                // degenerate: exact zero shoelace
    | Overflow                    // does not fit the fixed-width integers
  {
    predicate Degenerate() {
      CollapsedRing? || ZeroAreaRing?
    }
  }

  datatype Result<+T> = Ok(value: T) | Err(error: Error)

  /** The list of values, or the first error in list order. */
  function Collect<T>(rs: seq<Result<T>>): Result<seq<T>> {
    if rs == [] then Ok([])
    else match rs[0]
      case Err(e) => Err(e)
      case Ok(v) =>
        match Collect(rs[1..])
        case Err(e) => Err(e)
        case Ok(vs) => Ok([v] + vs)
  }

  lemma {:induction false} CollectAll<T>(rs: seq<Result<T>>)
    ensures Collect(rs).Ok? <==> forall i :: 0 <= i < |rs| ==> rs[i].Ok?
    ensures Collect(rs).Ok? ==> |Collect(rs).value| == |rs|
    ensures Collect(rs).Ok? ==> forall i :: 0 <= i < |rs| ==> rs[i] == Ok(Collect(rs).value[i])
  {
    if rs != [] {
      CollectAll(rs[1..]);
      assert rs == [rs[0]] + rs[1..];
    }
  }

  function Map<T, U>(f: T -> U, s: seq<T>): (r: seq<U>)
    ensures |r| == |s|
  {
    seq(|s|, i requires 0 <= i < |s| => f(s[i]))
  }

  // ---- From lattice vertices to bytes

  function Pack(vertices: Cycle): Result<bytes> {
    if PackablePoints(vertices) then Ok(RingBytes(vertices)) else Err(Overflow)
  }

  function Verdict(r: RingResult): Result<Cycle> {
    match r
    case Canonical(vertices) => Ok(vertices)
    case Collapsed(n) => Err(CollapsedRing(n))
    case ZeroArea => Err(ZeroAreaRing)
  }

  /** Canonical bytes of a ring given by its lattice vertices. */
  function CycleCode(points: Cycle): Result<bytes> {
    match Verdict(CanonCycle(points))
    case Err(e) => Err(e)
    case Ok(vertices) => Pack(vertices)
  }

  /** A polygon's bytes from its rings' bytes: exterior first, holes sorted. */
  function Body(rings: seq<Result<bytes>>): Result<bytes> {
    if rings == [] then Err(NoRings)
    else match Collect(rings)
      case Err(e) => Err(e)
      case Ok(codes) =>
        if |codes| > INT4_MAX then Err(Overflow)
        else Ok(Int4(|codes|) + (codes[0] + Flatten(Sort(BytesLe, codes[1..]))))
  }

  /** A multipolygon's bytes from its parts' bytes. */
  function Bodies(parts: seq<Result<bytes>>): Result<bytes> {
    match Collect(parts)
    case Err(e) => Err(e)
    case Ok(bodies) =>
      if |bodies| > INT4_MAX then Err(Overflow)
      else Ok(Int4(|bodies|) + Flatten(Sort(BytesLe, bodies)))
  }

  function PolygonCode(rings: seq<Cycle>): Result<bytes> {
    Body(Map(CycleCode, rings))
  }

  function Tagged(tag: byte, body: Result<bytes>): Result<bytes> {
    match body
    case Err(e) => Err(e)
    case Ok(b) => Ok([VERSION, tag] + b)
  }

  /** Canonical bytes of a geometry already on the lattice. */
  function ShapeBytes(s: Shape): Result<bytes> {
    match s
    case PointShape(p) =>
      if PackablePoint(p) then Ok([VERSION, 1] + PointBytes(p)) else Err(Overflow)
    case MultiPointShape(ps) =>
      if ps == [] then Err(Empty) else Tagged(2, Pack(Sort(PointLe, ps)))
    case PolygonShape(rings) =>
      if rings == [] then Err(Empty) else Tagged(3, PolygonCode(rings))
    case MultiPolygonShape(parts) =>
      if parts == [] then Err(Empty) else Tagged(4, Bodies(Map(PolygonCode, parts)))
  }

  // ---- From coordinates

  type Position = seq<real>

  /** A GeoJSON geometry: its type and the coordinate array of that type. */
  datatype Geometry =
    | GeoPoint(position: Position)
    | GeoMultiPoint(positions: seq<Position>)
    | GeoPolygon(rings: seq<seq<Position>>)
    | GeoMultiPolygon(parts: seq<seq<seq<Position>>>)
    | GeoOther(kind: string)

  function QuantizePosition(p: Position): Result<Point> {
    if |p| != 2 then Err(BadPosition) else Ok(Point(Quantize(p[0]), Quantize(p[1])))
  }

  function QuantizeAll(ps: seq<Position>): Result<Cycle> {
    Collect(Map(QuantizePosition, ps))
  }

  /** `_canon_ring` */
  function CanonRing(ring: seq<Position>): Result<Cycle> {
    match QuantizeAll(ring)
    case Err(e) => Err(e)
    case Ok(points) => Verdict(CanonCycle(points))
  }

  /** `_ring_bytes(_canon_ring(ring))` */
  function RingCode(ring: seq<Position>): Result<bytes> {
    match CanonRing(ring)
    case Err(e) => Err(e)
    case Ok(vertices) => Pack(vertices)
  }

  /** `_polygon_body` */
  function PolygonBody(rings: seq<seq<Position>>): Result<bytes> {
    Body(Map(RingCode, rings))
  }

  /** `canonical_bytes` */
  function CanonicalBytes(g: Geometry): Result<bytes> {
    match g
    case GeoOther(kind) => Err(Unsupported(kind))
    case GeoPoint(p) =>
      if p == [] then Err(Empty)
      else (match QuantizePosition(p)
            case Err(e) => Err(e)
            case Ok(q) => if PackablePoint(q) then Ok([VERSION, 1] + PointBytes(q)) else Err(Overflow))
    case GeoMultiPoint(ps) =>
      if ps == [] then Err(Empty)
      else (match QuantizeAll(ps)
            case Err(e) => Err(e)
            case Ok(qs) => Tagged(2, Pack(Sort(PointLe, qs))))
    case GeoPolygon(rings) =>
      if rings == [] then Err(Empty) else Tagged(3, PolygonBody(rings))
    case GeoMultiPolygon(parts) =>
      if parts == [] then Err(Empty) else Tagged(4, Bodies(Map(PolygonBody, parts)))
  }

  // ---- The shape a geometry draws on the lattice

  predicate FlatPositions(ps: seq<Position>) {
    forall p :: p in ps ==> |p| == 2
  }

  predicate FlatRings(rings: seq<seq<Position>>) {
    forall r :: r in rings ==> FlatPositions(r)
  }

  predicate WellFormed(g: Geometry) {
    match g
    case GeoPoint(p) => |p| == 2
    case GeoMultiPoint(ps) => FlatPositions(ps)
    case GeoPolygon(rings) => FlatRings(rings)
    case GeoMultiPolygon(parts) => forall q :: q in parts ==> FlatRings(q)
    case GeoOther(_) => false
  }

  function OnLattice(p: Position): Point
    requires |p| == 2
  {
    Point(Quantize(p[0]), Quantize(p[1]))
  }

  function LatticeRing(ps: seq<Position>): (r: Cycle)
    requires FlatPositions(ps)
    ensures |r| == |ps|
  {
    seq(|ps|, i requires 0 <= i < |ps| => OnLattice(ps[i]))
  }

  function LatticeRings(rings: seq<seq<Position>>): (r: seq<Cycle>)
    requires FlatRings(rings)
    ensures |r| == |rings|
  {
    seq(|rings|, i requires 0 <= i < |rings| => LatticeRing(rings[i]))
  }

  function Drawn(g: Geometry): Shape
    requires WellFormed(g)
  {
    match g
    case GeoPoint(p) => PointShape(OnLattice(p))
    case GeoMultiPoint(ps) => MultiPointShape(LatticeRing(ps))
    case GeoPolygon(rings) => PolygonShape(LatticeRings(rings))
    case GeoMultiPolygon(parts) =>
      MultiPolygonShape(seq(|parts|, i requires 0 <= i < |parts| => LatticeRings(parts[i])))
  }

  lemma QuantizeAllIsLattice(ps: seq<Position>)
    ensures FlatPositions(ps) ==> QuantizeAll(ps) == Ok(LatticeRing(ps))
    ensures !FlatPositions(ps) ==> QuantizeAll(ps) == Err(BadPosition)
    decreases |ps|
  {
    var rs := Map(QuantizePosition, ps);
    CollectAll(rs);
    if FlatPositions(ps) {
      assert forall i :: 0 <= i < |rs| ==> rs[i] == Ok(OnLattice(ps[i]));
      assert Collect(rs).value == LatticeRing(ps);
    } else {
      OnlyBadPosition(rs);
      var p :| p in ps && |p| != 2;
      var i :| 0 <= i < |ps| && ps[i] == p;
      assert rs[i] == QuantizePosition(ps[i]) == Err(BadPosition);
    }
  }

  lemma {:induction false} OnlyBadPosition(rs: seq<Result<Point>>)
    requires forall i :: 0 <= i < |rs| && rs[i].Err? ==> rs[i] == Err(BadPosition)
    ensures Collect(rs).Err? ==> Collect(rs) == Err(BadPosition)
    decreases |rs|
  {
    if rs != [] {
      OnlyBadPosition(rs[1..]);
    }
  }

  lemma RingCodeIsLattice(ring: seq<Position>)
    ensures FlatPositions(ring) ==> RingCode(ring) == CycleCode(LatticeRing(ring))
    ensures !FlatPositions(ring) ==> RingCode(ring).Err?
  {
    QuantizeAllIsLattice(ring);
  }

  lemma PolygonBodyIsLattice(rings: seq<seq<Position>>)
    ensures FlatRings(rings) ==> PolygonBody(rings) == PolygonCode(LatticeRings(rings))
    ensures !FlatRings(rings) ==> PolygonBody(rings).Err?
  {
    var codes := Map(RingCode, rings);
    forall i | 0 <= i < |rings|
      ensures FlatPositions(rings[i]) ==> codes[i] == CycleCode(LatticeRing(rings[i]))
      ensures !FlatPositions(rings[i]) ==> codes[i].Err?
    {
      RingCodeIsLattice(rings[i]);
    }
    if FlatRings(rings) {
      assert codes == Map(CycleCode, LatticeRings(rings));
    } else {
      CollectAll(codes);
      var r :| r in rings && !FlatPositions(r);
      var i :| 0 <= i < |rings| && rings[i] == r;
      assert codes[i].Err?;
    }
  }

  /** The bytes depend on the coordinates only through the lattice shape drawn;
      a geometry that draws none has no bytes. */
  lemma BytesOfDrawing(g: Geometry)
    ensures WellFormed(g) ==> CanonicalBytes(g) == ShapeBytes(Drawn(g))
    ensures !WellFormed(g) ==> CanonicalBytes(g).Err?
  {
    match g
    case GeoOther(_) =>
    case GeoPoint(p) =>
    case GeoMultiPoint(ps) => QuantizeAllIsLattice(ps);
    case GeoPolygon(rings) => PolygonBodyIsLattice(rings);
    case GeoMultiPolygon(parts) =>
      var codes := Map(PolygonBody, parts);
      forall i | 0 <= i < |parts|
        ensures FlatRings(parts[i]) ==> codes[i] == PolygonCode(LatticeRings(parts[i]))
        ensures !FlatRings(parts[i]) ==> codes[i].Err?
      {
        PolygonBodyIsLattice(parts[i]);
      }
      if WellFormed(g) {
        assert codes == Map(PolygonCode, Drawn(g).parts);
      } else {
        CollectAll(codes);
        var q :| q in parts && !FlatRings(q);
        var i :| 0 <= i < |parts| && parts[i] == q;
        assert codes[i].Err?;
      }
  }
}
