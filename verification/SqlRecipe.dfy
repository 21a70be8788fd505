/** The database's `geoid_canonical_bytes_v2` on whole geometries, proved to give
    the reference's bytes. The aggregates without ORDER BY list their rows in an
    arbitrary order, passed in as `arrange`.
  */
module SqlRecipe {
  import opened Orders
  import opened Quantization
  import opened Rings
  import opened Serialization
  import opened Recipe
  import opened RingProcedures

  datatype SqlGeometry =
    | SqlPoint(c: Coordinate)
    | SqlMultiPoint(cs: seq<Coordinate>)
    | SqlPolygon(rings: seq<seq<Coordinate>>)
    | SqlMultiPolygon(parts: seq<seq<seq<Coordinate>>>)
    | SqlOther(kind: string)

  function Listings(rings: seq<seq<Coordinate>>): (r: seq<seq<Position>>)
    ensures |r| == |rings|
  {
    seq(|rings|, i requires 0 <= i < |rings| => Listing(rings[i]))
  }

  /** The GeoJSON geometry it was parsed from. */
  function AsGeoJson(g: SqlGeometry): Geometry {
    match g
    case SqlPoint(c) => GeoPoint([c.x, c.y])
    case SqlMultiPoint(cs) => GeoMultiPoint(Listing(cs))
    case SqlPolygon(rings) => GeoPolygon(Listings(rings))
    case SqlMultiPolygon(parts) =>
      GeoMultiPolygon(seq(|parts|, i requires 0 <= i < |parts| => Listings(parts[i])))
    case SqlOther(kind) => GeoOther(kind)
  }

  /** ST_IsEmpty */
  predicate IsEmpty(g: SqlGeometry) {
    match g
    case SqlPoint(_) => false
    case SqlMultiPoint(cs) => cs == []
    case SqlPolygon(rings) => rings == []
    case SqlMultiPolygon(parts) => forall q :: q in parts ==> q == []
    case SqlOther(_) => false
  }

  predicate RingsFit(rings: seq<seq<Coordinate>>) {
    |rings| <= INT4_MAX && forall r :: r in rings ==> |r| <= INT4_MAX
  }

  /** Every count fits the int4 in which PostgreSQL keeps it. */
  predicate CountsFit(g: SqlGeometry) {
    match g
    case SqlPoint(_) => true
    case SqlMultiPoint(cs) => |cs| <= INT4_MAX
    case SqlPolygon(rings) => RingsFit(rings)
    case SqlMultiPolygon(parts) => |parts| <= INT4_MAX && forall q :: q in parts ==> RingsFit(q)
    case SqlOther(_) => true
  }

  /** The same acceptance, and the same bytes when accepted. */
  predicate Agree<T(==)>(sql: Result<T>, python: Result<T>) {
    && (sql.Ok? <==> python.Ok?)
    && (sql.Ok? ==> sql == python)
  }

  method RingInSql(ring: seq<Coordinate>, arrange: seq<int> -> seq<int>) returns (r: Result<bytes>)
    requires Arrangement(arrange) && |ring| <= INT4_MAX
    ensures Agree(r, RingCode(Listing(ring)))
  {
    r := CanonRingInSql(ring, arrange);
    if RingCode(Listing(ring)).Ok? {
      UnpackableStays(ring);
    }
  }

  /** The values so far: each is the accepted result in its place. */
  ghost predicate Prefix(rs: seq<Result<bytes>>, done: seq<bytes>) {
    |done| <= |rs| && forall i :: 0 <= i < |done| ==> rs[i] == Ok(done[i])
  }

  lemma PrefixNext(rs: seq<Result<bytes>>, done: seq<bytes>, v: bytes)
    requires Prefix(rs, done) && |done| < |rs| && rs[|done|] == Ok(v)
    ensures Prefix(rs, done + [v])
  {
  }

  lemma Collected(rs: seq<Result<bytes>>, codes: seq<bytes>)
    requires Prefix(rs, codes) && |rs| == |codes|
    ensures Collect(rs) == Ok(codes)
  {
    CollectAll(rs);
    assert codes == Collect(rs).value;
  }

  lemma Rejected(rs: seq<Result<bytes>>, i: nat)
    requires i < |rs| && rs[i].Err?
    ensures Collect(rs).Err? && Body(rs).Err? && Bodies(rs).Err?
  {
    CollectAll(rs);
  }

  /** The bytes of every ring of a polygon, or the first error. */
  method RingsInSql(rings: seq<seq<Coordinate>>, arrange: seq<int> -> seq<int>) returns (codes: Result<seq<bytes>>)
    requires Arrangement(arrange) && RingsFit(rings)
    ensures Agree(codes, Collect(Map(RingCode, Listings(rings))))
  {
    ghost var reference: seq<Result<bytes>> := Map(RingCode, Listings(rings));
    var done: seq<bytes> := [];
    for gs := 0 to |rings|
      invariant |done| == gs && Prefix(reference, done)
    {
      assert rings[gs] in rings;
      var rb := RingInSql(rings[gs], arrange);
      assert reference[gs] == RingCode(Listing(rings[gs]));
      if rb.Err? {
        Rejected(reference, gs);
        return Err(rb.error);
      }
      PrefixNext(reference, done, rb.value);
      done := done + [rb.value];
    }
    Collected(reference, done);
    return Ok(done);
  }

  /** `geoid_canon_polygon_body_v2`. The exterior of an empty polygon is an empty
      linestring, which collapses; the reference reports it as having no rings. */
  method PolygonBodyInSql(rings: seq<seq<Coordinate>>, arrange: seq<int> -> seq<int>) returns (r: Result<bytes>)
    requires Arrangement(arrange) && RingsFit(rings)
    ensures Agree(r, PolygonBody(Listings(rings)))
  {
    if rings == [] {
      return Err(CollapsedRing(0));
    }
    var all := RingsInSql(rings, arrange);
    CollectAll(Map(RingCode, Listings(rings)));
    match all
    case Err(e) => return Err(e);
    case Ok(codes) =>
      return Ok(Int4(|rings|) + (codes[0] + Flatten(Sort(BytesLe, codes[1..]))));
  }

  /** The bytes of every part, or the first error. */
  method PartsInSql(parts: seq<seq<seq<Coordinate>>>, arrange: seq<int> -> seq<int>) returns (codes: Result<seq<bytes>>)
    requires Arrangement(arrange) && forall q :: q in parts ==> RingsFit(q)
    ensures Agree(codes, Collect(Map(PolygonBody, AsGeoJson(SqlMultiPolygon(parts)).parts)))
  {
    ghost var reference: seq<Result<bytes>> := Map(PolygonBody, AsGeoJson(SqlMultiPolygon(parts)).parts);
    var done: seq<bytes> := [];
    for gs := 0 to |parts|
      invariant |done| == gs && Prefix(reference, done)
    {
      assert parts[gs] in parts;
      var pb := PolygonBodyInSql(parts[gs], arrange);
      assert reference[gs] == PolygonBody(Listings(parts[gs]));
      if pb.Err? {
        Rejected(reference, gs);
        return Err(pb.error);
      }
      PrefixNext(reference, done, pb.value);
      done := done + [pb.value];
    }
    Collected(reference, done);
    return Ok(done);
  }

  /** The MULTIPOLYGON branch: bodies in byte order. */
  method BodiesInSql(parts: seq<seq<seq<Coordinate>>>, arrange: seq<int> -> seq<int>) returns (r: Result<bytes>)
    requires Arrangement(arrange) && |parts| <= INT4_MAX && forall q :: q in parts ==> RingsFit(q)
    ensures Agree(r, Bodies(Map(PolygonBody, AsGeoJson(SqlMultiPolygon(parts)).parts)))
  {
    var all := PartsInSql(parts, arrange);
    CollectAll(Map(PolygonBody, AsGeoJson(SqlMultiPolygon(parts)).parts));
    match all
    case Err(e) => return Err(e);
    case Ok(codes) => return Ok(Int4(|parts|) + Flatten(Sort(BytesLe, codes)));
  }

  lemma SortedMembers(points: seq<Point>)
    ensures |Sort(PointLe, points)| == |points|
    ensures forall i :: 0 <= i < |points| ==> points[i] in Sort(PointLe, points)
    ensures forall p :: p in Sort(PointLe, points) ==> p in points
  {
    PointOrder();
    SortSorts(PointLe, points);
    forall i | 0 <= i < |points| ensures points[i] in Sort(PointLe, points) {
      assert points[i] in multiset(points);
    }
    forall p | p in Sort(PointLe, points) ensures p in points {
      assert p in multiset(Sort(PointLe, points));
    }
  }

  lemma PackedMembers(cs: seq<Coordinate>)
    requires |cs| <= INT4_MAX
    ensures PackablePoints(Sort(PointLe, LatticeRing(Listing(cs)))) <==> CastsToBigint(cs)
  {
    var points := LatticeRing(Listing(cs));
    SortedMembers(points);
    if CastsToBigint(cs) {
      forall p | p in points ensures PackablePoint(p) {
        var i :| 0 <= i < |points| && points[i] == p;
      }
    } else {
      var i :| 0 <= i < |cs| && !(Bigint(Quantize(cs[i].x)) && Bigint(Quantize(cs[i].y)));
      assert points[i] in Sort(PointLe, points) && !PackablePoint(points[i]);
    }
  }

  /** The MULTIPOINT branch: members in (x, y) order, duplicates kept. */
  method MembersInSql(cs: seq<Coordinate>) returns (r: Result<bytes>)
    requires |cs| <= INT4_MAX
    ensures r == match QuantizeAll(Listing(cs)) case Err(e) => Err(e) case Ok(qs) => Pack(Sort(PointLe, qs))
  {
    QuantizeAllIsLattice(Listing(cs));
    PackedMembers(cs);
    if !CastsToBigint(cs) {
      return Err(Overflow);
    }
    return Ok(RingBytes(Sort(PointLe, QuantizedInSql(cs))));
  }

  /** `geoid_canonical_bytes_v2`: the bytes the database hashes are the bytes of
      the reference, for every geometry whose counts fit int4. */
  method CanonicalBytesInSql(g: SqlGeometry, arrange: seq<int> -> seq<int>) returns (r: Result<bytes>)
    requires Arrangement(arrange) && CountsFit(g)
    ensures Agree(r, CanonicalBytes(AsGeoJson(g)))
  {
    if IsEmpty(g) {
      if g.SqlMultiPolygon? && g.parts != [] {
        ghost var parts := AsGeoJson(g).parts;
        assert g.parts[0] in g.parts && parts[0] == [];
        assert Map(PolygonBody, parts)[0] == PolygonBody(parts[0]) == Err(NoRings);
        Rejected(Map(PolygonBody, parts), 0);
      }
      return Err(Empty);
    }
    match g
    case SqlOther(kind) =>
      return Err(Unsupported(kind));
    case SqlPoint(c) =>
      var p := Point(Quantize(c.x), Quantize(c.y));
      return if PackablePoint(p) then Ok([VERSION, 1] + (Int8(p.x) + Int8(p.y))) else Err(Overflow);
    case SqlMultiPoint(cs) =>
      var members := MembersInSql(cs);
      return Tagged(2, members);
    case SqlPolygon(rings) =>
      var body := PolygonBodyInSql(rings, arrange);
      return Tagged(3, body);
    case SqlMultiPolygon(parts) =>
      var bodies := BodiesInSql(parts, arrange);
      return Tagged(4, bodies);
  }
}
