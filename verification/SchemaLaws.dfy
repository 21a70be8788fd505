/** The schema's verdict told from the positions of the geometry: exactly which
    geometries it accepts, and which complaint the others get.
  */
module SchemaLaws {
  import opened Quantization
  import opened Recipe
  import opened Schema

  /** The geometry lists the position somewhere. */
  ghost predicate Lists(g: Geometry, p: Position) {
    match g
    case GeoPoint(q) => p == q
    case GeoMultiPoint(ps) => p in ps
    case GeoPolygon(rings) => exists r :: r in rings && p in r
    case GeoMultiPolygon(parts) => exists q, r :: q in parts && r in q && p in r
    case GeoOther(_) => false
  }

  lemma {:induction false} LeafIsSomewhere(items: seq<Json>, l: Leaf) returns (i: nat)
    requires l in LeavesOfAll(items)
    ensures i < |items| && l in Leaves(items[i])
  {
    if l in Leaves(items[0]) {
      i := 0;
    } else {
      i := LeafIsSomewhere(items[1..], l);
      i := i + 1;
    }
  }

  lemma ArrayLeaf(items: seq<Json>, l: Leaf) returns (i: nat)
    requires l in Leaves(Array(items)) && forall k :: 0 <= k < |items| ==> items[k].Array?
    ensures i < |items| && l in Leaves(items[i])
  {
    i := LeafIsSomewhere(items, l);
  }

  lemma LeafOfPositions(ps: seq<Position>, l: Leaf) returns (p: Position)
    requires l in Leaves(PositionsJson(ps)) && TwoOrThree(ps)
    ensures p in ps && |p| >= 2 && l == LeafOf(p)
  {
    var i := ArrayLeaf(Map(PositionJson, ps), l);
    p := ps[i];
    assert p in ps;
    PositionLeaf(p);
  }

  lemma LeafOfRings(rings: seq<seq<Position>>, l: Leaf) returns (r: seq<Position>, p: Position)
    requires l in Leaves(RingsJson(rings)) && forall r :: r in rings ==> TwoOrThree(r)
    ensures r in rings && p in r && |p| >= 2 && l == LeafOf(p)
  {
    var i := ArrayLeaf(Map(PositionsJson, rings), l);
    r := rings[i];
    assert r in rings;
    p := LeafOfPositions(r, l);
  }

  /** The walk yields a listed position for every leaf, and a leaf for every listed
      position. */
  lemma WalkIsExact(g: Geometry, l: Leaf)
    requires Parsed(g)
    ensures l in Leaves(CoordinatesJson(g)) <==> exists p :: Lists(g, p) && |p| >= 2 && l == LeafOf(p)
  {
    if l in Leaves(CoordinatesJson(g)) {
      LeafIsListed(g, l);
    }
    forall p | Lists(g, p) && |p| >= 2 && l == LeafOf(p) ensures l in Leaves(CoordinatesJson(g)) {
      ListedIsLeaf(g, p);
    }
  }

  lemma LeafIsListed(g: Geometry, l: Leaf)
    requires Parsed(g) && l in Leaves(CoordinatesJson(g))
    ensures exists p :: Lists(g, p) && |p| >= 2 && l == LeafOf(p)
  {
    match g
    case GeoOther(_) =>
    case GeoPoint(p) =>
      PositionLeaf(p);
      assert Lists(g, p);
    case GeoMultiPoint(ps) =>
      var p := LeafOfPositions(ps, l);
      assert Lists(g, p);
    case GeoPolygon(rings) =>
      var r, p := LeafOfRings(rings, l);
      assert Lists(g, p);
    case GeoMultiPolygon(parts) =>
      var i := ArrayLeaf(Map(RingsJson, parts), l);
      assert parts[i] in parts;
      var r, p := LeafOfRings(parts[i], l);
      assert Lists(g, p);
  }

  lemma ListedIsLeaf(g: Geometry, p: Position)
    requires Parsed(g) && Lists(g, p)
    ensures |p| >= 2 && LeafOf(p) in Leaves(CoordinatesJson(g))
  {
    match g
    case GeoPoint(_) =>
      PositionLeaf(p);
    case GeoMultiPoint(ps) =>
      var i :| 0 <= i < |ps| && ps[i] == p;
      PositionsReach(ps, i);
    case GeoPolygon(rings) =>
      var r :| r in rings && p in r;
      var i :| 0 <= i < |rings| && rings[i] == r;
      var j :| 0 <= j < |r| && r[j] == p;
      RingsReach(rings, i, j);
    case GeoMultiPolygon(parts) =>
      var q, r :| q in parts && r in q && p in r;
      var h :| 0 <= h < |parts| && parts[h] == q;
      var i :| 0 <= i < |q| && q[i] == r;
      var j :| 0 <= j < |r| && r[j] == p;
      PartsReach(parts, h, i, j);
  }

  ghost predicate Empty(g: Geometry) {
    forall p :: !Lists(g, p)
  }

  ghost predicate Flat(g: Geometry) {
    forall p :: Lists(g, p) ==> |p| == 2
  }

  /** Longitude within 180 degrees, latitude within 90. */
  ghost predicate WithinWorld(g: Geometry) {
    forall p :: Lists(g, p) && |p| >= 2 ==> -180.0 <= p[0] <= 180.0 && -90.0 <= p[1] <= 90.0
  }

  /** A ring of the geometry collapses or has no area on the lattice. */
  predicate Degenerates(g: Geometry) {
    CanonicalBytes(g).Err? && (CanonicalBytes(g).error.CollapsedRing? || CanonicalBytes(g).error.ZeroAreaRing?)
  }

  lemma VerdictFromLeaves(g: Geometry)
    requires Parsed(g)
    ensures Leaves(CoordinatesJson(g)) == [] <==> Empty(g)
    ensures (exists l :: l in Leaves(CoordinatesJson(g)) && l.more) <==> !Flat(g)
    ensures (exists l :: l in Leaves(CoordinatesJson(g)) && !InBounds(l.lon, l.lat)) <==> !WithinWorld(g)
  {
    var leaves := Leaves(CoordinatesJson(g));
    hide Lists, Leaves;
    if leaves != [] {
      ListedFor(g, leaves[0]);
    }
    if l :| l in leaves && l.more {
      ListedFor(g, l);
    }
    if l :| l in leaves && !InBounds(l.lon, l.lat) {
      ListedFor(g, l);
    }
    if p :| Lists(g, p) {
      ListedIsLeaf(g, p);
    }
    if p :| Lists(g, p) && |p| != 2 {
      ListedIsLeaf(g, p);
    }
    if p :| Lists(g, p) && |p| >= 2 && !(-180.0 <= p[0] <= 180.0 && -90.0 <= p[1] <= 90.0) {
      ListedIsLeaf(g, p);
    }
  }

  lemma ListedFor(g: Geometry, l: Leaf)
    requires Parsed(g) && l in Leaves(CoordinatesJson(g))
    ensures !Empty(g) && (l.more ==> !Flat(g)) && (!InBounds(l.lon, l.lat) ==> !WithinWorld(g))
  {
    LeafIsListed(g, l);
    hide Lists, Leaves;
    var p :| Lists(g, p) && |p| >= 2 && l == LeafOf(p);
  }

  /** Each verdict exactly when, in the order the checks are made. In particular a
      geometry that lists a position, only flat ones, all within the world, and does
      not degenerate is accepted. */
  lemma VerdictExactly(g: Geometry)
    requires Parsed(g)
    ensures Validate(g) == NoCoordinates <==> Empty(g)
    ensures Validate(g) == HasZ <==> !Empty(g) && !Flat(g)
    ensures Validate(g) == OutOfBounds <==> !Empty(g) && Flat(g) && !WithinWorld(g)
    ensures Validate(g) == DegenerateGeometry <==> !Empty(g) && Flat(g) && WithinWorld(g) && Degenerates(g)
    ensures Validate(g) == Accepted <==> !Empty(g) && Flat(g) && WithinWorld(g) && !Degenerates(g)
  {
    VerdictFromLeaves(g);
    hide Empty, Flat, WithinWorld, CanonicalBytes, Leaves;
  }
}
