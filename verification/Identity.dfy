/** The canonical bytes are a complete invariant: two accepted geometries get
    equal bytes exactly when they draw the same shape on the lattice, up to start
    vertex, winding, repeated vertices, hole order, part order and member order.
  */
module Identity {
  import opened Orders
  import opened Rings
  import opened Redrawing
  import opened Serialization
  import opened Recipe

  // ---- Sameness of shapes, without canonicalization

  function Without<T>(s: seq<T>, j: nat): seq<T>
    requires j < |s|
  {
    s[..j] + s[j + 1..]
  }

  /** The elements of a and b can be paired off, each with one the same as it. */
  ghost predicate Paired<T(!new)>(same: (T, T) -> bool, a: seq<T>, b: seq<T>)
    decreases |a|
  {
    if a == [] then b == []
    else exists j {:trigger Without(b, j)} :: 0 <= j < |b| && same(a[0], b[j]) && Paired(same, a[1..], Without(b, j))
  }

  /** Same exterior, same holes in any order. */
  ghost predicate SamePolygon(a: seq<Cycle>, b: seq<Cycle>) {
    if a == [] || b == [] then a == b
    else Redrawn(a[0], b[0]) && Paired(Redrawn, a[1..], b[1..])
  }

  /** Same type, same parts or members in any order, each as often. */
  ghost predicate SameShape(s: Shape, t: Shape) {
    match (s, t)
    case (PointShape(p), PointShape(q)) => p == q
    case (MultiPointShape(ps), MultiPointShape(qs)) => multiset(ps) == multiset(qs)
    case (PolygonShape(a), PolygonShape(b)) => SamePolygon(a, b)
    case (MultiPolygonShape(a), MultiPolygonShape(b)) => Paired(SamePolygon, a, b)
    case _ => false
  }

  // ---- Pairing off is equality of multisets of codes

  lemma MultisetWithout<T>(s: seq<T>, j: nat)
    requires j < |s|
    ensures multiset(s) == multiset(Without(s, j)) + multiset{s[j]}
  {
    assert s == s[..j] + [s[j]] + s[j + 1..];
  }

  lemma {:induction false} PairedSameCodes<T(!new), C>(same: (T, T) -> bool, a: seq<T>, b: seq<T>, ca: seq<C>,
        cb: seq<C>)
    requires |ca| == |a| && |cb| == |b|
    requires forall i, j :: 0 <= i < |a| && 0 <= j < |b| && same(a[i], b[j]) ==> ca[i] == cb[j]
    requires Paired(same, a, b)
    ensures multiset(ca) == multiset(cb)
    decreases |a|
  {
    if a != [] {
      var j :| 0 <= j < |b| && same(a[0], b[j]) && Paired(same, a[1..], Without(b, j));
      PairedSameCodes(same, a[1..], Without(b, j), ca[1..], Without(cb, j));
      MultisetTail(ca);
      MultisetWithout(cb, j);
    }
  }

  lemma {:induction false} SameCodesPaired<T(!new), C>(same: (T, T) -> bool, a: seq<T>, b: seq<T>, ca: seq<C>,
        cb: seq<C>)
    requires |ca| == |a| && |cb| == |b|
    requires forall i, j :: 0 <= i < |a| && 0 <= j < |b| && ca[i] == cb[j] ==> same(a[i], b[j])
    requires multiset(ca) == multiset(cb)
    ensures Paired(same, a, b)
    decreases |a|
  {
    if a == [] {
      assert |multiset(cb)| == |cb|;
    } else {
      assert ca[0] in multiset(ca);
      var j :| 0 <= j < |cb| && cb[j] == ca[0];
      MultisetTail(ca);
      MultisetWithout(cb, j);
      SameCodesPaired(same, a[1..], Without(b, j), ca[1..], Without(cb, j));
    }
  }

  /** Collecting succeeds or fails whatever the order. */
  lemma CollectAnyOrder(ra: seq<Result<bytes>>, rb: seq<Result<bytes>>)
    requires multiset(ra) == multiset(rb)
    ensures Collect(ra).Ok? <==> Collect(rb).Ok?
    ensures Collect(ra).Ok? ==> multiset(Collect(ra).value) == multiset(Collect(rb).value)
  {
    CollectAll(ra);
    CollectAll(rb);
    if !Collect(ra).Ok? {
      var i :| 0 <= i < |ra| && ra[i].Err?;
      assert ra[i] in multiset(rb);
      var k :| 0 <= k < |rb| && rb[k] == ra[i];
    } else {
      forall k | 0 <= k < |rb| ensures rb[k].Ok? {
        assert rb[k] in multiset(ra);
      }
      CollectMultiset(ra, rb);
    }
  }

  lemma {:induction false} CollectMultiset(ra: seq<Result<bytes>>, rb: seq<Result<bytes>>)
    requires multiset(ra) == multiset(rb) && Collect(ra).Ok? && Collect(rb).Ok?
    ensures multiset(Collect(ra).value) == multiset(Collect(rb).value)
  {
    var va, vb := Collect(ra).value, Collect(rb).value;
    CollectAll(ra);
    CollectAll(rb);
    SameCodesPaired((x: Result<bytes>, y: Result<bytes>) => x == y, ra, rb, ra, rb);
    PairedSameCodes((x: Result<bytes>, y: Result<bytes>) => x == y, ra, rb, va, vb);
  }

  // ---- Rings

  /** Same ring, same verdict and same bytes. */
  lemma RedrawnSameCode(p: Cycle, q: Cycle)
    requires Redrawn(p, q)
    ensures CycleCode(p) == CycleCode(q)
  {
    RedrawnIffSameRing(p, q);
    SameRingSameResult(p, q);
  }

  lemma RingBytesInjective(a: Cycle, b: Cycle)
    requires PackablePoints(a) && PackablePoints(b) && RingBytes(a) == RingBytes(b)
    ensures a == b
  {
    ReadRingOf(a, []);
    ReadRingOf(b, []);
  }

  lemma CycleCodeComplete(p: Cycle, q: Cycle)
    requires CycleCode(p).Ok? && CycleCode(q).Ok?
    ensures CycleCode(p) == CycleCode(q) <==> Redrawn(p, q)
  {
    RedrawnIffSameRing(p, q);
    RingCompleteInvariant(p, q);
    if CycleCode(p) == CycleCode(q) {
      RingBytesInjective(CanonCycle(p).vertices, CanonCycle(q).vertices);
    }
  }

  function RingOf(code: bytes): Cycle {
    match ReadRing(code)
    case Bad => []
    case Got(c, _) => c
  }

  ghost predicate IsRingCode(code: bytes) {
    PackablePoints(RingOf(code)) && RingBytes(RingOf(code)) == code
  }

  /** A ring's code is the code of the ring it decodes to. */
  lemma CycleCodeDecodes(p: Cycle)
    requires CycleCode(p).Ok?
    ensures IsRingCode(CycleCode(p).value)
    ensures CycleCode(RingOf(CycleCode(p).value)) == CycleCode(p)
    ensures RingOf(CycleCode(p).value) == CanonCycle(p).vertices
  {
    var c := CanonCycle(p).vertices;
    ReadRingOf(c, []);
    assert RingBytes(c) + [] == RingBytes(c);
    CanonNormalForm(p);
  }

  lemma {:induction false} FlattenRings(codes: seq<bytes>)
    requires forall c :: c in codes ==> IsRingCode(c)
    ensures forall r :: r in Map(RingOf, codes) ==> PackablePoints(r)
    ensures RingsBytes(Map(RingOf, codes)) == Flatten(codes)
    decreases |codes|
  {
    var rings := Map(RingOf, codes);
    forall i | 0 <= i < |rings| ensures PackablePoints(rings[i]) {
      assert codes[i] in codes;
    }
    if codes != [] {
      assert codes[0] in codes;
      FlattenRings(codes[1..]);
      assert rings[1..] == Map(RingOf, codes[1..]);
    }
  }

  // ---- Polygons

  /** The rings a polygon code lists: exterior, then holes in code order. */
  function CanonRings(codes: seq<bytes>): seq<Cycle>
    requires codes != []
  {
    [RingOf(codes[0])] + Map(RingOf, Sort(BytesLe, codes[1..]))
  }

  lemma BodyIsPolygon(codes: seq<bytes>)
    requires codes != [] && |codes| <= INT4_MAX && forall c :: c in codes ==> IsRingCode(c)
    ensures PackablePolygon(CanonRings(codes))
    ensures PolygonBytes(CanonRings(codes)) == Int4(|codes|) + (codes[0] + Flatten(Sort(BytesLe, codes[1..])))
    ensures |CanonRings(codes)| == |codes|
  {
    var holes, rings := Sort(BytesLe, codes[1..]), CanonRings(codes);
    BytesOrder();
    SortSorts(BytesLe, codes[1..]);
    forall c | c in holes ensures IsRingCode(c) {
      assert c in multiset(holes);
      assert c in codes[1..];
    }
    FlattenRings(holes);
    assert codes[0] in codes;
    assert rings[1..] == Map(RingOf, holes);
  }

  lemma RingCodes(rings: seq<Cycle>)
    requires Collect(Map(CycleCode, rings)).Ok?
    ensures var codes := Collect(Map(CycleCode, rings)).value;
            && |codes| == |rings|
            && (forall i :: 0 <= i < |rings| ==> CycleCode(rings[i]) == Ok(codes[i]))
            && (forall c :: c in codes ==> IsRingCode(c) && CycleCode(RingOf(c)) == Ok(c))
  {
    var rs: seq<Result<bytes>> := Map(CycleCode, rings);
    CollectAll(rs);
    forall i | 0 <= i < |rings|
      ensures var c := Collect(rs).value[i]; rs[i] == Ok(c) && IsRingCode(c) && CycleCode(RingOf(c)) == Ok(c)
    {
      assert rs[i].Ok? && rs[i] == CycleCode(rings[i]);
      CycleCodeDecodes(rings[i]);
    }
  }

  /** Equal bodies: equal exteriors and the same holes, each as often. */
  lemma BodyInjective(ca: seq<bytes>, cb: seq<bytes>)
    requires ca != [] && |ca| <= INT4_MAX && forall c :: c in ca ==> IsRingCode(c)
    requires cb != [] && |cb| <= INT4_MAX && forall c :: c in cb ==> IsRingCode(c)
    ensures Int4(|ca|) + (ca[0] + Flatten(Sort(BytesLe, ca[1..]))) == Int4(|cb|) + (cb[0] + Flatten(Sort(BytesLe, cb[1..])))
            <==> ca[0] == cb[0] && multiset(ca[1..]) == multiset(cb[1..])
  {
    BytesOrder();
    SortForgetsOrder(BytesLe, ca[1..], cb[1..]);
    BodyIsPolygon(ca);
    BodyIsPolygon(cb);
    var ra, rb := CanonRings(ca), CanonRings(cb);
    if PolygonBytes(ra) == PolygonBytes(rb) {
      ReadPolygonOf(ra, []);
      ReadPolygonOf(rb, []);
      assert ra == rb;
      SortedCodesFromRings(ca, cb);
    }
    if multiset(ca[1..]) == multiset(cb[1..]) {
      assert |multiset(ca[1..])| == |ca[1..]| && |multiset(cb[1..])| == |cb[1..]|;
    }
  }

  lemma SortedRingCodes(codes: seq<bytes>)
    requires forall c :: c in codes ==> IsRingCode(c)
    ensures forall c :: c in Sort(BytesLe, codes) ==> IsRingCode(c)
  {
    BytesOrder();
    SortSorts(BytesLe, codes);
    forall c | c in Sort(BytesLe, codes) ensures IsRingCode(c) {
      assert c in multiset(Sort(BytesLe, codes));
    }
  }

  lemma RingOfInjective(a: seq<bytes>, b: seq<bytes>)
    requires forall c :: c in a ==> IsRingCode(c)
    requires forall c :: c in b ==> IsRingCode(c)
    requires Map(RingOf, a) == Map(RingOf, b)
    ensures a == b
  {
    assert |a| == |Map(RingOf, a)| == |Map(RingOf, b)| == |b|;
    forall i | 0 <= i < |a| ensures a[i] == b[i] {
      assert Map(RingOf, a)[i] == RingOf(a[i]) && Map(RingOf, b)[i] == RingOf(b[i]);
      assert IsRingCode(a[i]) && IsRingCode(b[i]);
    }
  }

  lemma SortedCodesFromRings(ca: seq<bytes>, cb: seq<bytes>)
    requires ca != [] && forall c :: c in ca ==> IsRingCode(c)
    requires cb != [] && forall c :: c in cb ==> IsRingCode(c)
    requires CanonRings(ca) == CanonRings(cb)
    ensures ca[0] == cb[0] && Sort(BytesLe, ca[1..]) == Sort(BytesLe, cb[1..])
  {
    var ra, rb := CanonRings(ca), CanonRings(cb);
    assert ra[0] == RingOf(ca[0]) && rb[0] == RingOf(cb[0]);
    assert IsRingCode(ca[0]) && IsRingCode(cb[0]);
    SortedRingCodes(ca[1..]);
    SortedRingCodes(cb[1..]);
    assert ra[1..] == Map(RingOf, Sort(BytesLe, ca[1..]));
    assert rb[1..] == Map(RingOf, Sort(BytesLe, cb[1..]));
    RingOfInjective(Sort(BytesLe, ca[1..]), Sort(BytesLe, cb[1..]));
  }

  lemma CollectCons(rs: seq<Result<bytes>>)
    requires rs != []
    ensures Collect(rs).Ok? <==> rs[0].Ok? && Collect(rs[1..]).Ok?
    ensures Collect(rs).Ok? ==> Collect(rs).value[0] == rs[0].value && Collect(rs).value[1..] == Collect(rs[1..]).value
    ensures Collect(rs).Ok? ==> |Collect(rs).value| == |rs|
  {
    CollectAll(rs);
  }

  /** The body forgets the order of the holes. */
  lemma BodyAnyHoleOrder(ra: seq<Result<bytes>>, rb: seq<Result<bytes>>)
    requires ra != [] && rb != [] && ra[0] == rb[0] && multiset(ra[1..]) == multiset(rb[1..])
    ensures Body(ra).Ok? <==> Body(rb).Ok?
    ensures Body(ra).Ok? ==> Body(ra) == Body(rb)
  {
    hide Sort, Flatten;
    CollectAnyOrder(ra[1..], rb[1..]);
    CollectCons(ra);
    CollectCons(rb);
    assert |ra[1..]| == |multiset(ra[1..])| == |multiset(rb[1..])| == |rb[1..]|;
    if Collect(ra).Ok? {
      BytesOrder();
      SortForgetsOrder(BytesLe, Collect(ra).value[1..], Collect(rb).value[1..]);
    }
  }

  lemma PairedRingsSameCodes(a: seq<Cycle>, b: seq<Cycle>)
    requires Paired(Redrawn, a, b)
    ensures multiset(Map(CycleCode, a)) == multiset(Map(CycleCode, b))
  {
    var ra: seq<Result<bytes>>, rb: seq<Result<bytes>> := Map(CycleCode, a), Map(CycleCode, b);
    forall i, j | 0 <= i < |a| && 0 <= j < |b| && Redrawn(a[i], b[j]) ensures ra[i] == rb[j] {
      RedrawnSameCode(a[i], b[j]);
    }
    PairedSameCodes(Redrawn, a, b, ra, rb);
  }

  /** Same polygon: both rejected, or equal bytes. */
  lemma SamePolygonSameCode(a: seq<Cycle>, b: seq<Cycle>)
    requires SamePolygon(a, b)
    ensures PolygonCode(a).Ok? <==> PolygonCode(b).Ok?
    ensures PolygonCode(a).Ok? ==> PolygonCode(a) == PolygonCode(b)
  {
    if a != [] {
      RedrawnSameCode(a[0], b[0]);
      PairedRingsSameCodes(a[1..], b[1..]);
      MapTail(a);
      MapTail(b);
      BodyAnyHoleOrder(Map(CycleCode, a), Map(CycleCode, b));
    }
  }

  lemma MapTail(a: seq<Cycle>)
    requires a != []
    ensures Map(CycleCode, a)[0] == CycleCode(a[0]) && Map(CycleCode, a)[1..] == Map(CycleCode, a[1..])
  {
  }

  lemma PolygonCodeComplete(a: seq<Cycle>, b: seq<Cycle>)
    requires PolygonCode(a).Ok? && PolygonCode(b).Ok?
    ensures PolygonCode(a) == PolygonCode(b) <==> SamePolygon(a, b)
  {
    hide CycleCode, Redrawn;
    if SamePolygon(a, b) {
      SamePolygonSameCode(a, b);
    }
    if PolygonCode(a) == PolygonCode(b) {
      RingCodes(a);
      RingCodes(b);
      var ca: seq<bytes>, cb: seq<bytes> := Collect(Map(CycleCode, a)).value, Collect(Map(CycleCode, b)).value;
      BodyInjective(ca, cb);
      CycleCodeComplete(a[0], b[0]);
      forall i, j | 0 <= i < |a| - 1 && 0 <= j < |b| - 1 && ca[1..][i] == cb[1..][j]
        ensures Redrawn(a[1..][i], b[1..][j])
      {
        CycleCodeComplete(a[i + 1], b[j + 1]);
      }
      SameCodesPaired(Redrawn, a[1..], b[1..], ca[1..], cb[1..]);
    }
  }

  // ---- Multipolygons

  function RingsOf(code: bytes): seq<Cycle> {
    match ReadPolygon(code)
    case Bad => []
    case Got(rings, _) => rings
  }

  ghost predicate IsPolygonCode(code: bytes) {
    PackablePolygon(RingsOf(code)) && PolygonBytes(RingsOf(code)) == code
  }

  lemma {:induction false} FlattenPolygons(codes: seq<bytes>)
    requires forall c :: c in codes ==> IsPolygonCode(c)
    ensures forall q :: q in Map(RingsOf, codes) ==> PackablePolygon(q)
    ensures PolygonsBytes(Map(RingsOf, codes)) == Flatten(codes)
    decreases |codes|
  {
    var parts := Map(RingsOf, codes);
    forall i | 0 <= i < |parts| ensures PackablePolygon(parts[i]) {
      assert codes[i] in codes;
    }
    if codes != [] {
      assert codes[0] in codes;
      FlattenPolygons(codes[1..]);
      assert parts[1..] == Map(RingsOf, codes[1..]);
    }
  }

  lemma PolygonCodeDecodes(rings: seq<Cycle>)
    requires PolygonCode(rings).Ok?
    ensures IsPolygonCode(PolygonCode(rings).value)
    ensures rings != [] && Collect(Map(CycleCode, rings)).Ok?
    ensures RingsOf(PolygonCode(rings).value) == CanonRings(Collect(Map(CycleCode, rings)).value)
  {
    RingCodes(rings);
    var codes := Collect(Map(CycleCode, rings)).value;
    BodyIsPolygon(codes);
    ReadPolygonOf(CanonRings(codes), []);
    assert PolygonBytes(CanonRings(codes)) + [] == PolygonBytes(CanonRings(codes));
  }

  lemma SortedPolygonCodes(codes: seq<bytes>)
    requires forall c :: c in codes ==> IsPolygonCode(c)
    ensures forall c :: c in Sort(BytesLe, codes) ==> IsPolygonCode(c)
    ensures |Sort(BytesLe, codes)| == |codes|
  {
    BytesOrder();
    SortSorts(BytesLe, codes);
    forall c | c in Sort(BytesLe, codes) ensures IsPolygonCode(c) {
      assert c in multiset(Sort(BytesLe, codes));
    }
  }

  lemma RingsOfInjective(a: seq<bytes>, b: seq<bytes>)
    requires forall c :: c in a ==> IsPolygonCode(c)
    requires forall c :: c in b ==> IsPolygonCode(c)
    requires Map(RingsOf, a) == Map(RingsOf, b)
    ensures a == b
  {
    assert |a| == |Map(RingsOf, a)| == |Map(RingsOf, b)| == |b|;
    forall i | 0 <= i < |a| ensures a[i] == b[i] {
      assert Map(RingsOf, a)[i] == RingsOf(a[i]) && Map(RingsOf, b)[i] == RingsOf(b[i]);
      assert IsPolygonCode(a[i]) && IsPolygonCode(b[i]);
    }
  }

  lemma PartCodes(parts: seq<seq<Cycle>>)
    requires Bodies(Map(PolygonCode, parts)).Ok?
    ensures var codes := Collect(Map(PolygonCode, parts)).value;
            && |codes| == |parts| <= INT4_MAX
            && (forall i :: 0 <= i < |parts| ==> PolygonCode(parts[i]) == Ok(codes[i]))
            && (forall c :: c in codes ==> IsPolygonCode(c))
  {
    var rs: seq<Result<bytes>> := Map(PolygonCode, parts);
    CollectAll(rs);
    forall i | 0 <= i < |parts| ensures rs[i] == Ok(Collect(rs).value[i]) && IsPolygonCode(Collect(rs).value[i]) {
      assert rs[i].Ok? && rs[i] == PolygonCode(parts[i]);
      PolygonCodeDecodes(parts[i]);
    }
  }

  /** The canonical structure a multipolygon's bytes list. */
  function CanonParts(codes: seq<bytes>): seq<seq<Cycle>> {
    Map(RingsOf, Sort(BytesLe, codes))
  }

  lemma BodiesAreMultiPolygon(codes: seq<bytes>)
    requires |codes| <= INT4_MAX && forall c :: c in codes ==> IsPolygonCode(c)
    ensures Packable(MultiPolygonShape(CanonParts(codes)))
    ensures Encode(MultiPolygonShape(CanonParts(codes))) == [VERSION, 4] + (Int4(|codes|) + Flatten(Sort(BytesLe, codes)))
  {
    SortedPolygonCodes(codes);
    FlattenPolygons(Sort(BytesLe, codes));
  }

  lemma MultiPolygonComplete(a: seq<seq<Cycle>>, b: seq<seq<Cycle>>)
    requires Bodies(Map(PolygonCode, a)).Ok? && Bodies(Map(PolygonCode, b)).Ok?
    ensures Bodies(Map(PolygonCode, a)) == Bodies(Map(PolygonCode, b)) <==> Paired(SamePolygon, a, b)
  {
    PartCodes(a);
    PartCodes(b);
    var ca: seq<bytes>, cb: seq<bytes> := Collect(Map(PolygonCode, a)).value, Collect(Map(PolygonCode, b)).value;
    forall i, j | 0 <= i < |a| && 0 <= j < |b| ensures SamePolygon(a[i], b[j]) <==> ca[i] == cb[j] {
      PolygonCodeComplete(a[i], b[j]);
    }
    BytesOrder();
    SortForgetsOrder(BytesLe, ca, cb);
    if Paired(SamePolygon, a, b) {
      PairedSameCodes(SamePolygon, a, b, ca, cb);
      assert |ca| == |multiset(ca)| == |multiset(cb)| == |cb|;
    }
    if Bodies(Map(PolygonCode, a)) == Bodies(Map(PolygonCode, b)) {
      BodiesAreMultiPolygon(ca);
      BodiesAreMultiPolygon(cb);
      DecodeEncode(MultiPolygonShape(CanonParts(ca)));
      DecodeEncode(MultiPolygonShape(CanonParts(cb)));
      SortedPolygonCodes(ca);
      SortedPolygonCodes(cb);
      RingsOfInjective(Sort(BytesLe, ca), Sort(BytesLe, cb));
      SameCodesPaired(SamePolygon, a, b, ca, cb);
    }
  }

  /** A part's bytes, or one common mark for any rejection. */
  function Accepted(r: Result<bytes>): Result<bytes> {
    if r.Ok? then r else Err(Empty)
  }

  lemma {:induction false} CollectAccepted(rs: seq<Result<bytes>>)
    ensures Collect(rs).Ok? <==> Collect(Map(Accepted, rs)).Ok?
    ensures Collect(rs).Ok? ==> Collect(rs) == Collect(Map(Accepted, rs))
    decreases |rs|
  {
    if rs != [] {
      CollectAccepted(rs[1..]);
      assert Map(Accepted, rs)[1..] == Map(Accepted, rs[1..]);
    }
  }

  /** The bodies forget the order of the parts. */
  lemma BodiesAnyPartOrder(ra: seq<Result<bytes>>, rb: seq<Result<bytes>>)
    requires multiset(Map(Accepted, ra)) == multiset(Map(Accepted, rb))
    ensures Bodies(ra).Ok? <==> Bodies(rb).Ok?
    ensures Bodies(ra).Ok? ==> Bodies(ra) == Bodies(rb)
  {
    var ma: seq<Result<bytes>>, mb: seq<Result<bytes>> := Map(Accepted, ra), Map(Accepted, rb);
    CollectAccepted(ra);
    CollectAccepted(rb);
    CollectAnyOrder(ma, mb);
    if Collect(ra).Ok? {
      var ca, cb := Collect(ra).value, Collect(rb).value;
      assert |ca| == |multiset(ca)| == |multiset(cb)| == |cb|;
      BytesOrder();
      SortForgetsOrder(BytesLe, ca, cb);
    }
  }

  lemma SamePartsSameBodies(a: seq<seq<Cycle>>, b: seq<seq<Cycle>>)
    requires Paired(SamePolygon, a, b)
    ensures Bodies(Map(PolygonCode, a)).Ok? <==> Bodies(Map(PolygonCode, b)).Ok?
    ensures Bodies(Map(PolygonCode, a)).Ok? ==> Bodies(Map(PolygonCode, a)) == Bodies(Map(PolygonCode, b))
  {
    var ra: seq<Result<bytes>>, rb: seq<Result<bytes>> := Map(PolygonCode, a), Map(PolygonCode, b);
    var ma: seq<Result<bytes>>, mb: seq<Result<bytes>> := Map(Accepted, ra), Map(Accepted, rb);
    forall i, j | 0 <= i < |a| && 0 <= j < |b| && SamePolygon(a[i], b[j]) ensures ma[i] == mb[j] {
      SamePolygonSameCode(a[i], b[j]);
      assert ma[i] == Accepted(PolygonCode(a[i])) && mb[j] == Accepted(PolygonCode(b[j]));
    }
    PairedSameCodes(SamePolygon, a, b, ma, mb);
    BodiesAnyPartOrder(ra, rb);
  }

  // ---- MultiPoints

  lemma PackSorted(ps: seq<Point>)
    ensures PackablePoints(Sort(PointLe, ps)) <==> PackablePoints(ps)
  {
    PointOrder();
    SortSorts(PointLe, ps);
    var qs := Sort(PointLe, ps);
    forall p ensures p in qs <==> p in ps {
      assert p in qs <==> p in multiset(qs);
      assert p in ps <==> p in multiset(ps);
    }
    assert |qs| == |ps|;
  }

  lemma MultiPointComplete(ps: seq<Point>, qs: seq<Point>)
    requires PackablePoints(ps) && PackablePoints(qs)
    ensures Pack(Sort(PointLe, ps)) == Pack(Sort(PointLe, qs)) <==> multiset(ps) == multiset(qs)
  {
    PackSorted(ps);
    PackSorted(qs);
    PointOrder();
    SortForgetsOrder(PointLe, ps, qs);
    if Pack(Sort(PointLe, ps)) == Pack(Sort(PointLe, qs)) {
      RingBytesInjective(Sort(PointLe, ps), Sort(PointLe, qs));
    }
  }

  lemma SamePointsSameVerdict(ps: seq<Point>, qs: seq<Point>)
    requires multiset(ps) == multiset(qs)
    ensures Pack(Sort(PointLe, ps)) == Pack(Sort(PointLe, qs))
    ensures ps == [] <==> qs == []
  {
    PointOrder();
    SortForgetsOrder(PointLe, ps, qs);
    assert |ps| == |multiset(ps)| == |multiset(qs)| == |qs|;
  }

  // ---- The complete invariant

  /** Same shape: both rejected, or equal bytes. Rejection, too, is a property of
      the shape and not of the drawing. */
  lemma SameShapeSameBytes(s: Shape, t: Shape)
    requires SameShape(s, t)
    ensures ShapeBytes(s).Ok? <==> ShapeBytes(t).Ok?
    ensures ShapeBytes(s).Ok? ==> ShapeBytes(s) == ShapeBytes(t)
  {
    match (s, t)
    case (PointShape(p), PointShape(q)) =>
    case (MultiPointShape(ps), MultiPointShape(qs)) => SamePointsSameVerdict(ps, qs);
    case (PolygonShape(a), PolygonShape(b)) => SamePolygonSameCode(a, b);
    case (MultiPolygonShape(a), MultiPolygonShape(b)) => SamePartsSameBodies(a, b);
  }

  lemma TaggedInjective(tag: byte, a: Result<bytes>, b: Result<bytes>)
    requires a.Ok? && b.Ok?
    ensures Tagged(tag, a) == Tagged(tag, b) <==> a == b
  {
    assert ([VERSION, tag] + a.value)[2..] == a.value;
    assert ([VERSION, tag] + b.value)[2..] == b.value;
  }

  /** The type tag disambiguates. */
  lemma TagsDiffer(s: Shape, t: Shape)
    requires ShapeBytes(s).Ok? && ShapeBytes(s) == ShapeBytes(t)
    ensures s.PointShape? <==> t.PointShape?
    ensures s.MultiPointShape? <==> t.MultiPointShape?
    ensures s.PolygonShape? <==> t.PolygonShape?
  {
    assert ShapeBytes(s).value[1] == ShapeBytes(t).value[1];
  }

  lemma ShapeComplete(s: Shape, t: Shape)
    requires ShapeBytes(s).Ok? && ShapeBytes(t).Ok?
    ensures ShapeBytes(s) == ShapeBytes(t) <==> SameShape(s, t)
  {
    if SameShape(s, t) {
      SameShapeSameBytes(s, t);
    }
    if ShapeBytes(s) == ShapeBytes(t) {
      TagsDiffer(s, t);
      match (s, t)
      case (PointShape(p), PointShape(q)) =>
        assert ([VERSION, 1] + PointBytes(p))[2..] == PointBytes(p);
        assert ([VERSION, 1] + PointBytes(q))[2..] == PointBytes(q);
        ReadPointOf(p, []);
        ReadPointOf(q, []);
      case (MultiPointShape(ps), MultiPointShape(qs)) =>
        PackSorted(ps);
        PackSorted(qs);
        TaggedInjective(2, Pack(Sort(PointLe, ps)), Pack(Sort(PointLe, qs)));
        MultiPointComplete(ps, qs);
      case (PolygonShape(a), PolygonShape(b)) =>
        TaggedInjective(3, PolygonCode(a), PolygonCode(b));
        PolygonCodeComplete(a, b);
      case (MultiPolygonShape(a), MultiPolygonShape(b)) =>
        TaggedInjective(4, Bodies(Map(PolygonCode, a)), Bodies(Map(PolygonCode, b)));
        MultiPolygonComplete(a, b);
      case (_, _) =>
    }
  }

  /** Two geometries draw the same shape on the lattice. */
  ghost predicate SameGeometry(g: Geometry, h: Geometry) {
    WellFormed(g) && WellFormed(h) && SameShape(Drawn(g), Drawn(h))
  }

  /** Main theorem of the recipe. */
  lemma CompleteInvariant(g: Geometry, h: Geometry)
    requires CanonicalBytes(g).Ok? && CanonicalBytes(h).Ok?
    ensures CanonicalBytes(g) == CanonicalBytes(h) <==> SameGeometry(g, h)
  {
    BytesOfDrawing(g);
    BytesOfDrawing(h);
    ShapeComplete(Drawn(g), Drawn(h));
  }

  /** Whether a geometry has an identity depends only on its shape. */
  lemma AcceptanceIsInvariant(g: Geometry, h: Geometry)
    requires SameGeometry(g, h)
    ensures CanonicalBytes(g).Ok? <==> CanonicalBytes(h).Ok?
    ensures CanonicalBytes(g).Ok? ==> CanonicalBytes(g) == CanonicalBytes(h)
  {
    BytesOfDrawing(g);
    BytesOfDrawing(h);
    SameShapeSameBytes(Drawn(g), Drawn(h));
  }

  // ---- Canonical bytes decode to the canonical drawing of the same shape

  lemma CanonHolesPaired(ca: seq<bytes>, holes: seq<Cycle>)
    requires |holes| == |ca|
    requires forall i :: 0 <= i < |ca| ==> CycleCode(holes[i]) == Ok(ca[i])
    requires forall c :: c in ca ==> CycleCode(RingOf(c)) == Ok(c)
    ensures Paired(Redrawn, Map(RingOf, Sort(BytesLe, ca)), holes)
  {
    hide CycleCode, Redrawn, Paired, RingOf;
    var sorted: seq<bytes> := Sort(BytesLe, ca);
    var canon := Map(RingOf, sorted);
    BytesOrder();
    SortSorts(BytesLe, ca);
    forall i, j | 0 <= i < |canon| && 0 <= j < |holes| && sorted[i] == ca[j] ensures Redrawn(canon[i], holes[j]) {
      assert ca[j] in ca;
      CycleCodeComplete(canon[i], holes[j]);
    }
    SameCodesPaired(Redrawn, canon, holes, sorted, ca);
  }

  lemma CanonRingsSamePolygon(rings: seq<Cycle>)
    requires PolygonCode(rings).Ok?
    ensures rings != [] && Collect(Map(CycleCode, rings)).Ok?
    ensures SamePolygon(CanonRings(Collect(Map(CycleCode, rings)).value), rings)
    ensures PolygonCode(CanonRings(Collect(Map(CycleCode, rings)).value)) == PolygonCode(rings)
  {
    RingCodes(rings);
    var codes: seq<bytes> := Collect(Map(CycleCode, rings)).value;
    var canon := CanonRings(codes);
    assert codes[0] in codes;
    CycleCodeComplete(canon[0], rings[0]);
    CanonHolesPaired(codes[1..], rings[1..]);
    assert canon[1..] == Map(RingOf, Sort(BytesLe, codes[1..]));
    SamePolygonSameCode(canon, rings);
  }

  lemma CanonPartsPaired(parts: seq<seq<Cycle>>)
    requires Bodies(Map(PolygonCode, parts)).Ok?
    ensures Collect(Map(PolygonCode, parts)).Ok?
    ensures Paired(SamePolygon, CanonParts(Collect(Map(PolygonCode, parts)).value), parts)
  {
    PartCodes(parts);
    var codes: seq<bytes> := Collect(Map(PolygonCode, parts)).value;
    var sorted: seq<bytes> := Sort(BytesLe, codes);
    var canon := CanonParts(codes);
    BytesOrder();
    SortSorts(BytesLe, codes);
    forall i, j | 0 <= i < |canon| && 0 <= j < |parts| && sorted[i] == codes[j] ensures SamePolygon(canon[i], parts[j]) {
      PolygonCodeDecodes(parts[j]);
      CanonRingsSamePolygon(parts[j]);
    }
    SameCodesPaired(SamePolygon, canon, parts, sorted, codes);
  }

  /** The structure listed by the canonical bytes of a shape. */
  function Structure(s: Shape): Shape
    requires ShapeBytes(s).Ok?
  {
    match s
    case PointShape(p) => s
    case MultiPointShape(ps) => MultiPointShape(Sort(PointLe, ps))
    case PolygonShape(rings) => PolygonShape(CanonRings(Collect(Map(CycleCode, rings)).value))
    case MultiPolygonShape(parts) => MultiPolygonShape(CanonParts(Collect(Map(PolygonCode, parts)).value))
  }

  lemma StructureEncodes(s: Shape)
    requires ShapeBytes(s).Ok?
    ensures Packable(Structure(s)) && Encode(Structure(s)) == ShapeBytes(s).value
  {
    match s
    case PointShape(p) =>
    case MultiPointShape(ps) =>
    case PolygonShape(rings) =>
      RingCodes(rings);
      BodyIsPolygon(Collect(Map(CycleCode, rings)).value);
    case MultiPolygonShape(parts) =>
      PartCodes(parts);
      BodiesAreMultiPolygon(Collect(Map(PolygonCode, parts)).value);
  }

  lemma StructureIsSameShape(s: Shape)
    requires ShapeBytes(s).Ok?
    ensures SameShape(Structure(s), s)
  {
    match s
    case PointShape(p) =>
    case MultiPointShape(ps) =>
      PointOrder();
      SortSorts(PointLe, ps);
    case PolygonShape(rings) => CanonRingsSamePolygon(rings);
    case MultiPolygonShape(parts) => CanonPartsPaired(parts);
  }

  /** The decoder reads every canonical byte string, to its last byte, as a shape
      that is the same as the one drawn and whose own canonical bytes are that
      string: the bytes lose nothing but the drawing. */
  lemma DecodeCanonical(g: Geometry)
    requires CanonicalBytes(g).Ok?
    ensures WellFormed(g) && Decode(CanonicalBytes(g).value).Decoded?
    ensures var d := Decode(CanonicalBytes(g).value).shape;
            && SameShape(d, Drawn(g))
            && ShapeBytes(d) == CanonicalBytes(g)
            && Packable(d) && Encode(d) == CanonicalBytes(g).value
  {
    BytesOfDrawing(g);
    var s := Drawn(g);
    StructureEncodes(s);
    StructureIsSameShape(s);
    DecodeEncode(Structure(s));
    SameShapeSameBytes(Structure(s), s);
  }
}
