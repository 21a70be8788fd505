/** The two programs that canonicalize a ring: the Python reference and the
    PL/pgSQL function the database runs, each with its own loops and indexing,
    both proved against `Rings.CanonCycle`.
  */
module RingProcedures {
  import opened Orders
  import opened Quantization
  import opened Rings
  import opened Serialization
  import opened Recipe

  // ---- Facts both loops rest on

  /** One step of the forward pass: the last kept vertex is the one listed just
      before. */
  lemma ForwardNext(points: Cycle, i: nat)
    requires i < |points|
    ensures var kept, p := Forward(points[..i]), points[i];
            && (i == 0 <==> kept == [])
            && (i > 0 ==> kept[|kept| - 1] == points[i - 1])
            && Forward(points[..i + 1]) == if i > 0 && p == points[i - 1] then kept else kept + [p]
  {
    var t := points[..i + 1];
    ForwardFacts(points[..i]);
    assert t[..i] == points[..i] && t[i] == points[i] && |t| == i + 1;
    if i == 0 {
      assert t == [points[0]];
    } else {
      assert t[i - 1] == points[i - 1];
    }
  }

  /** The shoelace sum over the first i edges of the closed walk. */
  function EdgeSum(s: Cycle, i: nat): int
    requires i <= |s|
  {
    if i == 0 then 0 else EdgeSum(s, i - 1) + Cross(s[i - 1], s[if i == |s| then 0 else i])
  }

  lemma {:induction false} EdgeSumIsPath(s: Cycle, i: nat)
    requires i < |s|
    ensures EdgeSum(s, i) == PathSum(s[..i + 1])
  {
    if i > 0 {
      EdgeSumIsPath(s, i - 1);
      var t := s[..i + 1];
      assert t[..i] == s[..i] && t[i - 1] == s[i - 1] && t[i] == s[i];
    }
  }

  lemma EdgeSumIsShoelace(s: Cycle)
    ensures EdgeSum(s, |s|) == Shoelace(s)
  {
    if s != [] {
      EdgeSumIsPath(s, |s| - 1);
      assert s[..|s|] == s;
    }
  }

  /** Python's (i + 1) % count, and SQL's gs % n + 1, step around the cycle. */
  lemma NextIndex(i: nat, count: nat)
    requires i < count
    ensures (i + 1) % count == if i + 1 == count then 0 else i + 1
  {
  }

  /** Every start whose vertex is the minimum, and no other. */
  ghost predicate AreStarts(s: Cycle, starts: seq<nat>, minimum: Point) {
    && (forall i :: i in starts ==> 0 <= i < |s| && s[i] == minimum)
    && (forall i :: 0 <= i < |s| && s[i] == minimum ==> i in starts)
  }

  ghost predicate IsMinimum(s: Cycle, p: Point) {
    p in s && forall q :: q in s ==> PointLe(p, q)
  }

  /** The least of the rotations starting at a minimum vertex is the least of all
      rotations. */
  lemma LeastAmongStarts(s: Cycle, starts: seq<nat>, minimum: Point, i: nat)
    requires s != [] && IsMinimum(s, minimum) && AreStarts(s, starts, minimum) && i in starts
    requires forall j :: j in starts ==> VerticesLe(Rotate(s, i), Rotate(s, j))
    ensures LeastRotation(s) == Rotate(s, i)
  {
    var r := Rotate(s, i);
    PointOrder();
    forall k | 0 <= k <= |s| ensures VerticesLe(r, Rotate(s, k)) {
      assert Rotate(s, |s|) == Rotate(s, 0);
      var k' := if k == |s| then 0 else k;
      if k' !in starts {
        assert s[k'] in s && s[k'] != minimum;
        assert r[0] == minimum && Rotate(s, k')[0] == s[k'];
      }
    }
    assert IsRotation(r, s);
    LeastRotationIsLeast(s);
    LeastRotationUnique(r, LeastRotation(s), s);
  }

  // ---- The Python reference

  /** `_canon_ring` */
  method CanonRingInPython(ring: seq<Position>) returns (r: Result<Cycle>)
    ensures r == CanonRing(ring)
  {
    var quantized := QuantizeAll(ring);
    if quantized.Err? {
      return Err(quantized.error);
    }
    var kept := RemoveRepeats(quantized.value);
    if |kept| < 3 {
      return Err(CollapsedRing(|kept|));
    }
    var shoelace := SumOfEdges(kept);
    if shoelace == 0 {
      return Err(ZeroAreaRing);
    }
    if shoelace < 0 {
      kept := Reverse(kept);
    }
    var vertices := RotateToLeast(kept);
    return Ok(vertices);
  }

  /** The last step: the smallest vertex to the front, ties broken by the whole
      sequence. */
  method RotateToLeast(kept: Cycle) returns (vertices: Cycle)
    requires kept != []
    ensures vertices == LeastRotation(kept)
  {
    var minimum := Minimum(kept);
    var starts := StartsAt(kept, minimum);
    var i := starts[0];
    if |starts| == 1 {
      PointOrder();
      LexTotal(PointLe, Rotate(kept, i), Rotate(kept, i));
    } else {
      assert forall k :: 0 <= k < |starts| ==> starts[k] in starts;
      i := LeastStart(kept, starts);
    }
    LeastAmongStarts(kept, starts, minimum, i);
    return kept[i..] + kept[..i];
  }

  /** The two de-duplication loops. */
  method RemoveRepeats(points: Cycle) returns (kept: Cycle)
    ensures kept == Dedup(points)
  {
    kept := [];
    for i := 0 to |points|
      invariant kept == Forward(points[..i])
    {
      ForwardNext(points, i);
      if kept == [] || points[i] != kept[|kept| - 1] {
        kept := kept + [points[i]];
      }
    }
    assert points[..|points|] == points;
    while |kept| > 1 && kept[|kept| - 1] == kept[0]
      invariant Trim(kept) == Dedup(points)
    {
      kept := kept[..|kept| - 1];
    }
  }

  /** The shoelace loop. */
  method SumOfEdges(kept: Cycle) returns (shoelace: int)
    requires kept != []
    ensures shoelace == Shoelace(kept)
  {
    shoelace := 0;
    var count := |kept|;
    for i := 0 to count
      invariant shoelace == EdgeSum(kept, i)
    {
      NextIndex(i, count);
      var p, q := kept[i], kept[(i + 1) % count];
      shoelace := shoelace + (p.x * q.y - q.x * p.y);
    }
    EdgeSumIsShoelace(kept);
  }

  /** `[i for i, v in enumerate(kept) if v == minimum]` */
  method StartsAt(kept: Cycle, minimum: Point) returns (starts: seq<nat>)
    requires IsMinimum(kept, minimum)
    ensures AreStarts(kept, starts, minimum) && starts != []
  {
    starts := [];
    for i := 0 to |kept|
      invariant forall j :: j in starts <==> 0 <= j < i && kept[j] == minimum
    {
      if kept[i] == minimum {
        starts := starts + [i];
      }
    }
    ghost var k :| 0 <= k < |kept| && kept[k] == minimum;
    assert k in starts;
  }

  /** `min(kept)` */
  method Minimum(s: Cycle) returns (p: Point)
    requires s != []
    ensures IsMinimum(s, p)
  {
    p := s[0];
    for i := 1 to |s|
      invariant p in s && forall j :: 0 <= j < i ==> PointLe(p, s[j])
    {
      if !PointLe(p, s[i]) {
        p := s[i];
      }
    }
  }

  /** `min(kept[i:] + kept[:i] for i in starts)` */
  method LeastStart(s: Cycle, starts: seq<nat>) returns (best: nat)
    requires starts != [] && forall k :: 0 <= k < |starts| ==> starts[k] < |s|
    ensures best in starts && best < |s|
    ensures forall j :: j in starts ==> VerticesLe(Rotate(s, best), Rotate(s, j))
  {
    best := starts[0];
    assert best in starts;
    PointOrder();
    LexTotal(PointLe, Rotate(s, best), Rotate(s, best));
    for c := 1 to |starts|
      invariant best in starts && best < |s|
      invariant forall k :: 0 <= k < c ==> VerticesLe(Rotate(s, best), Rotate(s, starts[k]))
    {
      var previous, next := Rotate(s, best), Rotate(s, starts[c]);
      LexTotal(PointLe, previous, next);
      LexTotal(PointLe, next, next);
      assert starts[c] in starts;
      if !VerticesLe(previous, next) {
        forall k | 0 <= k < c ensures VerticesLe(next, Rotate(s, starts[k])) {
          LexTransitive(PointLe, next, previous, Rotate(s, starts[k]));
        }
        best := starts[c];
      }
    }
  }

  // ---- The PL/pgSQL function

  /** A vertex as ST_X and ST_Y report it. */
  datatype Coordinate = Coordinate(x: real, y: real)

  /** The GeoJSON ring a linestring was parsed from. */
  function Listing(ring: seq<Coordinate>): (r: seq<Position>)
    ensures |r| == |ring| && FlatPositions(r)
  {
    seq(|ring|, i requires 0 <= i < |ring| => [ring[i].x, ring[i].y])
  }

  predicate Bigint(x: int) {
    INT8_MIN <= x <= INT8_MAX
  }

  /** Every coordinate survives the cast to bigint. */
  predicate CastsToBigint(ring: seq<Coordinate>) {
    forall i :: 0 <= i < |ring| ==> Bigint(Quantize(ring[i].x)) && Bigint(Quantize(ring[i].y))
  }

  function Zip(xs: seq<int>, ys: seq<int>): (r: Cycle)
    requires |xs| == |ys|
    ensures |r| == |xs|
  {
    seq(|xs|, i requires 0 <= i < |xs| => Point(xs[i], ys[i]))
  }

  /** SQL arrays are indexed from 1. */
  function At(a: seq<int>, i: int): int
    requires 1 <= i <= |a|
  {
    a[i - 1]
  }

  /** An aggregate without ORDER BY lists the rows in some order of its own. */
  ghost predicate Arrangement(f: seq<int> -> seq<int>) {
    forall s :: multiset(f(s)) == multiset(s)
  }

  /** The order of an unordered aggregate neither adds nor loses a row. */
  lemma ArrangedMembers(f: seq<int> -> seq<int>, s: seq<int>)
    requires Arrangement(f)
    ensures |f(s)| == |s| && forall i :: i in f(s) <==> i in s
  {
    assert multiset(f(s)) == multiset(s);
    assert |f(s)| == |multiset(f(s))| == |multiset(s)| == |s|;
    forall i ensures i in f(s) <==> i in s {
      assert i in f(s) <==> i in multiset(f(s));
      assert i in s <==> i in multiset(s);
    }
  }

  /** The vertex `step` places after start row k, in the database's modular
      1-based indexing. */
  lemma RowAfter(xs: seq<int>, ys: seq<int>, n: int, k: int, step: int)
    requires 0 < n <= |xs| && |xs| == |ys| && 1 <= k <= n && 0 <= step < n
    ensures var row := (k - 1 + step) % n + 1;
            && 1 <= row <= n
            && |Rotate(Zip(xs[..n], ys[..n]), k - 1)| == n
            && Rotate(Zip(xs[..n], ys[..n]), k - 1)[step] == Point(At(xs, row), At(ys, row))
  {
    RotateIndex(Zip(xs[..n], ys[..n]), k - 1, step);
    Wrap(k - 1 + step, n);
  }

  lemma Wrap(i: int, n: int)
    requires 0 <= i < 2 * n
    ensures i % n == if i < n then i else i - n
  {
    if i >= n {
      assert i == n + (i - n);
    }
  }

  /** The tie-break loop for one candidate: does the rotation at a come strictly
      before the one at b? Positions are 1-based, modulo n. */
  method ComesBefore(xs: seq<int>, ys: seq<int>, n: int, a: int, b: int) returns (before: bool)
    requires 0 < n <= |xs| && |xs| == |ys| && 1 <= a <= n && 1 <= b <= n
    ensures var s := Zip(xs[..n], ys[..n]);
            before <==> !VerticesLe(Rotate(s, b - 1), Rotate(s, a - 1))
  {
    ghost var s := Zip(xs[..n], ys[..n]);
    ghost var ra, rb := Rotate(s, a - 1), Rotate(s, b - 1);
    PointOrder();
    for step := 0 to n
      invariant forall t :: 0 <= t < step ==> ra[t] == rb[t]
    {
      var posA, posB := (a - 1 + step) % n + 1, (b - 1 + step) % n + 1;
      RowAfter(xs, ys, n, a, step);
      RowAfter(xs, ys, n, b, step);
      if At(xs, posA) != At(xs, posB) || At(ys, posA) != At(ys, posB) {
        LexFirstDifference(PointLe, rb, ra, step);
        return At(xs, posA) < At(xs, posB) || (At(xs, posA) == At(xs, posB) && At(ys, posA) < At(ys, posB));
      }
    }
    SameRotation(ra, rb);
    return false;
  }

  lemma SameRotation(a: Cycle, b: Cycle)
    requires |a| == |b| && forall t :: 0 <= t < |a| ==> a[t] == b[t]
    ensures VerticesLe(b, a)
  {
    assert a == b;
    PointOrder();
    LexTotal(PointLe, a, b);
  }

  lemma ZipNext(xs: seq<int>, ys: seq<int>, x: int, y: int)
    requires |xs| == |ys|
    ensures Zip(xs + [x], ys + [y]) == Zip(xs, ys) + [Point(x, y)]
  {
  }

  lemma {:induction false} PointsBytesNext(ps: seq<Point>, p: Point)
    requires PackablePoint(p) && forall q :: q in ps ==> PackablePoint(q)
    ensures PointsBytes(ps + [p]) == PointsBytes(ps) + PointBytes(p)
    decreases |ps|
  {
    if ps != [] {
      PointsBytesNext(ps[1..], p);
      assert (ps + [p])[1..] == ps[1..] + [p];
      assert PointsBytes(ps) + PointBytes(p) == PointBytes(ps[0]) + (PointsBytes(ps[1..]) + PointBytes(p));
    } else {
      assert ps + [p] == [p];
      assert PointsBytes([p]) == PointBytes(p) + PointsBytes([]);
    }
  }

  /** The de-duplicating select and the wrap-around loop: the first n entries of
      the arrays are the kept vertices. */
  method RemoveRepeatsInSql(points: Cycle) returns (xs: seq<int>, ys: seq<int>, n: nat)
    ensures n <= |xs| == |ys| <= |points|
    ensures Zip(xs[..n], ys[..n]) == Dedup(points)
  {
    xs, ys := [], [];
    for i := 0 to |points|
      invariant |xs| == |ys| && Zip(xs, ys) == Forward(points[..i])
    {
      ForwardNext(points, i);
      // lag(x) and lag(y) are null on the first row only
      if i == 0 || points[i].x != points[i - 1].x || points[i].y != points[i - 1].y {
        ZipNext(xs, ys, points[i].x, points[i].y);
        xs, ys := xs + [points[i].x], ys + [points[i].y];
      }
    }
    assert points[..|points|] == points;
    ForwardFacts(points);
    n := CloseInSql(xs, ys);
  }

  /** The shrinking loop: drop trailing vertices equal to the first. */
  method CloseInSql(xs: seq<int>, ys: seq<int>) returns (n: nat)
    requires |xs| == |ys|
    ensures n <= |xs| && Zip(xs[..n], ys[..n]) == Trim(Zip(xs, ys))
  {
    n := |xs|;
    assert xs[..n] == xs && ys[..n] == ys;
    while n > 1 && At(xs, n) == At(xs, 1) && At(ys, n) == At(ys, 1)
      invariant n <= |xs|
      invariant Trim(Zip(xs[..n], ys[..n])) == Trim(Zip(xs, ys))
    {
      assert Zip(xs[..n], ys[..n])[..n - 1] == Zip(xs[..n - 1], ys[..n - 1]);
      n := n - 1;
    }
  }

  /** The area aggregate over generate_series(1, n). */
  method AreaInSql(xs: seq<int>, ys: seq<int>, n: nat) returns (area: int)
    requires 0 < n <= |xs| == |ys|
    ensures area == Shoelace(Zip(xs[..n], ys[..n]))
  {
    ghost var s := Zip(xs[..n], ys[..n]);
    area := 0;
    for gs := 1 to n + 1
      invariant area == EdgeSum(s, gs - 1)
    {
      NextIndex(gs - 1, n);
      assert s[gs - 1] == Point(At(xs, gs), At(ys, gs));
      assert s[if gs == n then 0 else gs] == Point(At(xs, gs % n + 1), At(ys, gs % n + 1));
      area := area + (At(xs, gs) * At(ys, gs % n + 1) - At(xs, gs % n + 1) * At(ys, gs));
    }
    EdgeSumIsShoelace(s);
  }

  /** array_agg(a[gs] ORDER BY gs DESC) over generate_series(1, n). */
  function Backwards(a: seq<int>, n: nat): (r: seq<int>)
    requires n <= |a|
    ensures |r| == n && forall i :: 0 <= i < n ==> r[i] == a[n - 1 - i]
  {
    seq(n, i requires 0 <= i < n => At(a, n - i))
  }

  /** The row that ORDER BY x, y, gs LIMIT 1 selects. */
  method MinimumInSql(xs: seq<int>, ys: seq<int>, n: nat) returns (minI: int)
    requires 0 < n <= |xs| == |ys|
    ensures 1 <= minI <= n
    ensures IsMinimum(Zip(xs[..n], ys[..n]), Point(At(xs, minI), At(ys, minI)))
  {
    ghost var s := Zip(xs[..n], ys[..n]);
    minI := 1;
    for gs := 2 to n + 1
      invariant 1 <= minI <= n
      invariant forall j :: 0 <= j < gs - 1 ==> PointLe(s[minI - 1], s[j])
    {
      if At(xs, gs) < At(xs, minI) || (At(xs, gs) == At(xs, minI) && At(ys, gs) < At(ys, minI)) {
        minI := gs;
      }
    }
    assert s[minI - 1] in s;
  }

  /** The rows whose vertex is the given one. */
  ghost predicate AreTied(s: Cycle, rows: seq<int>, minimum: Point) {
    forall i :: i in rows <==> 1 <= i <= |s| && s[i - 1] == minimum
  }

  /** The rows tied for the minimum, in the order the aggregate happens to list
      them. */
  method StartsInSql(xs: seq<int>, ys: seq<int>, n: nat, minI: int, arrange: seq<int> -> seq<int>)
    returns (starts: seq<int>)
    requires 1 <= minI <= n <= |xs| == |ys| && Arrangement(arrange)
    ensures starts != [] && AreTied(Zip(xs[..n], ys[..n]), starts, Point(At(xs, minI), At(ys, minI)))
  {
    var rows := [];
    for gs := 1 to n + 1
      invariant forall i :: i in rows <==> 1 <= i < gs && At(xs, i) == At(xs, minI) && At(ys, i) == At(ys, minI)
    {
      if At(xs, gs) == At(xs, minI) && At(ys, gs) == At(ys, minI) {
        rows := rows + [gs];
      }
    }
    starts := arrange(rows);
    ArrangedMembers(arrange, rows);
    assert minI in rows;
  }

  ghost predicate AreRows(rows: seq<int>, n: int) {
    forall k :: 0 <= k < |rows| ==> 1 <= rows[k] <= n
  }

  /** No row in the list starts a smaller rotation than `best` does. */
  ghost predicate NoneBetter(s: Cycle, rows: seq<int>, best: int)
    requires 1 <= best <= |s| && AreRows(rows, |s|)
  {
    forall k :: 0 <= k < |rows| ==> VerticesLe(Rotate(s, best - 1), Rotate(s, rows[k] - 1))
  }

  lemma NoneBetterNext(s: Cycle, rows: seq<int>, best: int, candidate: int)
    requires 1 <= best <= |s| && AreRows(rows, |s|) && 1 <= candidate <= |s|
    requires NoneBetter(s, rows, best)
    ensures AreRows(rows + [candidate], |s|)
    ensures VerticesLe(Rotate(s, best - 1), Rotate(s, candidate - 1)) ==> NoneBetter(s, rows + [candidate], best)
    ensures !VerticesLe(Rotate(s, best - 1), Rotate(s, candidate - 1)) ==> NoneBetter(s, rows + [candidate], candidate)
  {
    var before, after := Rotate(s, best - 1), Rotate(s, candidate - 1);
    PointOrder();
    LexTotal(PointLe, before, after);
    LexTotal(PointLe, after, after);
    if !VerticesLe(before, after) {
      forall k | 0 <= k < |rows| ensures VerticesLe(after, Rotate(s, rows[k] - 1)) {
        LexTransitive(PointLe, after, before, Rotate(s, rows[k] - 1));
      }
    }
  }

  /** The pairwise tie-break over all tied starts. */
  method BestStartInSql(xs: seq<int>, ys: seq<int>, n: nat, starts: seq<int>) returns (best: int)
    requires 0 < n <= |xs| == |ys| && starts != [] && AreRows(starts, n)
    ensures best in starts && 1 <= best <= n
    ensures NoneBetter(Zip(xs[..n], ys[..n]), starts, best)
  {
    ghost var s := Zip(xs[..n], ys[..n]);
    best := At(starts, 1);
    SameRotation(Rotate(s, best - 1), Rotate(s, best - 1));
    assert NoneBetter(s, starts[..1], best);
    for cnd := 2 to |starts| + 1
      invariant best in starts && 1 <= best <= n
      invariant AreRows(starts[..cnd - 1], n) && NoneBetter(s, starts[..cnd - 1], best)
    {
      var candidate := At(starts, cnd);
      assert starts[..cnd] == starts[..cnd - 1] + [candidate];
      NoneBetterNext(s, starts[..cnd - 1], best, candidate);
      var before := ComesBefore(xs, ys, n, candidate, best);
      if before {
        best := candidate;
      }
    }
    assert starts[..|starts|] == starts;
  }

  /** The final string_agg over generate_series(0, n - 1). */
  method SerializeInSql(xs: seq<int>, ys: seq<int>, n: nat, best: int) returns (result: bytes)
    requires 1 <= best <= n <= |xs| == |ys| && n <= INT4_MAX
    requires PackablePoints(Rotate(Zip(xs[..n], ys[..n]), best - 1))
    ensures result == RingBytes(Rotate(Zip(xs[..n], ys[..n]), best - 1))
  {
    ghost var r := Rotate(Zip(xs[..n], ys[..n]), best - 1);
    var pairs: bytes := [];
    for gs := 0 to n
      invariant |r| == n && pairs == PointsBytes(r[..gs])
    {
      var row := (best - 1 + gs) % n + 1;
      RowAfter(xs, ys, n, best, gs);
      assert r[gs] in r;
      pairs := pairs + (Int8(At(xs, row)) + Int8(At(ys, row)));
      PointsBytesNext(r[..gs], r[gs]);
      assert r[..gs + 1] == r[..gs] + [r[gs]];
    }
    assert r[..n] == r;
    result := Int4(n) + pairs;
  }

  lemma BackwardsIsReverse(xs: seq<int>, ys: seq<int>, n: nat)
    requires n <= |xs| == |ys|
    ensures Zip(Backwards(xs, n)[..n], Backwards(ys, n)[..n]) == Reverse(Zip(xs[..n], ys[..n]))
  {
    var a, b := Zip(Backwards(xs, n)[..n], Backwards(ys, n)[..n]), Reverse(Zip(xs[..n], ys[..n]));
    forall i | 0 <= i < n ensures a[i] == b[i] {
      assert Backwards(xs, n)[i] == xs[n - 1 - i] && Backwards(ys, n)[i] == ys[n - 1 - i];
      assert b[i] == Zip(xs[..n], ys[..n])[n - 1 - i];
    }
    assert |a| == |b|;
  }

  lemma TiedAreStarts(s: Cycle, rows: seq<int>, minimum: Point) returns (starts: seq<nat>)
    requires AreTied(s, rows, minimum)
    ensures |starts| == |rows| && forall k :: 0 <= k < |rows| ==> starts[k] == rows[k] - 1
    ensures AreStarts(s, starts, minimum)
  {
    assert forall k :: 0 <= k < |rows| ==> rows[k] in rows;
    starts := seq(|rows|, k requires 0 <= k < |rows| => (rows[k] - 1) as nat);
    forall i | i in starts ensures i < |s| && s[i] == minimum {
      var k :| 0 <= k < |starts| && starts[k] == i;
      assert i + 1 in rows;
    }
    forall i | 0 <= i < |s| && s[i] == minimum ensures i in starts {
      assert i + 1 in rows;
      var k :| 0 <= k < |rows| && rows[k] == i + 1;
      assert starts[k] == i;
    }
  }

  /** The best of the tied rows, whatever the order of their list, starts the
      least rotation. */
  lemma BestRowIsLeast(s: Cycle, minimum: Point, rows: seq<int>, best: int)
    requires IsMinimum(s, minimum) && AreTied(s, rows, minimum)
    requires best in rows && AreRows(rows, |s|) && 1 <= best <= |s| && NoneBetter(s, rows, best)
    ensures Rotate(s, best - 1) == LeastRotation(s)
  {
    hide VerticesLe, LeastRotation, Rotate;
    var starts := TiedAreStarts(s, rows, minimum);
    var k :| 0 <= k < |rows| && rows[k] == best;
    assert starts[k] in starts;
    forall j | j in starts ensures VerticesLe(Rotate(s, best - 1), Rotate(s, j)) {
      var h :| 0 <= h < |starts| && starts[h] == j;
      assert rows[h] - 1 == j;
    }
    LeastAmongStarts(s, starts, minimum, best - 1);
  }

  method ChooseStartInSql(xs: seq<int>, ys: seq<int>, n: nat, arrange: seq<int> -> seq<int>) returns (best: int)
    requires 0 < n <= |xs| == |ys| && Arrangement(arrange)
    ensures 1 <= best <= n
    ensures Rotate(Zip(xs[..n], ys[..n]), best - 1) == LeastRotation(Zip(xs[..n], ys[..n]))
  {
    var minI := MinimumInSql(xs, ys, n);
    var starts := StartsInSql(xs, ys, n, minI, arrange);
    assert forall k :: 0 <= k < |starts| ==> starts[k] in starts;
    best := BestStartInSql(xs, ys, n, starts);
    BestRowIsLeast(Zip(xs[..n], ys[..n]), Point(At(xs, minI), At(ys, minI)), starts, best);
  }

  /** `geoid_canon_ring_v2`. A coordinate outside bigint fails the quantizing
      cast; an array longer than its int4 length fails before anything else. */
  method CanonRingInSql(ring: seq<Coordinate>, arrange: seq<int> -> seq<int>) returns (r: Result<bytes>)
    requires Arrangement(arrange)
    ensures r.Ok? ==> CastsToBigint(ring) && r == RingCode(Listing(ring))
    ensures CastsToBigint(ring) && |ring| <= INT4_MAX ==> r == RingCode(Listing(ring))
  {
    hide LeastRotation, Shoelace, Dedup, RingBytes, Quantize;
    if !CastsToBigint(ring) {
      return Err(Overflow);
    }
    QuantizeAllIsLattice(Listing(ring));
    var points := QuantizedInSql(ring);
    var xs, ys, n := RemoveRepeatsInSql(points);
    if |xs| > INT4_MAX {
      return Err(Overflow);
    }
    if n < 3 {
      return Err(CollapsedRing(n));
    }
    var area := AreaInSql(xs, ys, n);
    if area == 0 {
      return Err(ZeroAreaRing);
    }
    if area < 0 {
      BackwardsIsReverse(xs, ys, n);
      xs, ys := Backwards(xs, n), Backwards(ys, n);
    }
    var best := ChooseStartInSql(xs, ys, n, arrange);
    ghost var vertices := Rotate(Zip(xs[..n], ys[..n]), best - 1);
    assert CanonCycle(points) == Canonical(vertices);
    CanonMembers(points);
    assert |vertices| == n;
    var result := SerializeInSql(xs, ys, n, best);
    return Ok(result);
  }

  /** The quantizing sub-select: geoid_quantize_v2 of each listed vertex. */
  function QuantizedInSql(ring: seq<Coordinate>): (r: Cycle)
    requires CastsToBigint(ring)
    ensures r == LatticeRing(Listing(ring))
    ensures forall p :: p in r ==> PackablePoint(p)
  {
    seq(|ring|, i requires 0 <= i < |ring| => Point(Quantize(ring[i].x), Quantize(ring[i].y)))
  }

  /** The two programs agree on every ring a linestring can hold: they accept the
      same rings, with the same bytes, and, unless a coordinate overflows, reject
      with the same verdict. The listing order of tied starts plays no part. */
  method TwinsAgree(ring: seq<Coordinate>, arrange: seq<int> -> seq<int>)
    returns (python: Result<bytes>, sql: Result<bytes>)
    requires Arrangement(arrange) && |ring| <= INT4_MAX
    ensures python.Ok? <==> sql.Ok?
    ensures python.Ok? ==> python == sql
    ensures CastsToBigint(ring) ==> python == sql
  {
    var vertices := CanonRingInPython(Listing(ring));
    python := match vertices case Err(e) => Err(e) case Ok(v) => Pack(v);
    sql := CanonRingInSql(ring, arrange);
    if python.Ok? {
      UnpackableStays(ring);
    }
  }

  /** A coordinate too large for bigint survives to the Python serializer, which
      cannot pack it. */
  lemma UnpackableStays(ring: seq<Coordinate>)
    requires RingCode(Listing(ring)).Ok?
    ensures CastsToBigint(ring)
  {
    var points := LatticeRing(Listing(ring));
    QuantizeAllIsLattice(Listing(ring));
    CanonMembers(points);
    forall i | 0 <= i < |ring| ensures Bigint(Quantize(ring[i].x)) && Bigint(Quantize(ring[i].y)) {
      assert points[i] in points;
      assert points[i] in CanonCycle(points).vertices;
    }
  }
}
