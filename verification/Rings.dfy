/** The canonical form of one ring on the integer lattice: cyclic removal of
    repeated vertices, exact shoelace area, orientation, least rotation.

    Everything here is a function of the quantized vertex list; `RingProcedures`
    holds the loops of the two programs that compute it.
  */
module Rings {
  import opened Orders

  datatype Point = Point(x: int, y: int)

  type Cycle = seq<Point>

  /** Python's tuple order and SQL's ORDER BY x, y. */
  predicate PointLe(p: Point, q: Point) {
    p.x < q.x || (p.x == q.x && p.y <= q.y)
  }

  predicate VerticesLe(a: Cycle, b: Cycle) {
    LexLe(PointLe, a, b)
  }

  // ---- Cyclic removal of consecutive duplicates

  /** Keep a vertex when it differs from the one listed just before it. */
  function Forward(s: Cycle): Cycle {
    if |s| <= 1 then s
    else if s[|s| - 1] == s[|s| - 2] then Forward(s[..|s| - 1])
    else Forward(s[..|s| - 1]) + [s[|s| - 1]]
  }

  /** Drop trailing vertices equal to the first one. */
  function Trim(s: Cycle): Cycle {
    if |s| > 1 && s[|s| - 1] == s[0] then Trim(s[..|s| - 1]) else s
  }

  function Dedup(s: Cycle): Cycle {
    Trim(Forward(s))
  }

  /** No two neighbours on the cycle coincide. */
  ghost predicate Reduced(s: Cycle) {
    && (forall i :: 0 <= i < |s| - 1 ==> s[i] != s[i + 1])
    && (|s| > 1 ==> s[|s| - 1] != s[0])
  }

  ghost predicate Stepwise(s: Cycle) {
    forall i :: 0 <= i < |s| - 1 ==> s[i] != s[i + 1]
  }

  lemma StepwisePrefix(s: Cycle)
    requires Stepwise(s) && s != []
    ensures Stepwise(s[..|s| - 1])
  {
    var t := s[..|s| - 1];
    forall i | 0 <= i < |t| - 1 ensures t[i] != t[i + 1] {
      assert s[i] != s[i + 1];
    }
  }

  lemma {:induction false} ForwardFacts(s: Cycle)
    ensures Stepwise(Forward(s))
    ensures s != [] ==> Forward(s) != [] && Forward(s)[0] == s[0] && Forward(s)[|Forward(s)| - 1] == s[|s| - 1]
    ensures |Forward(s)| <= |s|
    ensures Stepwise(s) ==> Forward(s) == s
  {
    if |s| > 1 {
      var t := s[..|s| - 1];
      ForwardFacts(t);
      assert t[|t| - 1] == s[|s| - 2];
      if Stepwise(s) {
        StepwisePrefix(s);
        assert s[|s| - 2] != s[|s| - 2 + 1];
        assert s == t + [s[|s| - 1]];
      }
    }
  }

  lemma {:induction false} TrimFacts(s: Cycle)
    requires Stepwise(s)
    ensures Reduced(Trim(s))
    ensures s != [] ==> Trim(s) != []
    ensures Trim(s) <= s
    ensures |s| > 1 ==> |Trim(s)| > 1 || s == [s[0], s[0]]
    ensures Reduced(s) ==> Trim(s) == s
  {
    if |s| > 1 && s[|s| - 1] == s[0] {
      var t := s[..|s| - 1];
      StepwisePrefix(s);
      TrimFacts(t);
      assert s[|s| - 2] != s[|s| - 2 + 1];
    }
  }

  /** Dedup leaves a cycle without coincident neighbours, and leaves such a
      cycle alone. */
  lemma DedupReduces(s: Cycle)
    ensures Reduced(Dedup(s))
    ensures Reduced(s) ==> Dedup(s) == s
    ensures |Dedup(s)| <= |s|
    ensures s != [] ==> Dedup(s) != [] && Dedup(s)[0] == s[0]
  {
    ForwardFacts(s);
    TrimFacts(Forward(s));
  }

  // ---- Rotation and reversal

  function Rotate(s: Cycle, k: nat): (r: Cycle)
    requires k <= |s|
  {
    s[k..] + s[..k]
  }

  lemma RotateIndex(s: Cycle, k: nat, t: nat)
    requires k <= |s| && t < |s|
    ensures |Rotate(s, k)| == |s| && Rotate(s, k)[t] == s[if k + t < |s| then k + t else k + t - |s|]
  {
  }

  function Reverse(s: Cycle): (r: Cycle)
    ensures |r| == |s|
  {
    seq(|s|, i requires 0 <= i < |s| => s[|s| - 1 - i])
  }

  ghost predicate IsRotation(a: Cycle, b: Cycle) {
    exists k :: 0 <= k <= |b| && a == Rotate(b, k)
  }

  /** The same closed walk up to where it starts and which way it is wound. */
  ghost predicate SameCycle(a: Cycle, b: Cycle) {
    IsRotation(a, b) || IsRotation(a, Reverse(b))
  }

  lemma RotateRotate(s: Cycle, j: nat, k: nat)
    requires j <= |s| && k <= |s|
    ensures Rotate(Rotate(s, j), k) == Rotate(s, if j + k <= |s| then j + k else j + k - |s|)
  {
    var a, b := Rotate(Rotate(s, j), k), Rotate(s, if j + k <= |s| then j + k else j + k - |s|);
    forall t | 0 <= t < |s| ensures a[t] == b[t] {
      RotateIndex(Rotate(s, j), k, t);
      RotateIndex(s, j, if k + t < |s| then k + t else k + t - |s|);
      RotateIndex(s, if j + k <= |s| then j + k else j + k - |s|, t);
    }
  }

  lemma ReverseRotate(s: Cycle, k: nat)
    requires k <= |s|
    ensures Reverse(Rotate(s, k)) == Rotate(Reverse(s), |s| - k)
  {
    var a, b := Reverse(Rotate(s, k)), Rotate(Reverse(s), |s| - k);
    forall t | 0 <= t < |s| ensures a[t] == b[t] {
      RotateIndex(s, k, |s| - 1 - t);
      RotateIndex(Reverse(s), |s| - k, t);
    }
  }

  lemma ReverseReverse(s: Cycle)
    ensures Reverse(Reverse(s)) == s
  {
  }

  lemma RotationReflexive(a: Cycle)
    ensures IsRotation(a, a)
  {
    assert a == Rotate(a, 0);
  }

  lemma RotationSymmetric(a: Cycle, b: Cycle)
    requires IsRotation(a, b)
    ensures IsRotation(b, a)
  {
    var k :| 0 <= k <= |b| && a == Rotate(b, k);
    assert b == Rotate(a, |a| - k);
  }

  lemma RotationTransitive(a: Cycle, b: Cycle, c: Cycle)
    requires IsRotation(a, b) && IsRotation(b, c)
    ensures IsRotation(a, c)
  {
    var k :| 0 <= k <= |b| && a == Rotate(b, k);
    var j :| 0 <= j <= |c| && b == Rotate(c, j);
    RotateRotate(c, j, k);
  }

  lemma RotationReverse(a: Cycle, b: Cycle)
    requires IsRotation(a, b)
    ensures IsRotation(Reverse(a), Reverse(b))
  {
    var k :| 0 <= k <= |b| && a == Rotate(b, k);
    ReverseRotate(b, k);
  }

  /** SameCycle is an equivalence. */
  lemma SameCycleEquivalence(a: Cycle, b: Cycle, c: Cycle)
    ensures SameCycle(a, a)
    ensures SameCycle(a, b) ==> SameCycle(b, a)
    ensures SameCycle(a, b) && SameCycle(b, c) ==> SameCycle(a, c)
  {
    RotationReflexive(a);
    ReverseReverse(b);
    ReverseReverse(c);
    if IsRotation(a, b) { RotationSymmetric(a, b); }
    if IsRotation(a, Reverse(b)) {
      RotationReverse(a, Reverse(b));
      RotationSymmetric(Reverse(a), b);
    }
    if IsRotation(b, c) { RotationReverse(b, c); }
    if IsRotation(b, Reverse(c)) { RotationReverse(b, Reverse(c)); }
    if SameCycle(a, b) && SameCycle(b, c) {
      var m := if IsRotation(a, b) then b else Reverse(b);
      var d := if IsRotation(m, c) then c else Reverse(c);
      assert IsRotation(m, d);
      RotationTransitive(a, m, d);
    }
  }

  // ---- Exact shoelace

  function Cross(p: Point, q: Point): int {
    p.x * q.y - q.x * p.y
  }

  function PathSum(s: Cycle): int {
    if |s| <= 1 then 0 else PathSum(s[..|s| - 1]) + Cross(s[|s| - 2], s[|s| - 1])
  }

  /** Twice the signed area. */
  function Shoelace(s: Cycle): int {
    if s == [] then 0 else PathSum(s) + Cross(s[|s| - 1], s[0])
  }

  lemma CrossAntisymmetric(p: Point, q: Point)
    ensures Cross(p, q) == -Cross(q, p) && Cross(p, p) == 0
  {
  }

  lemma {:induction false} PathSumConcat(a: Cycle, b: Cycle)
    requires a != [] && b != []
    ensures PathSum(a + b) == PathSum(a) + Cross(a[|a| - 1], b[0]) + PathSum(b)
  {
    var s := a + b;
    if |b| == 1 {
      assert s[..|s| - 1] == a;
    } else {
      assert s[..|s| - 1] == a + b[..|b| - 1];
      PathSumConcat(a, b[..|b| - 1]);
    }
  }

  lemma ShoelaceSwap(a: Cycle, b: Cycle)
    requires a != [] && b != []
    ensures Shoelace(a + b) == Shoelace(b + a)
  {
    PathSumConcat(a, b);
    PathSumConcat(b, a);
  }

  lemma ShoelaceRotate(s: Cycle, k: nat)
    requires k <= |s|
    ensures Shoelace(Rotate(s, k)) == Shoelace(s)
  {
    if 0 < k < |s| {
      ShoelaceSwap(s[..k], s[k..]);
      assert s == s[..k] + s[k..];
    } else {
      assert Rotate(s, k) == s;
    }
  }

  lemma {:induction false} PathSumReverse(s: Cycle)
    ensures PathSum(Reverse(s)) == -PathSum(s)
  {
    if |s| > 1 {
      var t, last := s[..|s| - 1], s[|s| - 1];
      assert Reverse(s) == [last] + Reverse(t);
      PathSumConcat([last], Reverse(t));
      PathSumReverse(t);
      CrossAntisymmetric(last, t[|t| - 1]);
    }
  }

  lemma ShoelaceReverse(s: Cycle)
    ensures Shoelace(Reverse(s)) == -Shoelace(s)
  {
    PathSumReverse(s);
    if s != [] {
      CrossAntisymmetric(s[|s| - 1], s[0]);
    }
  }

  lemma {:induction false} PathSumForward(s: Cycle)
    ensures PathSum(Forward(s)) == PathSum(s)
  {
    if |s| > 1 {
      var t := s[..|s| - 1];
      PathSumForward(t);
      ForwardFacts(t);
      CrossAntisymmetric(s[|s| - 1], s[|s| - 1]);
      if s[|s| - 1] != s[|s| - 2] {
        PathSumConcat(Forward(t), [s[|s| - 1]]);
      }
    }
  }

  lemma {:induction false} ShoelaceTrim(s: Cycle)
    ensures Shoelace(Trim(s)) == Shoelace(s)
  {
    if |s| > 1 && s[|s| - 1] == s[0] {
      ShoelaceTrim(s[..|s| - 1]);
      CrossAntisymmetric(s[0], s[0]);
    }
  }

  /** The area is that of the closed walk: unchanged by the start vertex and by
      collapsing repeats, negated by the winding. */
  lemma ShoelaceInvariants(s: Cycle, k: nat)
    requires k <= |s|
    ensures Shoelace(Rotate(s, k)) == Shoelace(s)
    ensures Shoelace(Reverse(s)) == -Shoelace(s)
    ensures Shoelace(Dedup(s)) == Shoelace(s)
  {
    ShoelaceRotate(s, k);
    ShoelaceReverse(s);
    ForwardFacts(s);
    PathSumForward(s);
    ShoelaceTrim(Forward(s));
  }

  // ---- Least rotation

  lemma PointOrder()
    ensures TotalOrder(PointLe)
  {
  }

  /** The least rotation among those starting at index 0..k-1. */
  function LeastUpTo(s: Cycle, k: nat): Cycle
    requires 1 <= k <= |s|
  {
    if k == 1 then s
    else
      var best := LeastUpTo(s, k - 1);
      if VerticesLe(best, Rotate(s, k - 1)) then best else Rotate(s, k - 1)
  }

  function LeastRotation(s: Cycle): Cycle
    requires s != []
  {
    LeastUpTo(s, |s|)
  }

  lemma {:induction false} LeastUpToIsLeast(s: Cycle, k: nat)
    requires 1 <= k <= |s|
    ensures exists j :: 0 <= j < k && LeastUpTo(s, k) == Rotate(s, j)
    ensures forall j :: 0 <= j < k ==> VerticesLe(LeastUpTo(s, k), Rotate(s, j))
  {
    PointOrder();
    if k == 1 {
      assert s == Rotate(s, 0);
      LexTotal(PointLe, s, s);
    } else {
      LeastUpToIsLeast(s, k - 1);
      var best, r := LeastUpTo(s, k - 1), Rotate(s, k - 1);
      LexTotal(PointLe, best, r);
      LexTotal(PointLe, r, r);
      forall j | 0 <= j < k ensures VerticesLe(LeastUpTo(s, k), Rotate(s, j)) {
        if j < k - 1 && !VerticesLe(best, r) {
          LexTransitive(PointLe, r, best, Rotate(s, j));
        }
      }
    }
  }

  ghost predicate IsLeastRotation(r: Cycle, s: Cycle) {
    && IsRotation(r, s)
    && (forall k {:trigger Rotate(s, k)} :: 0 <= k <= |s| ==> VerticesLe(r, Rotate(s, k)))
  }

  lemma LeastRotationIsLeast(s: Cycle)
    requires s != []
    ensures IsLeastRotation(LeastRotation(s), s)
  {
    LeastUpToIsLeast(s, |s|);
    assert Rotate(s, |s|) == Rotate(s, 0);
  }

  lemma LeastRotationUnique(r: Cycle, t: Cycle, s: Cycle)
    requires IsLeastRotation(r, s) && IsLeastRotation(t, s)
    ensures r == t
  {
    PointOrder();
    LexTotal(PointLe, r, t);
  }

  /** Being the least rotation does not depend on where the cycle is cut. */
  lemma LeastRotationOfRotation(a: Cycle, b: Cycle)
    requires b != [] && IsRotation(a, b)
    ensures LeastRotation(a) == LeastRotation(b)
  {
    var r, s := LeastRotation(a), LeastRotation(b);
    LeastRotationIsLeast(a);
    LeastRotationIsLeast(b);
    RotationTransitive(r, a, b);
    RotationSymmetric(a, b);
    RotationTransitive(s, b, a);
    PointOrder();
    var i :| 0 <= i <= |b| && r == Rotate(b, i);
    var j :| 0 <= j <= |a| && s == Rotate(a, j);
    LexTotal(PointLe, r, s);
  }

  // ---- The canonical ring

  datatype RingResult = Canonical(vertices: Cycle) | Collapsed(count: nat) | ZeroArea

  function Oriented(s: Cycle): Cycle {
    if Shoelace(s) < 0 then Reverse(s) else s
  }

  function CanonCycle(points: Cycle): RingResult {
    var kept := Dedup(points);
    if |kept| < 3 then Collapsed(|kept|)
    else if Shoelace(kept) == 0 then ZeroArea
    else Canonical(LeastRotation(Oriented(kept)))
  }

  /** Two listings of one ring, on the lattice. */
  ghost predicate SameRing(p: Cycle, q: Cycle) {
    SameCycle(Dedup(p), Dedup(q))
  }

  lemma SameCycleMeasures(a: Cycle, b: Cycle)
    requires SameCycle(a, b)
    ensures |a| == |b|
    ensures Shoelace(a) == Shoelace(b) || Shoelace(a) == -Shoelace(b)
    ensures Shoelace(a) != 0 ==> IsRotation(Oriented(a), Oriented(b))
  {
    ShoelaceReverse(a);
    ShoelaceReverse(b);
    if IsRotation(a, b) {
      var k :| 0 <= k <= |b| && a == Rotate(b, k);
      ShoelaceRotate(b, k);
      RotationReverse(a, b);
    } else {
      var k :| 0 <= k <= |b| && a == Rotate(Reverse(b), k);
      ShoelaceRotate(Reverse(b), k);
      RotationReverse(a, Reverse(b));
      ReverseReverse(b);
    }
  }

  lemma OrientedIsSameCycle(a: Cycle)
    ensures SameCycle(a, Oriented(a)) && SameCycle(Oriented(a), a)
    ensures Shoelace(a) != 0 ==> Shoelace(Oriented(a)) > 0
  {
    RotationReflexive(a);
    RotationReflexive(Reverse(a));
    ReverseReverse(a);
    ShoelaceReverse(a);
  }

  /** Equivalent listings meet the same fate: both rejected for the same reason,
      or both given the same canonical vertices. */
  lemma SameRingSameResult(p: Cycle, q: Cycle)
    requires SameRing(p, q)
    ensures CanonCycle(p) == CanonCycle(q)
  {
    SameCycleMeasures(Dedup(p), Dedup(q));
    if CanonCycle(p).Canonical? {
      LeastRotationOfRotation(Oriented(Dedup(p)), Oriented(Dedup(q)));
    }
  }

  lemma CanonIsSameCycle(p: Cycle)
    requires CanonCycle(p).Canonical?
    ensures SameCycle(CanonCycle(p).vertices, Dedup(p)) && SameCycle(Dedup(p), CanonCycle(p).vertices)
  {
    var kept, c := Dedup(p), CanonCycle(p).vertices;
    LeastRotationIsLeast(Oriented(kept));
    OrientedIsSameCycle(kept);
    SameCycleEquivalence(c, Oriented(kept), kept);
    SameCycleEquivalence(c, kept, kept);
  }

  /** Complete invariant for rings: two accepted rings get the same canonical
      vertices exactly when they are the same ring up to start vertex, winding
      and repeated vertices. */
  lemma RingCompleteInvariant(p: Cycle, q: Cycle)
    requires CanonCycle(p).Canonical? && CanonCycle(q).Canonical?
    ensures CanonCycle(p) == CanonCycle(q) <==> SameRing(p, q)
  {
    if SameRing(p, q) {
      SameRingSameResult(p, q);
    }
    if CanonCycle(p) == CanonCycle(q) {
      CanonIsSameCycle(p);
      CanonIsSameCycle(q);
      SameCycleEquivalence(Dedup(p), CanonCycle(p).vertices, Dedup(q));
    }
  }

  lemma ReducedRotate(s: Cycle, k: nat)
    requires Reduced(s) && k <= |s|
    ensures Reduced(Rotate(s, k))
  {
    var r := Rotate(s, k);
    forall i | 0 <= i < |r| - 1 ensures r[i] != r[i + 1] {
      var j := if i + k < |s| then i + k else i + k - |s|;
      RotateIndex(s, k, i);
      RotateIndex(s, k, i + 1);
      if j < |s| - 1 {
        assert s[j] != s[j + 1];
      }
    }
    if |s| > 1 {
      RotateIndex(s, k, 0);
      RotateIndex(s, k, |s| - 1);
      assert 0 < k < |s| ==> s[k - 1] != s[k - 1 + 1];
    }
  }

  lemma ReducedReverse(s: Cycle)
    requires Reduced(s)
    ensures Reduced(Reverse(s))
  {
    var r := Reverse(s);
    forall i | 0 <= i < |r| - 1 ensures r[i] != r[i + 1] {
      var j := |s| - 2 - i;
      assert s[j] != s[j + 1];
    }
  }

  /** Reduced, counter-clockwise, and no greater than any of its rotations. */
  ghost predicate NormalForm(c: Cycle) {
    |c| >= 3 && Reduced(c) && Shoelace(c) > 0 && IsLeastRotation(c, c)
  }

  lemma LeastRotationNormal(o: Cycle)
    requires |o| >= 3 && Reduced(o) && Shoelace(o) > 0
    ensures NormalForm(LeastRotation(o))
  {
    var c := LeastRotation(o);
    LeastRotationIsLeast(o);
    var k :| 0 <= k <= |o| && c == Rotate(o, k);
    ReducedRotate(o, k);
    ShoelaceRotate(o, k);
    LeastRotationOfRotation(c, o);
    LeastRotationIsLeast(c);
  }

  lemma NormalFormIsFixed(c: Cycle)
    requires NormalForm(c)
    ensures CanonCycle(c) == Canonical(c)
  {
    DedupReduces(c);
    LeastRotationIsLeast(c);
    LeastRotationUnique(LeastRotation(c), c, c);
  }

  lemma OrientedNormal(kept: Cycle)
    requires |kept| >= 3 && Reduced(kept) && Shoelace(kept) != 0
    ensures NormalForm(LeastRotation(Oriented(kept)))
  {
    ReducedReverse(kept);
    ShoelaceReverse(kept);
    LeastRotationNormal(Oriented(kept));
  }

  /** Canonical vertices are in normal form, and canonicalization leaves normal
      forms alone. */
  lemma CanonNormalForm(p: Cycle)
    requires CanonCycle(p).Canonical?
    ensures NormalForm(CanonCycle(p).vertices)
    ensures CanonCycle(CanonCycle(p).vertices) == CanonCycle(p)
  {
    DedupReduces(p);
    OrientedNormal(Dedup(p));
    NormalFormIsFixed(CanonCycle(p).vertices);
  }

  // ---- Which rings are accepted, and where they start

  lemma ShortHasNoArea(s: Cycle)
    requires |s| < 3
    ensures Shoelace(s) == 0
  {
    if |s| == 2 {
      CrossAntisymmetric(s[0], s[1]);
      assert PathSum(s[..1]) == 0;
      assert PathSum(s) == Cross(s[0], s[1]);
    } else if |s| == 1 {
      CrossAntisymmetric(s[0], s[0]);
    }
  }

  /** A ring is accepted exactly when the walk it lists encloses a non-zero area;
      it is reported as collapsed exactly when fewer than three vertices remain. */
  lemma AcceptedExactly(p: Cycle)
    ensures CanonCycle(p).Canonical? <==> Shoelace(p) != 0
    ensures CanonCycle(p).Collapsed? <==> |Dedup(p)| < 3
    ensures CanonCycle(p).Collapsed? ==> CanonCycle(p).count == |Dedup(p)|
  {
    ShoelaceInvariants(p, 0);
    if |Dedup(p)| < 3 {
      ShortHasNoArea(Dedup(p));
    }
  }

  /** The canonical ring starts at its westernmost vertex, the southernmost of
      these. */
  lemma CanonStartsSouthWest(p: Cycle, v: Point)
    requires CanonCycle(p).Canonical? && v in p
    ensures var c := CanonCycle(p).vertices; c != [] && (c[0].x < v.x || (c[0].x == v.x && c[0].y <= v.y))
  {
    var c := CanonCycle(p).vertices;
    CanonNormalForm(p);
    CanonMembers(p);
    var k :| 0 <= k < |c| && c[k] == v;
    RotateIndex(c, k, 0);
    assert VerticesLe(c, Rotate(c, k));
  }

  // ---- Canonicalization neither invents nor loses a vertex

  lemma {:induction false} ForwardMembers(s: Cycle)
    ensures forall p :: p in Forward(s) <==> p in s
  {
    if |s| > 1 {
      var t, last := s[..|s| - 1], s[|s| - 1];
      ForwardMembers(t);
      assert s == t + [last];
      assert t[|t| - 1] in t;
    }
  }

  lemma {:induction false} TrimMembers(s: Cycle)
    ensures forall p :: p in Trim(s) <==> p in s
  {
    if |s| > 1 && s[|s| - 1] == s[0] {
      var t := s[..|s| - 1];
      TrimMembers(t);
      assert s == t + [s[0]];
      assert t[0] in t;
    }
  }

  lemma RotateMembers(s: Cycle, k: nat)
    requires k <= |s|
    ensures forall p :: p in Rotate(s, k) <==> p in s
  {
    assert s == s[..k] + s[k..];
  }

  lemma ReverseMembers(s: Cycle)
    ensures forall p :: p in Reverse(s) <==> p in s
  {
    forall i | 0 <= i < |s| ensures s[i] in Reverse(s) {
      assert Reverse(s)[|s| - 1 - i] == s[i];
    }
  }

  lemma CanonMembers(points: Cycle)
    ensures CanonCycle(points).Canonical? ==>
      |CanonCycle(points).vertices| <= |points| && forall p :: p in CanonCycle(points).vertices <==> p in points
  {
    if CanonCycle(points).Canonical? {
      var kept, c := Dedup(points), CanonCycle(points).vertices;
      ForwardMembers(points);
      TrimMembers(Forward(points));
      DedupReduces(points);
      ReverseMembers(kept);
      LeastRotationIsLeast(Oriented(kept));
      var k :| 0 <= k <= |kept| && c == Rotate(Oriented(kept), k);
      RotateMembers(Oriented(kept), k);
    }
  }
}
