/** What "the same ring" means without mentioning canonicalization: one listing
    of the vertices can be turned into the other by choosing another start
    vertex, walking the other way, and repeating or un-repeating a vertex.
    Repeating the first vertex at the end (closing the ring) is a composition
    of these.
  */
module Redrawing {
  import opened Orders
  import opened Rings

  datatype Move =
    | StartAt(k: nat)
    | Rewind
    | Repeat(i: nat)
    | Merge(i: nat)

  predicate CanApply(m: Move, p: Cycle) {
    match m
    case StartAt(k) => k <= |p|
    case Rewind => true
    case Repeat(i) => i < |p|
    case Merge(i) => i + 1 < |p| && p[i] == p[i + 1]
  }

  function Apply(m: Move, p: Cycle): Cycle
    requires CanApply(m, p)
  {
    match m
    case StartAt(k) => Rotate(p, k)
    case Rewind => Reverse(p)
    case Repeat(i) => p[..i + 1] + p[i..]
    case Merge(i) => p[..i] + p[i + 1..]
  }

  ghost predicate OneMove(p: Cycle, q: Cycle) {
    exists m :: CanApply(m, p) && Apply(m, p) == q
  }

  ghost predicate MoveAt(t: seq<Cycle>, i: nat) {
    i + 1 < |t| && OneMove(t[i], t[i + 1])
  }

  /** The listings passed on the way from one to the other. */
  ghost predicate Trail(t: seq<Cycle>, p: Cycle, q: Cycle) {
    && t != [] && t[0] == p && t[|t| - 1] == q
    && forall i :: 0 <= i < |t| - 1 ==> MoveAt(t, i)
  }

  ghost predicate Redrawn(p: Cycle, q: Cycle) {
    exists t :: Trail(t, p, q)
  }

  // ---- Redrawn is an equivalence

  lemma RedrawnSelf(p: Cycle)
    ensures Redrawn(p, p)
  {
    assert Trail([p], p, p);
  }

  lemma RedrawnMove(m: Move, p: Cycle)
    requires CanApply(m, p)
    ensures Redrawn(p, Apply(m, p))
  {
    var t := [p, Apply(m, p)];
    assert OneMove(t[0], t[1]);
    assert Trail(t, p, Apply(m, p));
  }

  lemma RedrawnTransitive(p: Cycle, q: Cycle, r: Cycle)
    requires Redrawn(p, q) && Redrawn(q, r)
    ensures Redrawn(p, r)
  {
    var a :| Trail(a, p, q);
    var b :| Trail(b, q, r);
    var t := a + b[1..];
    forall i | 0 <= i < |t| - 1 ensures MoveAt(t, i) {
      if i < |a| - 1 {
        assert MoveAt(a, i);
      } else {
        assert MoveAt(b, i - |a| + 1);
      }
    }
    assert Trail(t, p, r);
  }

  /** Every move can be undone by one move. */
  function Undo(m: Move, p: Cycle): Move
    requires CanApply(m, p)
  {
    match m
    case StartAt(k) => StartAt(|p| - k)
    case Rewind => Rewind
    case Repeat(i) => Merge(i)
    case Merge(i) => Repeat(i)
  }

  lemma RotateBack(p: Cycle, k: nat)
    requires k <= |p|
    ensures Rotate(Rotate(p, k), |p| - k) == p
  {
    RotateRotate(p, k, |p| - k);
    assert Rotate(p, |p|) == p;
  }

  lemma MergeRepeated(p: Cycle, i: nat)
    requires i < |p|
    ensures var r := Apply(Repeat(i), p); CanApply(Merge(i), r) && Apply(Merge(i), r) == p
  {
    var r := Apply(Repeat(i), p);
    assert r[..i] == p[..i] && r[i + 1..] == p[i..];
  }

  lemma RepeatMerged(p: Cycle, i: nat)
    requires i + 1 < |p| && p[i] == p[i + 1]
    ensures var r := Apply(Merge(i), p); CanApply(Repeat(i), r) && Apply(Repeat(i), r) == p
  {
    var r := Apply(Merge(i), p);
    assert r[..i + 1] == p[..i + 1] && r[i..] == p[i + 1..];
  }

  lemma UndoUndoes(m: Move, p: Cycle)
    requires CanApply(m, p)
    ensures CanApply(Undo(m, p), Apply(m, p)) && Apply(Undo(m, p), Apply(m, p)) == p
  {
    match m
    case StartAt(k) => RotateBack(p, k);
    case Rewind => ReverseReverse(p);
    case Repeat(i) => MergeRepeated(p, i);
    case Merge(i) => RepeatMerged(p, i);
  }

  lemma OneMoveBack(p: Cycle, q: Cycle)
    requires OneMove(p, q)
    ensures OneMove(q, p)
  {
    var m :| CanApply(m, p) && Apply(m, p) == q;
    UndoUndoes(m, p);
  }

  lemma RedrawnSymmetric(p: Cycle, q: Cycle)
    requires Redrawn(p, q)
    ensures Redrawn(q, p)
  {
    var t :| Trail(t, p, q);
    var n := |t|;
    var u := seq(n, i requires 0 <= i < n => t[n - 1 - i]);
    forall i | 0 <= i < n - 1 ensures MoveAt(u, i) {
      assert MoveAt(t, n - 2 - i);
      OneMoveBack(t[n - 2 - i], t[n - 1 - i]);
    }
    assert Trail(u, q, p);
  }

  // ---- Each move keeps the de-duplicated cycle

  /** Two stepwise lists put end to end. */
  function Join(f: Cycle, g: Cycle): Cycle
    requires f != [] && g != []
  {
    if f[|f| - 1] == g[0] then f + g[1..] else f + g
  }

  lemma ForwardSnoc(a: Cycle, v: Point)
    requires a != []
    ensures Forward(a + [v]) == if a[|a| - 1] == v then Forward(a) else Forward(a) + [v]
  {
    assert (a + [v])[..|a|] == a;
  }

  lemma InitLast(b: Cycle)
    requires b != []
    ensures b == b[..|b| - 1] + [b[|b| - 1]]
  {
  }

  lemma {:induction false} ForwardConcat(a: Cycle, b: Cycle)
    requires a != [] && b != []
    ensures Forward(a) != [] && Forward(b) != []
    ensures Forward(a + b) == Join(Forward(a), Forward(b))
    decreases |b|
  {
    ForwardFacts(a);
    ForwardFacts(b);
    if |b| == 1 {
      assert b == [b[0]];
      ForwardSnoc(a, b[0]);
    } else {
      var b' := b[..|b| - 1];
      InitLast(b);
      ForwardFacts(b');
      ForwardConcat(a, b');
      ForwardOfThree(a, b', b[|b| - 1]);
      JoinSnoc(Forward(a), Forward(b'), b[|b| - 1]);
    }
  }

  lemma ForwardOfThree(a: Cycle, b: Cycle, v: Point)
    requires a != [] && b != []
    ensures var same := b[|b| - 1] == v;
            && Forward(a + (b + [v])) == (if same then Forward(a + b) else Forward(a + b) + [v])
            && Forward(b + [v]) == (if same then Forward(b) else Forward(b) + [v])
  {
    Assoc(a, b, [v]);
    assert (a + b)[|a + b| - 1] == b[|b| - 1];
    ForwardSnoc(a + b, v);
    ForwardSnoc(b, v);
  }

  lemma JoinSnoc(f: Cycle, g: Cycle, v: Point)
    requires f != [] && g != []
    ensures Join(f, g + [v]) == Join(f, g) + [v]
  {
  }

  lemma RepeatInside(a: Cycle, v: Point, b: Cycle)
    ensures Forward(a + [v] + [v] + b) == Forward(a + [v] + b)
  {
    var c := a + [v];
    ForwardSnoc(c, v);
    if b == [] {
      assert c + [v] + b == c + [v] && c + b == c;
    } else {
      ForwardConcat(c, b);
      ForwardConcat(c + [v], b);
    }
  }

  lemma SplitAround(p: Cycle, i: nat)
    requires i < |p|
    ensures p == p[..i] + [p[i]] + p[i + 1..]
    ensures p[..i + 1] + p[i..] == p[..i] + [p[i]] + [p[i]] + p[i + 1..]
  {
  }

  lemma RepeatKeepsForward(p: Cycle, i: nat)
    requires i < |p|
    ensures Forward(p[..i + 1] + p[i..]) == Forward(p)
  {
    SplitAround(p, i);
    RepeatInside(p[..i], p[i], p[i + 1..]);
  }

  /** On a stepwise list the wrap-around loop drops at most one vertex. */
  lemma TrimOnce(f: Cycle)
    requires Stepwise(f)
    ensures Trim(f) == if |f| > 1 && f[|f| - 1] == f[0] then f[..|f| - 1] else f
  {
    if |f| > 1 && f[|f| - 1] == f[0] {
      assert f[|f| - 2] != f[|f| - 2 + 1];
    }
  }

  lemma RotateByOneStepwise(v: Point, f: Cycle)
    requires f != [] && Stepwise(f)
    requires Stepwise(Join([v], f)) && Stepwise(Join(f, [v]))
    ensures IsRotation(Trim(Join(f, [v])), Trim(Join([v], f)))
  {
    var g, h := Join([v], f), Join(f, [v]);
    TrimOnce(g);
    TrimOnce(h);
    if v == f[0] {
      TrimOnce(f);
      JoinFront(v, f);
      assert v != f[|f| - 1] ==> h[..|f|] == f;
      RotationReflexive(Trim(f));
    } else if v == f[|f| - 1] {
      assert h == f;
      MoveLastToFront(v, f);
    } else {
      MoveFrontToLast(v, f);
    }
  }

  lemma JoinFront(v: Point, f: Cycle)
    requires f != [] && v == f[0]
    ensures Join([v], f) == f
  {
  }

  lemma MoveFrontToLast(v: Point, f: Cycle)
    ensures f + [v] == Rotate([v] + f, 1)
    ensures IsRotation(f + [v], [v] + f)
  {
  }

  lemma MoveLastToFront(v: Point, f: Cycle)
    requires |f| > 1 && v == f[|f| - 1]
    ensures f == Rotate(([v] + f)[..|f|], 1)
    ensures IsRotation(f, ([v] + f)[..|f|])
  {
    assert ([v] + f)[..|f|] == [v] + f[..|f| - 1];
  }

  lemma RotateByOne(p: Cycle)
    requires p != []
    ensures IsRotation(Dedup(Rotate(p, 1)), Dedup(p))
  {
    var v, t := p[0], p[1..];
    if t == [] {
      assert Rotate(p, 1) == p;
      RotationReflexive(Dedup(p));
    } else {
      assert p == [v] + t && Rotate(p, 1) == t + [v];
      ForwardFacts(t);
      ForwardFacts(p);
      ForwardFacts(Rotate(p, 1));
      ForwardConcat([v], t);
      ForwardConcat(t, [v]);
      RotateByOneStepwise(v, Forward(t));
    }
  }

  lemma {:induction false} RotateKeepsCycle(p: Cycle, k: nat)
    requires k <= |p|
    ensures IsRotation(Dedup(Rotate(p, k)), Dedup(p))
  {
    if k == 0 {
      assert Rotate(p, 0) == p;
      RotationReflexive(Dedup(p));
    } else {
      RotateKeepsCycle(p, k - 1);
      RotateByOne(Rotate(p, k - 1));
      RotateRotate(p, k - 1, 1);
      RotationTransitive(Dedup(Rotate(p, k)), Dedup(Rotate(p, k - 1)), Dedup(p));
    }
  }

  lemma ReverseSnoc(t: Cycle, v: Point)
    ensures Reverse(t + [v]) == [v] + Reverse(t)
  {
  }

  lemma ShortReverse(p: Cycle)
    requires |p| <= 1
    ensures Forward(Reverse(p)) == Reverse(Forward(p))
  {
    assert Reverse(p) == p;
  }

  lemma {:induction false} ForwardReverse(p: Cycle)
    ensures Forward(Reverse(p)) == Reverse(Forward(p))
  {
    if |p| <= 1 {
      ShortReverse(p);
    } else {
      hide Forward;
      ForwardReverse(p[..|p| - 1]);
      ForwardReverseSnoc(p[..|p| - 1], p[|p| - 1]);
      assert p == p[..|p| - 1] + [p[|p| - 1]];
    }
  }

  lemma ReverseFirst(f: Cycle)
    requires f != []
    ensures Reverse(f) != [] && Reverse(f)[0] == f[|f| - 1]
  {
  }

  lemma ForwardReverseSnoc(t: Cycle, last: Point)
    requires t != [] && Forward(Reverse(t)) == Reverse(Forward(t))
    ensures Forward(Reverse(t + [last])) == Reverse(Forward(t + [last]))
  {
    var f := Forward(t);
    assert Forward([last]) == [last];
    ForwardFacts(t);
    ReverseFirst(f);
    hide Forward, Reverse, Stepwise;
    ForwardSnoc(t, last);
    ReverseSnoc(t, last);
    ForwardConcat([last], Reverse(t));
    if last == t[|t| - 1] {
      JoinFront(last, Reverse(f));
    } else {
      ReverseSnoc(f, last);
    }
  }

  lemma ReverseTrim(f: Cycle)
    requires Stepwise(f) && Stepwise(Reverse(f))
    ensures SameCycle(Trim(Reverse(f)), Trim(f))
  {
    TrimOnce(f);
    TrimOnce(Reverse(f));
    if |f| > 1 && f[|f| - 1] == f[0] {
      ReverseClosed(f);
    } else {
      RotationReflexive(Reverse(f));
    }
  }

  lemma ReverseClosed(f: Cycle)
    requires |f| > 1 && f[|f| - 1] == f[0]
    ensures Reverse(f)[..|f| - 1] == Rotate(Reverse(f[..|f| - 1]), |f| - 2)
    ensures IsRotation(Reverse(f)[..|f| - 1], Reverse(f[..|f| - 1]))
  {
    var n := |f| - 1;
    var a, b := Reverse(f)[..n], Rotate(Reverse(f[..n]), n - 1);
    forall t | 0 <= t < n ensures a[t] == b[t] {
      RotateIndex(Reverse(f[..n]), n - 1, t);
    }
    RotateIndex(Reverse(f[..n]), n - 1, 0);
    assert |a| == |b|;
  }

  lemma ReverseKeepsCycle(p: Cycle)
    ensures SameCycle(Dedup(Reverse(p)), Dedup(p))
  {
    ForwardReverse(p);
    ForwardFacts(p);
    ForwardFacts(Reverse(p));
    ReverseTrim(Forward(p));
  }

  lemma MergeKeepsForward(p: Cycle, i: nat)
    requires CanApply(Merge(i), p)
    ensures Forward(Apply(Merge(i), p)) == Forward(p)
  {
    RepeatMerged(p, i);
    RepeatKeepsForward(Apply(Merge(i), p), i);
  }

  lemma SameForwardSameRing(p: Cycle, q: Cycle)
    requires Forward(p) == Forward(q)
    ensures SameRing(p, q)
  {
    RotationReflexive(Dedup(p));
  }

  lemma MoveKeepsRing(m: Move, p: Cycle)
    requires CanApply(m, p)
    ensures SameRing(Apply(m, p), p)
  {
    match m
    case StartAt(k) => RotateKeepsCycle(p, k);
    case Rewind => ReverseKeepsCycle(p);
    case Repeat(i) =>
      RepeatKeepsForward(p, i);
      SameForwardSameRing(Apply(m, p), p);
    case Merge(i) =>
      MergeKeepsForward(p, i);
      SameForwardSameRing(Apply(m, p), p);
  }

  lemma SameRingSelf(p: Cycle)
    ensures SameRing(p, p)
  {
    SameCycleEquivalence(Dedup(p), Dedup(p), Dedup(p));
  }

  lemma OneMoveKeepsRing(p: Cycle, q: Cycle)
    requires OneMove(p, q)
    ensures SameRing(p, q)
  {
    var m :| CanApply(m, p) && Apply(m, p) == q;
    MoveKeepsRing(m, p);
    SameCycleEquivalence(Dedup(q), Dedup(p), Dedup(p));
  }

  lemma SameRingTransitive(p: Cycle, q: Cycle, r: Cycle)
    requires SameRing(p, q) && SameRing(q, r)
    ensures SameRing(p, r)
  {
    SameCycleEquivalence(Dedup(p), Dedup(q), Dedup(r));
  }

  lemma {:induction false} TrailKeepsRing(t: seq<Cycle>, p: Cycle, q: Cycle)
    requires Trail(t, p, q)
    ensures SameRing(p, q)
    decreases |t|
  {
    hide SameRing, OneMove;
    if |t| == 1 {
      SameRingSelf(p);
    } else {
      var u := t[1..];
      assert MoveAt(t, 0);
      OneMoveKeepsRing(p, u[0]);
      forall i | 0 <= i < |u| - 1 ensures MoveAt(u, i) {
        assert MoveAt(t, i + 1);
      }
      TrailKeepsRing(u, u[0], q);
      SameRingTransitive(p, u[0], q);
    }
  }

  // ---- Every listing can be redrawn as its de-duplicated cycle

  lemma RedrawnVia(p: Cycle, m: Move, q: Cycle)
    requires CanApply(m, p) && Redrawn(Apply(m, p), q)
    ensures Redrawn(p, q)
  {
    RedrawnMove(m, p);
    RedrawnTransitive(p, Apply(m, p), q);
  }

  /** Starting at a closing vertex puts it beside the vertex it repeats. */
  lemma DropClosing(p: Cycle)
    requires |p| > 1 && p[|p| - 1] == p[0]
    ensures var r := Rotate(p, |p| - 1); CanApply(Merge(0), r) && Apply(Merge(0), r) == p[..|p| - 1]
  {
  }

  lemma {:induction false} RedrawnAsDedup(p: Cycle)
    ensures Redrawn(p, Dedup(p))
    decreases |p|
  {
    ForwardFacts(p);
    if !Stepwise(p) {
      var i :| 0 <= i < |p| - 1 && p[i] == p[i + 1];
      MergeKeepsForward(p, i);
      RedrawnAsDedup(Apply(Merge(i), p));
      RedrawnVia(p, Merge(i), Dedup(p));
    } else if |p| > 1 && p[|p| - 1] == p[0] {
      RedrawnUnclosed(p);
      StepwisePrefix(p);
      ForwardFacts(p[..|p| - 1]);
      RedrawnAsDedup(p[..|p| - 1]);
      RedrawnTransitive(p, p[..|p| - 1], Dedup(p));
    } else {
      RedrawnSelf(p);
    }
  }

  lemma RedrawnUnclosed(p: Cycle)
    requires |p| > 1 && p[|p| - 1] == p[0]
    ensures Redrawn(p, p[..|p| - 1])
  {
    var r := Rotate(p, |p| - 1);
    DropClosing(p);
    RedrawnMove(StartAt(|p| - 1), p);
    RedrawnMove(Merge(0), r);
    RedrawnTransitive(p, r, p[..|p| - 1]);
  }

  /** Two listings are the same ring, as canonicalization sees it, exactly when
      one can be redrawn into the other. */
  lemma RedrawnIffSameRing(p: Cycle, q: Cycle)
    ensures Redrawn(p, q) <==> SameRing(p, q)
  {
    if Redrawn(p, q) {
      var t :| Trail(t, p, q);
      TrailKeepsRing(t, p, q);
    }
    if SameRing(p, q) {
      var a, b := Dedup(p), Dedup(q);
      RedrawnAsDedup(p);
      RedrawnAsDedup(q);
      RedrawnSymmetric(q, b);
      SameCycleEquivalence(a, b, b);
      if IsRotation(b, a) {
        var k :| 0 <= k <= |a| && b == Rotate(a, k);
        RedrawnVia(a, StartAt(k), q);
      } else {
        var k :| 0 <= k <= |a| && b == Rotate(Reverse(a), k);
        RedrawnVia(Reverse(a), StartAt(k), q);
        RedrawnVia(a, Rewind, q);
      }
      RedrawnTransitive(p, a, q);
    }
  }

  /** A ring is rejected or accepted, and canonicalized, independently of
      whether its listing repeats the first vertex at the end. */
  lemma ClosingVertexIsIrrelevant(p: Cycle)
    requires p != []
    ensures CanonCycle(p + [p[0]]) == CanonCycle(p)
  {
    var r := Apply(Repeat(0), p);
    assert Rotate(r, 1) == p + [p[0]];
    RedrawnSelf(p + [p[0]]);
    RedrawnVia(r, StartAt(1), p + [p[0]]);
    RedrawnVia(p, Repeat(0), p + [p[0]]);
    RedrawnIffSameRing(p, p + [p[0]]);
    SameRingSameResult(p, p + [p[0]]);
  }
}
