/** Quantization of one coordinate: the IEEE-754 binary64 product with 10^7,
    rounded half-even to an integer.

    The product is not a parameter: `Nearest` defines round-to-nearest-even on
    the reals, with the gradual underflow of binary64. Overflow and NaN cannot
    arise from coordinates within the longitude and latitude bounds and are not
    part of this model.
  */
module Quantization {

  const SCALE: int := 10_000_000

  // ---- Rounding to an integer

  /** Python's `round`, C's `rint`, and PostgreSQL's float8-to-bigint cast. */
  function RoundHalfEven(x: real): int {
    var f := x.Floor;
    var d := x - f as real;
    if d < 0.5 then f else if d > 0.5 then f + 1 else if f % 2 == 0 then f else f + 1
  }

  function Abs(x: real): real {
    if x < 0.0 then -x else x
  }

  lemma RoundIsNearest(x: real, n: int)
    ensures Abs(RoundHalfEven(x) as real - x) <= 0.5
    ensures Abs(RoundHalfEven(x) as real - x) <= Abs(n as real - x)
    ensures Abs(n as real - x) < 0.5 ==> RoundHalfEven(x) == n
    ensures Abs(RoundHalfEven(x) as real - x) == 0.5 ==> RoundHalfEven(x) % 2 == 0
  {
    var f := x.Floor;
    assert n <= f ==> n as real <= f as real;
    assert n >= f + 1 ==> n as real >= f as real + 1.0;
  }

  lemma RoundOdd(x: real)
    ensures RoundHalfEven(-x) == -RoundHalfEven(x)
  {
    var f, g := x.Floor, (-x).Floor;
    if x == f as real {
      assert -x == (-f) as real;
      assert g == -f;
    } else {
      assert g == -f - 1;
    }
  }

  lemma RoundMonotone(x: real, y: real)
    requires x <= y
    ensures RoundHalfEven(x) <= RoundHalfEven(y)
  {
    assert x.Floor <= y.Floor;
  }

  // ---- Powers of two

  function Pow2(e: int): real
    decreases if e < 0 then -e else e
  {
    if e == 0 then 1.0 else if e > 0 then 2.0 * Pow2(e - 1) else Pow2(e + 1) / 2.0
  }

  lemma {:induction false} Pow2Step(e: int)
    ensures Pow2(e) > 0.0
    ensures Pow2(e + 1) == 2.0 * Pow2(e)
    decreases if e < 0 then -e else e
  {
    if e > 0 {
      Pow2Step(e - 1);
    } else if e < 0 {
      Pow2Step(e + 1);
    }
  }

  lemma {:induction false} Pow2Add(e: int, n: nat)
    ensures Pow2(e + n) == Pow2(e) * Pow2(n)
  {
    if n > 0 {
      Pow2Add(e, n - 1);
      Pow2Step(e + n - 1);
      Pow2Step(n - 1);
    }
  }

  lemma {:induction false} Pow2IsWhole(n: nat) returns (k: int)
    ensures Pow2(n) == k as real && k >= 1
  {
    if n == 0 {
      k := 1;
    } else {
      var j := Pow2IsWhole(n - 1);
      k := 2 * j;
    }
  }

  lemma {:induction false} Pow2Monotone(a: int, b: int)
    requires a <= b
    ensures 0.0 < Pow2(a) <= Pow2(b)
    decreases b - a
  {
    Pow2Step(a);
    if a < b {
      Pow2Monotone(a, b - 1);
      Pow2Step(b - 1);
    }
  }

  lemma Pow2Values()
    ensures Pow2(52) == 4503599627370496.0 && Pow2(53) == 9007199254740992.0
    ensures Pow2(-24) == 1.0 / 16777216.0
  {
    assert Pow2(6) == 64.0 by { assert Pow2(3) == 8.0; Pow2Add(3, 3); }
    assert Pow2(13) == 8192.0 by { Pow2Add(6, 6); Pow2Step(12); }
    assert Pow2(26) == 67108864.0 by { Pow2Add(13, 13); }
    assert Pow2(24) == 16777216.0 by { Pow2Step(24); Pow2Step(25); }
    Pow2Add(26, 26);
    Pow2Step(52);
    Pow2Add(-24, 24);
    assert Pow2(-24 + 24) == 1.0;
  }

  // ---- Binary64

  function ScaleUp(x: real): int
    requires x >= 1.0
    decreases x.Floor
  {
    if x < 2.0 then 0 else 1 + ScaleUp(x / 2.0)
  }

  function ScaleDown(x: real): int
    requires 0.0 < x < 1.0
    decreases (1.0 / x).Floor
  {
    if 2.0 * x >= 1.0 then 1
    else
      assert 1.0 / (2.0 * x) == (1.0 / x) / 2.0;
      assert 1.0 / x > 2.0 by { assert (1.0 / x) * x == 1.0; }
      1 + ScaleDown(2.0 * x)
  }

  /** The binade of x: Pow2(e) <= x < Pow2(e + 1). */
  function Exponent(x: real): int
    requires x > 0.0
  {
    if x >= 1.0 then ScaleUp(x) else -ScaleDown(x)
  }

  lemma {:induction false} ScaleUpBounds(x: real)
    requires x >= 1.0
    ensures Pow2(ScaleUp(x)) <= x < Pow2(ScaleUp(x) + 1)
    decreases x.Floor
  {
    if x >= 2.0 {
      ScaleUpBounds(x / 2.0);
    } else {
      assert Pow2(1) == 2.0;
    }
  }

  lemma {:induction false} ScaleDownBounds(x: real)
    requires 0.0 < x < 1.0
    ensures Pow2(-ScaleDown(x)) <= x < Pow2(-ScaleDown(x) + 1)
    decreases (1.0 / x).Floor
  {
    if 2.0 * x < 1.0 {
      assert 1.0 / (2.0 * x) == (1.0 / x) / 2.0;
      assert 1.0 / x > 2.0 by { assert (1.0 / x) * x == 1.0; }
      ScaleDownBounds(2.0 * x);
      Pow2Step(-ScaleDown(x));
      Pow2Step(-ScaleDown(x) + 1);
    } else {
      assert Pow2(0) == 1.0 && Pow2(-1) == 0.5;
    }
  }

  lemma ExponentBounds(x: real)
    requires x > 0.0
    ensures Pow2(Exponent(x)) <= x < Pow2(Exponent(x) + 1)
  {
    if x >= 1.0 { ScaleUpBounds(x); } else { ScaleDownBounds(x); }
  }

  const MIN_UNIT: int := -1074

  /** The exponent of the last place of the binary64 grid around x. */
  function Unit(x: real): int
    requires x != 0.0
  {
    var e := Exponent(Abs(x)) - 52;
    if e < MIN_UNIT then MIN_UNIT else e
  }

  /** m steps of size u. */
  function Steps(m: int, u: real): real {
    m as real * u
  }

  /** Round to nearest, ties to even: the result of one IEEE-754 operation whose
      exact result is x. */
  function Nearest(x: real): real {
    if x == 0.0 then 0.0
    else
      Pow2Step(Unit(x));
      Steps(RoundHalfEven(x / Pow2(Unit(x))), Pow2(Unit(x)))
  }

  /** A binary64 number (overflow aside): at most 53 bits, on a grid no finer
      than 2^-1074. */
  ghost predicate Representable(y: real) {
    exists m: int, e: int {:trigger OnGrid(y, m, e)} :: OnGrid(y, m, e)
  }

  predicate OnGrid(y: real, m: int, e: int) {
    -9007199254740992 <= m <= 9007199254740992 && e >= -1074 && y == Steps(m, Pow2(e))
  }

  lemma ScaleAbs(a: real, u: real)
    requires u > 0.0
    ensures Abs(a * u) == Abs(a) * u
  {
  }

  lemma ScaleLe(a: real, b: real, u: real)
    requires u > 0.0
    ensures a <= b <==> a * u <= b * u
  {
    if a < b { assert (b - a) * u > 0.0; }
    if a > b { assert (a - b) * u > 0.0; }
  }

  lemma ScaledDistance(r: real, t: real, u: real)
    requires u > 0.0
    ensures Abs(r * u - t * u) == Abs(r - t) * u
  {
    assert r * u - t * u == (r - t) * u;
    ScaleAbs(r - t, u);
  }

  lemma UnitBounds(a: real, e: int, b: int)
    requires a > 0.0 && Pow2(b) <= a < Pow2(b + 1) && b <= e + 52
    ensures a < 9007199254740992.0 * Pow2(e)
    ensures b == e + 52 ==> 4503599627370496.0 * Pow2(e) <= a
  {
    Pow2Monotone(b + 1, e + 53);
    UnitsOf(e);
  }

  /** x measured in units of its last place. */
  lemma InUnits(x: real) returns (t: real, u: real)
    requires x != 0.0
    ensures u == Pow2(Unit(x)) && u > 0.0 && x == t * u
    ensures Nearest(x) == Steps(RoundHalfEven(t), u)
    ensures Abs(t) <= 9007199254740992.0
    ensures Abs(x) == Abs(t) * u
    ensures Unit(x) > MIN_UNIT ==> 4503599627370496.0 * u <= Abs(x)
  {
    u := Pow2(Unit(x));
    Pow2Step(Unit(x));
    t := x / u;
    ExponentBounds(Abs(x));
    UnitBounds(Abs(x), Unit(x), Exponent(Abs(x)));
    DivideBack(x, t, u);
  }

  lemma DivideBack(x: real, t: real, u: real)
    requires u > 0.0 && t == x / u && Abs(x) < 9007199254740992.0 * u
    ensures x == t * u && Abs(x) == Abs(t) * u
    ensures Abs(t) <= 9007199254740992.0
  {
    assert x == t * u;
    ScaleAbs(t, u);
    ScaleLe(Abs(t), 9007199254740992.0, u);
  }

  lemma UnitsOf(e: int)
    ensures Pow2(e + 52) == 4503599627370496.0 * Pow2(e)
    ensures Pow2(e + 53) == 9007199254740992.0 * Pow2(e)
  {
    Pow2Add(e, 52);
    Pow2Add(e, 53);
    Pow2Values();
  }

  lemma RoundWhole(n: int)
    ensures RoundHalfEven(n as real) == n
  {
  }

  lemma NearestIsRepresentable(x: real)
    ensures Representable(Nearest(x))
  {
    if x == 0.0 {
      assert OnGrid(0.0, 0, 0);
    } else {
      var t, u := InUnits(x);
      RoundMonotone(t, 9007199254740992.0);
      RoundMonotone(-9007199254740992.0, t);
      RoundWhole(9007199254740992);
      RoundWhole(-9007199254740992);
      assert OnGrid(Nearest(x), RoundHalfEven(t), Unit(x));
    }
  }

  lemma StepsDistance(n: int, t: real, u: real)
    requires u > 0.0
    ensures Abs(Steps(n, u) - t * u) == Abs(n as real - t) * u
  {
    var r := n as real;
    ScaledDistance(r, t, u);
  }

  lemma CloserInUnits(n: int, t: real, k: int, u: real)
    requires u > 0.0 && Abs(n as real - t) <= Abs(k as real - t)
    ensures Abs(Steps(n, u) - t * u) <= Abs(Steps(k, u) - t * u)
  {
    var a, b := Abs(n as real - t), Abs(k as real - t);
    StepsDistance(n, t, u);
    StepsDistance(k, t, u);
    assert a * u <= b * u by { ScaleLe(a, b, u); }
  }

  lemma NearestAmongUnits(t: real, u: real, k: int)
    requires u > 0.0
    ensures Abs(Steps(RoundHalfEven(t), u) - t * u) <= Abs(Steps(k, u) - t * u)
  {
    RoundIsNearest(t, k);
    CloserInUnits(RoundHalfEven(t), t, k, u);
  }

  lemma CoarserGrid(y: real, m: int, e: int, f: int) returns (k: int)
    requires f <= e && y == Steps(m, Pow2(e))
    ensures y == Steps(k, Pow2(f))
  {
    var n := Pow2IsWhole(e - f);
    Pow2Add(f, e - f);
    k := m * n;
    assert (m * n) as real == m as real * n as real;
    assert y == m as real * (Pow2(f) * n as real);
  }

  lemma FinerGridIsSmall(m: int, e: int, f: int)
    requires -9007199254740992 <= m <= 9007199254740992 && e < f
    ensures Abs(Steps(m, Pow2(e))) <= 4503599627370496.0 * Pow2(f)
  {
    Pow2Monotone(e, f - 1);
    Pow2Step(f - 1);
    SmallProduct(m, Pow2(e), Pow2(f - 1), Pow2(f));
  }

  lemma SmallProduct(m: int, p: real, q: real, r: real)
    requires -9007199254740992 <= m <= 9007199254740992 && 0.0 < p <= q && r == 2.0 * q
    ensures Abs(Steps(m, p)) <= 4503599627370496.0 * r
  {
    RealProduct(m as real, p, q, r);
  }

  lemma RealProduct(a: real, p: real, q: real, r: real)
    requires Abs(a) <= 9007199254740992.0 && 0.0 < p <= q && r == 2.0 * q
    ensures Abs(a * p) <= 4503599627370496.0 * r
  {
    ScaleAbs(a, p);
    ScaleLe(Abs(a), 9007199254740992.0, p);
  }

  lemma BelowTheBinade(x: real, y: real, n: real, bottom: real)
    requires 0.0 < bottom <= Abs(x) && Abs(y) <= bottom
    requires Abs(n - x) <= Abs((if x > 0.0 then bottom else -bottom) - x)
    ensures Abs(n - x) <= Abs(y - x)
  {
  }

  lemma NearestOnCoarserGrid(x: real, y: real, m: int, e: int)
    requires x != 0.0 && OnGrid(y, m, e) && e >= Unit(x)
    ensures Abs(Nearest(x) - x) <= Abs(y - x)
  {
    var t, u := InUnits(x);
    var k := CoarserGrid(y, m, e, Unit(x));
    NearestAmongUnits(t, u, k);
  }

  /** A number on a finer grid than x's lies below the binade of x, whose lower
      end is on x's own grid. */
  lemma NearestOnFinerGrid(x: real, y: real, m: int, e: int)
    requires x != 0.0 && OnGrid(y, m, e) && e < Unit(x)
    ensures Abs(Nearest(x) - x) <= Abs(y - x)
  {
    var t, u := InUnits(x);
    var bottom := 4503599627370496.0 * u;
    FinerGridIsSmall(m, e, Unit(x));
    NearestAmongUnits(t, u, if x > 0.0 then 4503599627370496 else -4503599627370496);
    BelowTheBinade(x, y, Nearest(x), bottom);
  }

  /** No binary64 number is closer to x than Nearest(x). */
  lemma NearestIsNearest(x: real, y: real)
    requires Representable(y)
    ensures Abs(Nearest(x) - x) <= Abs(y - x)
  {
    if x != 0.0 {
      var m, e :| OnGrid(y, m, e);
      if e >= Unit(x) {
        NearestOnCoarserGrid(x, y, m, e);
      } else {
        NearestOnFinerGrid(x, y, m, e);
      }
    }
  }

  lemma TieInUnits(n: int, t: real, k: int, u: real)
    requires u > 0.0 && n == RoundHalfEven(t) && k != n && Abs(Steps(k, u) - t * u) == Abs(Steps(n, u) - t * u)
    ensures n % 2 == 0
  {
    var a, b := Abs(n as real - t), Abs(k as real - t);
    StepsDistance(n, t, u);
    StepsDistance(k, t, u);
    assert a * u == b * u;
    ScaleLe(a, b, u);
    ScaleLe(b, a, u);
    RoundIsNearest(t, k);
  }

  lemma TieOnGrid(x: real, k: int)
    requires x != 0.0 && Steps(k, Pow2(Unit(x))) != Nearest(x)
    requires Abs(Steps(k, Pow2(Unit(x))) - x) == Abs(Nearest(x) - x)
    ensures exists n :: Nearest(x) == Steps(n, Pow2(Unit(x))) && n % 2 == 0
  {
    var t, u := InUnits(x);
    hide *;
    TieInUnits(RoundHalfEven(t), t, k, u);
    assert Nearest(x) == Steps(RoundHalfEven(t), Pow2(Unit(x)));
  }

  /** Between two binary64 numbers equally near, the product is the one whose
      significand is even. */
  lemma NearestTiesToEven(x: real, y: real)
    requires x != 0.0 && Representable(y) && y != Nearest(x) && Abs(y - x) == Abs(Nearest(x) - x)
    ensures exists n :: Nearest(x) == Steps(n, Pow2(Unit(x))) && n % 2 == 0
  {
    var m, e :| OnGrid(y, m, e);
    if e >= Unit(x) {
      var k := CoarserGrid(y, m, e, Unit(x));
      TieOnGrid(x, k);
    } else {
      var t, u := InUnits(x);
      var edge := if x > 0.0 then 4503599627370496 else -4503599627370496;
      FinerGridIsSmall(m, e, Unit(x));
      NearestAmongUnits(t, u, edge);
      TieBelowTheBinade(x, y, Nearest(x), 4503599627370496.0 * u);
      assert y == Steps(edge, u);
      TieOnGrid(x, edge);
    }
  }

  lemma TieBelowTheBinade(x: real, y: real, n: real, bottom: real)
    requires 0.0 < bottom <= Abs(x) && Abs(y) <= bottom && Abs(y - x) == Abs(n - x)
    requires Abs(n - x) <= Abs((if x > 0.0 then bottom else -bottom) - x)
    ensures y == if x > 0.0 then bottom else -bottom
  {
  }

  lemma NegateQuotient(x: real, u: real)
    requires u > 0.0
    ensures (-x) / u == -(x / u)
  {
  }

  lemma NegateSteps(m: int, u: real)
    ensures Steps(-m, u) == -Steps(m, u)
  {
    assert (-m) as real == -(m as real);
  }

  lemma NearestOdd(x: real)
    ensures Nearest(-x) == -Nearest(x)
  {
    if x != 0.0 {
      var u := Pow2(Unit(x));
      Pow2Step(Unit(x));
      assert Unit(-x) == Unit(x);
      NegateQuotient(x, u);
      RoundOdd(x / u);
      NegateSteps(RoundHalfEven(x / u), u);
    }
  }

  lemma NearestMonotone(x: real, y: real)
    requires x <= y
    ensures Nearest(x) <= Nearest(y)
  {
    NearestIsRepresentable(x);
    NearestIsRepresentable(y);
    NearestIsNearest(x, Nearest(y));
    NearestIsNearest(y, Nearest(x));
  }

  lemma NormalRange(x: real)
    requires Abs(x) >= 1.0 / 16777216.0
    ensures x != 0.0 && Unit(x) > MIN_UNIT
  {
    Pow2Values();
    ExponentBounds(Abs(x));
    if Exponent(Abs(x)) + 1 <= -24 {
      Pow2Monotone(Exponent(Abs(x)) + 1, -24);
      assert false;
    }
  }

  lemma HalfUnit(n: int, t: real, u: real)
    requires u > 0.0 && Abs(n as real - t) <= 0.5
    ensures Abs(Steps(n, u) - t * u) <= 0.5 * u
  {
    StepsDistance(n, t, u);
    ScaleLe(Abs(n as real - t), 0.5, u);
  }

  /** In the normal range one operation errs by at most half a unit in the last
      place, a relative 2^-53. */
  lemma NearestError(x: real)
    requires Abs(x) >= 1.0 / 16777216.0
    ensures Abs(Nearest(x) - x) <= Abs(x) / 9007199254740992.0
  {
    NormalRange(x);
    var t, u := InUnits(x);
    RoundIsNearest(t, 0);
    HalfUnit(RoundHalfEven(t), t, u);
  }

  // ---- Quantization

  /** `round(coord * 1e7)`; the SQL twin is `(c * 10000000.0::float8)::bigint`. */
  function Quantize(coord: real): int {
    RoundHalfEven(Nearest(coord * SCALE as real))
  }

  lemma QuantizeOdd(c: real)
    ensures Quantize(-c) == -Quantize(c)
  {
    var p := c * SCALE as real;
    assert -c * SCALE as real == -p;
    NearestOdd(p);
    RoundOdd(Nearest(p));
  }

  lemma QuantizeMonotone(c: real, d: real)
    requires c <= d
    ensures Quantize(c) <= Quantize(d)
  {
    NearestMonotone(c * SCALE as real, d * SCALE as real);
    RoundMonotone(Nearest(c * SCALE as real), Nearest(d * SCALE as real));
  }

  /** The lattice index is the integer nearest the binary product; a product
      exactly between two integers goes to the even one. */
  lemma QuantizeHalfCell(c: real, n: int)
    ensures var p := Nearest(c * 10_000_000.0);
            && Abs(Quantize(c) as real - p) <= 0.5
            && Abs(Quantize(c) as real - p) <= Abs(n as real - p)
            && (Abs(Quantize(c) as real - p) == 0.5 ==> Quantize(c) % 2 == 0)
  {
    RoundIsNearest(Nearest(c * SCALE as real), n);
  }

  lemma NearestExact(n: int)
    requires -9007199254740992 <= n <= 9007199254740992
    ensures Nearest(n as real) == n as real
  {
    assert Pow2(0) == 1.0;
    assert OnGrid(n as real, n, 0);
    NearestIsNearest(n as real, n as real);
  }

  /** One degree is ten million lattice steps. */
  lemma QuantizeWhole(n: int)
    requires -900_000_000 <= n <= 900_000_000
    ensures Quantize(n as real) == n * 10_000_000
  {
    assert n as real * SCALE as real == (n * 10_000_000) as real;
    NearestExact(n * 10_000_000);
    RoundWhole(n * 10_000_000);
  }

  /** A lattice point survives being written as a decimal, read back as the
      nearest double, multiplied and rounded: two rounding errors never move it.
      (The world's extent is |q| <= 1.8e9, well inside 2^50.) */
  lemma QuantizeRoundTrip(q: int)
    requires -0x4_0000_0000_0000 <= q <= 0x4_0000_0000_0000
    ensures Quantize(Nearest(q as real / 10_000_000.0)) == q
  {
    if q != 0 {
      var x := q as real / SCALE as real;
      assert x * SCALE as real == q as real;
      assert Abs(x) * SCALE as real == Abs(q as real);
      assert Abs(x) >= 1.0 / 16777216.0;
      NearestError(x);
      var c := Nearest(x);
      var p := c * SCALE as real;
      assert Abs(p - q as real) == Abs(c - x) * SCALE as real;
      assert Abs(p - q as real) <= Abs(q as real) / 9007199254740992.0;
      NearestError(p);
      assert Abs(Nearest(p) - q as real) < 0.5;
      RoundIsNearest(Nearest(p), q);
    } else {
      assert Nearest(0.0) == 0.0;
    }
  }
}
