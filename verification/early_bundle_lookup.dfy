/**
 * The older lookup tables, for bundles of 2 to 9 sticks only. Every entry but
 * one is the same formula as in the current tables; the six-stick bundle is
 * instead a patch of the triangular lattice, two rows of three sticks offset by
 * one radius, and its centre follows.
 */
module EarlyBundleLookup {
  import opened Wrappers
  import opened Geometry
  import BundleLookup

  const EarlyMaxBundleSize := 9

  /** `positionLookup[n](r, x0, y0)` of the older tables. */
  function Positions(m: MathLib, n: int, r: real, x0: real, y0: real): (ps: Option<seq<Point>>)
    requires BundleLookup.DivisorsNonZero(m)
    ensures ps.Some? <==> BundleLookup.MinBundleSize <= n <= EarlyMaxBundleSize
    ensures ps.Some? ==> |ps.value| == n - 1
  {
    if n == 6 then Some(Lattice6(m, r, x0, y0))
    else if BundleLookup.MinBundleSize <= n <= EarlyMaxBundleSize then BundleLookup.Positions(m, n, r, x0, y0)
    else None
  }

  /** `positionLookup[6]` of the older tables. */
  function Lattice6(m: MathLib, r: real, x0: real, y0: real): (ps: seq<Point>)
    ensures |ps| == 5
  {
    var c60, s60 := m.cos(ToRad(m, 60.0)), m.sin(ToRad(m, 60.0));
    [Point(x0 + 2.0*r, y0),
     Point(x0 - 2.0*r*c60, y0 + 2.0*r*s60),
     Point(x0 + 2.0*r + 2.0*r*c60, y0 + 2.0*r*s60),
     Point(x0, y0 + 4.0*r*s60),
     Point(x0 + 2.0*r, y0 + 4.0*r*s60)]
  }

  /** `radiusLookup[n](r)` of the older tables. */
  function Radius(m: MathLib, n: int, r: real): (rad: Option<real>)
    requires BundleLookup.DivisorsNonZero(m)
    ensures rad.Some? <==> BundleLookup.MinBundleSize <= n <= EarlyMaxBundleSize
  {
    if BundleLookup.MinBundleSize <= n <= EarlyMaxBundleSize then Some(BundleLookup.RadiusOf(m, n, r)) else None
  }

  /** `centerLookup[n](r, x0, y0)` of the older tables. */
  function Center(m: MathLib, n: int, r: real, x0: real, y0: real): (c: Option<Point>)
    requires BundleLookup.DivisorsNonZero(m)
    ensures c.Some? <==> BundleLookup.MinBundleSize <= n <= EarlyMaxBundleSize
  {
    if n == 6 then Some(Point(x0 + r, y0 + r / m.tan(ToRad(m, 30.0))))
    else if BundleLookup.MinBundleSize <= n <= EarlyMaxBundleSize then BundleLookup.Center(m, n, r, x0, y0)
    else None
  }

  /** The places of all `n` sticks: the anchor stick first. */
  function Places(m: MathLib, n: int, r: real, x0: real, y0: real): (ps: seq<Point>)
    requires BundleLookup.DivisorsNonZero(m)
    requires BundleLookup.MinBundleSize <= n <= EarlyMaxBundleSize
    ensures |ps| == n
    ensures ps[0] == Point(x0, y0)
  {
    [Point(x0, y0)] + Positions(m, n, r, x0, y0).value
  }

  /** The older tables agree with the current ones on every key but 6, for every table, and have no keys above 9. */
  lemma AgreesWithCurrent(m: MathLib, n: int, r: real, x0: real, y0: real)
    requires BundleLookup.DivisorsNonZero(m)
    ensures Radius(m, n, r) == (if n <= EarlyMaxBundleSize then BundleLookup.Radius(m, n, r) else None)
    ensures n != 6 ==> Positions(m, n, r, x0, y0) == (if n <= EarlyMaxBundleSize then BundleLookup.Positions(m, n, r, x0, y0) else None)
    ensures n != 6 ==> Center(m, n, r, x0, y0) == (if n <= EarlyMaxBundleSize then BundleLookup.Center(m, n, r, x0, y0) else None)
  {
  }

  /** Moving the anchor by `(dx, dy)` moves every place and the centre by the same amount. */
  lemma {:induction false} Translate(m: MathLib, n: int, r: real, x0: real, y0: real, dx: real, dy: real)
    requires BundleLookup.DivisorsNonZero(m)
    requires BundleLookup.MinBundleSize <= n <= EarlyMaxBundleSize
    ensures Positions(m, n, r, x0 + dx, y0 + dy).value == Shifted(Positions(m, n, r, x0, y0).value, dx, dy)
    ensures Center(m, n, r, x0 + dx, y0 + dy).value == Center(m, n, r, x0, y0).value.Plus(dx, dy)
  {
    if n == 6 {
      var moved, ps := Lattice6(m, r, x0 + dx, y0 + dy), Lattice6(m, r, x0, y0);
      forall i | 0 <= i < 5
        ensures moved[i] == ps[i].Plus(dx, dy)
      {
      }
    } else {
      BundleLookup.PositionsTranslate(m, n, r, x0, y0, dx, dy);
      BundleLookup.CenterTranslate(m, n, r, x0, y0, dx, dy);
    }
  }

  /**
   * The point `a` steps along the x axis and `b` steps up the 60-degree axis of a
   * triangular lattice of pitch `2r` whose origin is `(x0, y0)`; `h` is `sin(60)`.
   */
  function LatticePoint(x0: real, y0: real, r: real, h: real, a: int, b: int): Point {
    Point(x0 + 2.0*r*(a as real) + r*(b as real), y0 + 2.0*r*h*(b as real))
  }

  /**
   * Six sticks: when `cos(60) = 1/2` the six places are the lattice points
   * (0,0), (1,0), (-1,1), (1,1), (-1,2), (0,2).
   */
  lemma {:induction false} LatticeExact(m: MathLib, r: real, x0: real, y0: real)
    requires BundleLookup.DivisorsNonZero(m)
    requires m.cos(ToRad(m, 60.0)) == 0.5
    ensures var h := m.sin(ToRad(m, 60.0));
      Places(m, 6, r, x0, y0) ==
        [LatticePoint(x0, y0, r, h, 0, 0), LatticePoint(x0, y0, r, h, 1, 0), LatticePoint(x0, y0, r, h, -1, 1),
         LatticePoint(x0, y0, r, h, 1, 1), LatticePoint(x0, y0, r, h, -1, 2), LatticePoint(x0, y0, r, h, 0, 2)]
  {
    var h := m.sin(ToRad(m, 60.0));
    var ps := Places(m, 6, r, x0, y0);
    assert ps[1] == LatticePoint(x0, y0, r, h, 1, 0);
    assert ps[2] == Point(x0 - r, y0 + 2.0*r*h) == LatticePoint(x0, y0, r, h, -1, 1);
    assert ps[3] == Point(x0 + 3.0*r, y0 + 2.0*r*h) == LatticePoint(x0, y0, r, h, 1, 1);
    assert ps[4] == Point(x0, y0 + 4.0*r*h) == LatticePoint(x0, y0, r, h, -1, 2);
    assert ps[5] == Point(x0 + 2.0*r, y0 + 4.0*r*h) == LatticePoint(x0, y0, r, h, 0, 2);
  }

  /** Neighbouring lattice points, one step along either axis, are one diameter apart when `sin(60)^2 = 3/4`. */
  lemma {:induction false} LatticePitch(x0: real, y0: real, r: real, h: real, a: int, b: int)
    requires h * h == 0.75
    ensures DistSq(LatticePoint(x0, y0, r, h, a, b), LatticePoint(x0, y0, r, h, a + 1, b)) == 4.0*r*r
    ensures DistSq(LatticePoint(x0, y0, r, h, a, b), LatticePoint(x0, y0, r, h, a, b + 1)) == 4.0*r*r
  {
    assert (2.0*r*h) * (2.0*r*h) == 4.0*r*r*(h*h);
  }

  /**
   * Six sticks: when `cos(60) = 1/2` and `2 tan(30) sin(60) = 1` the centre of
   * the older table is the centroid of the six places.
   */
  lemma {:induction false} LatticeCenter(m: MathLib, r: real, x0: real, y0: real)
    requires BundleLookup.DivisorsNonZero(m)
    requires m.cos(ToRad(m, 60.0)) == 0.5
    requires 2.0 * m.tan(ToRad(m, 30.0)) * m.sin(ToRad(m, 60.0)) == 1.0
    ensures Center(m, 6, r, x0, y0) == Some(Centroid(Places(m, 6, r, x0, y0)))
  {
    var ps := Places(m, 6, r, x0, y0);
    var h, t := m.sin(ToRad(m, 60.0)), m.tan(ToRad(m, 30.0));
    LatticeExact(m, r, x0, y0);
    BundleLookup.SumsUpTo(ps);
    assert SumX(ps[..3]) == 3.0*x0 + r;
    assert SumX(ps) == 6.0*x0 + 6.0*r;
    assert SumY(ps[..3]) == 3.0*y0 + 2.0*r*h;
    assert SumY(ps) == 6.0*y0 + 12.0*r*h;
    assert r / t == 2.0*r*h by {
      assert (2.0*r*h) * t == r * (2.0*t*h);
    }
  }
}
