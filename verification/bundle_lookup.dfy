/**
 * The three bundle lookup tables of the current version of the demo. For a
 * bundle of `n` equal sticks (n in 2..12) of radius `r` whose first stick stands
 * at `(x0, y0)`:
 *   - `Positions` gives the places of the other `n - 1` sticks,
 *   - `Radius` gives the radius of the bundle as the next bundling level sees it,
 *   - `Center` gives the centre of the bundle.
 * A key outside 2..12 is not in the tables (`None`, JavaScript `undefined`).
 * Each key of `positionLookup` is its own arrow function in the source; here each
 * is a function `PackN`.
 */
module BundleLookup {
  import opened Wrappers
  import opened Geometry

  const MinBundleSize := 2
  const MaxBundleSize := 12

  /** Every denominator the tables divide by is non-zero (true of the real trigonometric functions). */
  predicate DivisorsNonZero(m: MathLib) {
    && m.tan(ToRad(m, 360.0 / 14.0)) != 0.0
    && m.tan(ToRad(m, 360.0 / 28.0)) != 0.0
    && m.tan(ToRad(m, 36.0)) != 0.0
    && m.sin(ToRad(m, 50.0)) != 0.0
    && m.sin(ToRad(m, 36.0)) != 0.0
    && m.sin(m.pi / 9.0) != 0.0
    && m.cos(ToRad(m, 70.0)) != 0.0
    && m.cos(ToRad(m, 45.0)) != 0.0
    && m.cos(ToRad(m, 30.0)) != 0.0
    && m.tan(ToRad(m, 30.0)) != 0.0
  }

  /** `Math.pow(v, 2)`. */
  function Pow2(v: real): (p: real)
    ensures p >= 0.0
  {
    v * v
  }

  /** `positionLookup[n](r, x0, y0)`: the places of the sticks other than the first one. */
  function Positions(m: MathLib, n: int, r: real, x0: real, y0: real): (ps: Option<seq<Point>>)
    requires DivisorsNonZero(m)
    ensures ps.Some? <==> MinBundleSize <= n <= MaxBundleSize
    ensures ps.Some? ==> |ps.value| == n - 1
  {
    if n == 2 then Some(Pack2(r, x0, y0))
    else if n == 3 then Some(Pack3(m, r, x0, y0))
    else if n == 4 then Some(Pack4(r, x0, y0))
    else if n == 5 then Some(Pack5(m, r, x0, y0))
    else if n == 6 then Some(Pack6(m, r, x0, y0))
    else if n == 7 then Some(Pack7(m, r, x0, y0))
    else if n == 8 then Some(Pack8(m, r, x0, y0))
    else if n == 9 then Some(Pack9(r, x0, y0))
    else if n == 10 then Some(Pack10(m, r, x0, y0))
    else if n == 11 then Some(Pack11(m, r, x0, y0))
    else if n == 12 then Some(Pack12(m, r, x0, y0))
    else None
  }

  /** `positionLookup[2]`. */
  function Pack2(r: real, x0: real, y0: real): (ps: seq<Point>)
    ensures |ps| == 1
  {
    [Point(x0 + 2.0*r, y0)]
  }

  /** `positionLookup[3]`. */
  function Pack3(m: MathLib, r: real, x0: real, y0: real): (ps: seq<Point>)
    ensures |ps| == 2
  {
    var sqrt3 := m.sqrt(3.0);
    [Point(x0 + 2.0*r, y0),
     Point(x0 + r, y0 + sqrt3 * r)]
  }

  /** `positionLookup[4]`. */
  function Pack4(r: real, x0: real, y0: real): (ps: seq<Point>)
    ensures |ps| == 3
  {
    [Point(x0 + 2.0*r, y0),
     Point(x0, y0 + 2.0*r),
     Point(x0 + 2.0*r, y0 + 2.0*r)]
  }

  /** `positionLookup[5]`. */
  function Pack5(m: MathLib, r: real, x0: real, y0: real): (ps: seq<Point>)
    ensures |ps| == 4
  {
    var c72, s72, t72 := m.cos(ToRad(m, 72.0)), m.sin(ToRad(m, 72.0)), m.tan(ToRad(m, 72.0));
    [Point(x0 + 2.0*r, y0),
     Point(x0 - 2.0*r*c72, y0 + 2.0*r*s72),
     Point(x0 + 2.0*r + 2.0*r*c72, y0 + 2.0*r*s72),
     Point(x0 + r, y0 + r*t72)]
  }

  /** `positionLookup[6]`. */
  function Pack6(m: MathLib, r: real, x0: real, y0: real): (ps: seq<Point>)
    ensures |ps| == 5
  {
    var s36, c36 := m.sin(ToRad(m, 36.0)), m.cos(ToRad(m, 36.0));
    var c72, s72 := m.cos(ToRad(m, 72.0)), m.sin(ToRad(m, 72.0));
    [Point(x0 + 4.0*r*s36, y0),
     Point(x0 + 2.0*r*s36, y0 + 2.0*r*c36),
     Point(x0 + 2.0*r*s36, y0 + 2.0*r*c36 + 2.0*r),
     Point(x0 + 4.0*r*s36 + 2.3511*r*c72, y0 + 2.3511*r*s72),
     Point(x0 - 2.3511*r*c72, y0 + 2.3511*r*s72)]
  }

  /** `positionLookup[7]`. */
  function Pack7(m: MathLib, r: real, x0: real, y0: real): (ps: seq<Point>)
    ensures |ps| == 6
  {
    var sqrt3 := m.sqrt(3.0);
    [Point(x0, y0 + 2.0*r),
     Point(x0, y0 - 2.0*r),
     Point(x0 - sqrt3*r, y0 + r),
     Point(x0 - sqrt3*r, y0 - r),
     Point(x0 + sqrt3*r, y0 - r),
     Point(x0 + sqrt3*r, y0 + r)]
  }

  /** `positionLookup[8]`. */
  function Pack8(m: MathLib, r: real, x0: real, y0: real): (ps: seq<Point>)
    requires DivisorsNonZero(m)
    ensures |ps| == 7
  {
    var c7, s7 := m.cos(ToRad(m, 360.0 / 7.0)), m.sin(ToRad(m, 360.0 / 7.0));
    var t14, t28 := m.tan(ToRad(m, 360.0 / 14.0)), m.tan(ToRad(m, 360.0 / 28.0));
    var ch, sh := m.cos(ToRad(m, 180.0 / 7.0)), m.sin(ToRad(m, 180.0 / 7.0));
    [Point(x0 + 2.0*r, y0),
     Point(x0 - 2.0*r*c7, y0 + 2.0*r*s7),
     Point(x0 + 2.0*r + 2.0*r*c7, y0 + 2.0*r*s7),
     Point(x0 + r, y0 + r / t14),
     Point(x0 + r, y0 + r / t28),
     Point(x0 + r - 2.0*r*ch, y0 + r / t28 - 2.0*r*sh),
     Point(x0 + r + 2.0*r*ch, y0 + r / t28 - 2.0*r*sh)]
  }

  /** `positionLookup[9]`. */
  function Pack9(r: real, x0: real, y0: real): (ps: seq<Point>)
    ensures |ps| == 8
  {
    [Point(x0, y0 + 2.0*r),
     Point(x0, y0 + 4.0*r),
     Point(x0 + 2.0*r, y0),
     Point(x0 + 2.0*r, y0 + 2.0*r),
     Point(x0 + 2.0*r, y0 + 4.0*r),
     Point(x0 + 4.0*r, y0),
     Point(x0 + 4.0*r, y0 + 2.0*r),
     Point(x0 + 4.0*r, y0 + 4.0*r)]
  }

  /** `positionLookup[10]`. */
  function Pack10(m: MathLib, r: real, x0: real, y0: real): (ps: seq<Point>)
    ensures |ps| == 9
  {
    var sqrt3 := m.sqrt(3.0);
    var ca, sa := m.cos(ToRad(m, 41.647)), m.sin(ToRad(m, 41.647));
    var cb, sb := m.cos(ToRad(m, 83.294)), m.sin(ToRad(m, 83.294));
    var cc, sc := m.cos(ToRad(m, 55.059)), m.sin(ToRad(m, 55.059));
    [Point(x0 + 2.0*r, y0),
     Point(x0 + r, y0 + sqrt3*r),
     Point(x0 + r, y0 + sqrt3*r + 2.0*r),
     Point(x0 - 2.0*r*ca, y0 + 2.0*r*sa),
     Point(x0 + 2.0*r + 2.0*r*ca, y0 + 2.0*r*sa),
     Point(x0 - 2.0*r*ca - 2.0*r*cb, y0 + 2.0*r*sa + 2.0*r*sb),
     Point(x0 + 2.0*r + 2.0*r*ca + 2.0*r*cb, y0 + 2.0*r*sa + 2.0*r*sb),
     Point(x0 - 2.0*r*ca - 2.0*r*cb + 2.0*r*cc, y0 + 2.0*r*sa + 2.0*r*sb + 2.0*r*sc),
     Point(x0 + 2.0*r + 2.0*r*ca + 2.0*r*cb - 2.0*r*cc, y0 + 2.0*r*sa + 2.0*r*sb + 2.0*r*sc)]
  }

  /** `positionLookup[11]`. */
  function Pack11(m: MathLib, r: real, x0: real, y0: real): (ps: seq<Point>)
    requires DivisorsNonZero(m)
    ensures |ps| == 10
  {
    var sqrt3 := m.sqrt(3.0);
    var c20, s20 := m.cos(ToRad(m, 20.0)), m.sin(ToRad(m, 20.0));
    var s80, s50, t50 := m.sin(ToRad(m, 80.0)), m.sin(ToRad(m, 50.0)), m.tan(ToRad(m, 50.0));
    // the bracketed term that every y coordinate but the first one adds
    var k := r*m.tan(ToRad(m, 70.0)) - 2.0*r*s80 / s50 + r / m.cos(ToRad(m, 70.0));
    [Point(x0 + 4.0*r*c20, y0),
     Point(x0 + 2.0*r*c20, y0 - 2.0*r*s20 + (k - sqrt3*r)),
     Point(x0 + 2.0*r*c20 - r, y0 - 2.0*r*s20 + k),
     Point(x0 + 2.0*r*c20 + r, y0 - 2.0*r*s20 + k),
     Point(x0 - r, y0 - 4.0*r*s20 + k),
     Point(x0 + 4.0*r*c20 + r, y0 - 4.0*r*s20 + k),
     Point(x0 + 2.0*r*c20 - r - (r*s80 / s50)*t50, y0 - 2.0*r*s20 + k + r*s80 / s50),
     Point(x0 + 2.0*r*c20 + r + (r*s80 / s50)*t50, y0 - 2.0*r*s20 + k + r*s80 / s50),
     Point(x0 + 2.0*r*c20 - r, y0 - 2.0*r*s20 + k + 2.0*r*s80 / s50),
     Point(x0 + 2.0*r*c20 + r, y0 - 2.0*r*s20 + k + 2.0*r*s80 / s50)]
  }

  /** `positionLookup[12]`. */
  function Pack12(m: MathLib, r: real, x0: real, y0: real): (ps: seq<Point>)
    ensures |ps| == 11
  {
    var s, c := m.sin(ToRad(m, 33.644)), m.cos(ToRad(m, 33.644));
    var c60, s60 := m.cos(ToRad(m, 60.0)), m.sin(ToRad(m, 60.0));
    var c52, s52 := m.cos(ToRad(m, 52.185)), m.sin(ToRad(m, 52.185));
    var c79, s79 := m.cos(ToRad(m, 79.274)), m.sin(ToRad(m, 79.274));
    var s30, c30 := m.sin(ToRad(m, 30.0)), m.cos(ToRad(m, 30.0));
    var s70, c70 := m.sin(ToRad(m, 70.727)), m.cos(ToRad(m, 70.727));
    [Point(x0 + 4.0*r*s, y0),
     Point(x0 + 2.0*r*s, y0 + 2.0*r*c),
     Point(x0 + 2.0*r*s - 2.0*r*c60, y0 + 2.0*r*c + 2.0*r*s60),
     Point(x0 + 2.0*r*s + 2.0*r*c60, y0 + 2.0*r*c + 2.0*r*s60),
     Point(x0 + 2.0*r*s - 2.0*r*c60 - r*2.648309*c52,
           y0 + 2.0*r*c + 2.0*r*s60 - r*2.648309*s52),
     Point(x0 + 2.0*r*s + 2.0*r*c60 + r*2.648309*c52,
           y0 + 2.0*r*c + 2.0*r*s60 - r*2.648309*s52),
     Point(x0 + 2.0*r*s - 2.0*r*c60 - r*2.648309*c52 - 2.0*r*c79,
           y0 + 2.0*r*c + 2.0*r*s60 - r*2.648309*s52 + 2.0*r*s79),
     Point(x0 + 2.0*r*s + 2.0*r*c60 + r*2.648309*c52 + 2.0*r*c79,
           y0 + 2.0*r*c + 2.0*r*s60 - r*2.648309*s52 + 2.0*r*s79),
     Point(x0 + 2.0*r*s - 2.0*r*c60 - r*2.648309*c52 - 2.0*r*c79 + r*2.216095*s30,
           y0 + 2.0*r*c + 2.0*r*s60 - r*2.648309*s52 + 2.0*r*s79 + r*2.216095*c30),
     Point(x0 + 2.0*r*s + 2.0*r*c60 + r*2.648309*c52 + 2.0*r*c79 - r*2.216095*s30,
           y0 + 2.0*r*c + 2.0*r*s60 - r*2.648309*s52 + 2.0*r*s79 + r*2.216095*c30),
     Point(x0 + 2.0*r*s - 2.0*r*c60 - r*2.648309*c52 - 2.0*r*c79 + r*2.216095*s30 + 2.0*r*s70,
           y0 + 2.0*r*c + 2.0*r*s60 - r*2.648309*s52 + 2.0*r*s79 + r*2.216095*c30 + 2.0*r*c70)]
  }

  /** `radiusLookup[n](r)`: the radius of a bundle of `n` sticks of radius `r`. */
  function Radius(m: MathLib, n: int, r: real): (rad: Option<real>)
    requires DivisorsNonZero(m)
    ensures rad.Some? <==> MinBundleSize <= n <= MaxBundleSize
  {
    if MinBundleSize <= n <= MaxBundleSize then Some(RadiusOf(m, n, r)) else None
  }

  /** The entries of `radiusLookup`, one arrow function per key. */
  function RadiusOf(m: MathLib, n: int, r: real): real
    requires DivisorsNonZero(m)
    requires MinBundleSize <= n <= MaxBundleSize
  {
    match n
    case 2 => 2.0*r
    case 3 => Radius3(m, r)
    case 4 => r / m.cos(ToRad(m, 45.0)) + r
    case 5 => r / m.sin(ToRad(m, 36.0)) + r
    case 6 => 3.0*r
    case 7 => 3.0*r
    case 8 => r / m.cos(ToRad(m, 30.0))
    case 9 => Radius9(m, r)
    case 10 => 3.813*r
    case 11 => r * (1.0 + 1.0 / m.sin(m.pi / 9.0))
    case 12 => 4.029*r
  }

  function Radius3(m: MathLib, r: real): real {
    m.sqrt(Pow2(2.0*r) - Pow2(r)) + r - m.sqrt(Pow2(2.0*r) - Pow2(r)) / 3.0
  }

  function Radius9(m: MathLib, r: real): real {
    m.sqrt(8.0)*r + r
  }

  /** `centerLookup[n](r, x0, y0)`: the centre of a bundle of `n` sticks. */
  function Center(m: MathLib, n: int, r: real, x0: real, y0: real): (c: Option<Point>)
    requires DivisorsNonZero(m)
    ensures c.Some? <==> MinBundleSize <= n <= MaxBundleSize
  {
    if MinBundleSize <= n <= MaxBundleSize then Some(CenterOf(m, n, r, x0, y0)) else None
  }

  /** The entries of `centerLookup`, one arrow function per key. */
  function CenterOf(m: MathLib, n: int, r: real, x0: real, y0: real): Point
    requires DivisorsNonZero(m)
    requires MinBundleSize <= n <= MaxBundleSize
  {
    match n
    case 2 => Point(x0 + r, y0)
    case 3 => Point(x0 + r, y0 + m.sqrt(3.0)*r / 3.0)
    case 4 => Point(x0 + r, y0 + r)
    case 5 => Point(x0 + r, y0 + r / m.tan(ToRad(m, 36.0)))
    case 6 => Point(x0 + 2.0*r*m.sin(ToRad(m, 36.0)), y0 + 2.0*r*m.cos(ToRad(m, 36.0)))
    case 7 => Point(x0, y0)
    case 8 => Point(x0 + r, y0 + r / m.tan(ToRad(m, 360.0 / 14.0)))
    case 9 => Point(x0 + 2.0*r, y0 + 2.0*r)
    case 10 => Point(x0 + r, y0 + 2.65*r)
    case 11 => Center11(m, r, x0, y0)
    case 12 => Center12(m, r, x0, y0)
  }

  function Center11(m: MathLib, r: real, x0: real, y0: real): Point
    requires DivisorsNonZero(m)
  {
    Point(x0 + 2.0*r*m.cos(ToRad(m, 20.0)), y0 - 2.0*r*m.sin(ToRad(m, 20.0)) + r / m.cos(ToRad(m, 70.0)))
  }

  function Center12(m: MathLib, r: real, x0: real, y0: real): Point {
    Point(x0 + 2.0*r*m.sin(ToRad(m, 33.644)) - 2.0*r*m.cos(ToRad(m, 60.0)) + r,
          y0 + 2.0*r*m.cos(ToRad(m, 33.644)) + 2.0*r*m.sin(ToRad(m, 60.0)) - r*m.tan(ToRad(m, 30.0)))
  }

  /** Moving the first stick by `(dx, dy)` moves every other stick's place by the same amount. */
  lemma PositionsTranslate(m: MathLib, n: int, r: real, x0: real, y0: real, dx: real, dy: real)
    requires DivisorsNonZero(m)
    requires MinBundleSize <= n <= MaxBundleSize
    ensures Positions(m, n, r, x0 + dx, y0 + dy).value == Shifted(Positions(m, n, r, x0, y0).value, dx, dy)
  {
    if n == 2 {
      Pack2Translate(r, x0, y0, dx, dy);
    } else if n == 3 {
      Pack3Translate(m, r, x0, y0, dx, dy);
    } else if n == 4 {
      Pack4Translate(r, x0, y0, dx, dy);
    } else if n == 5 {
      Pack5Translate(m, r, x0, y0, dx, dy);
    } else if n == 6 {
      Pack6Translate(m, r, x0, y0, dx, dy);
    } else if n == 7 {
      Pack7Translate(m, r, x0, y0, dx, dy);
    } else if n == 8 {
      Pack8Translate(m, r, x0, y0, dx, dy);
    } else if n == 9 {
      Pack9Translate(r, x0, y0, dx, dy);
    } else if n == 10 {
      Pack10Translate(m, r, x0, y0, dx, dy);
    } else if n == 11 {
      Pack11Translate(m, r, x0, y0, dx, dy);
    } else {
      Pack12Translate(m, r, x0, y0, dx, dy);
    }
  }

  lemma Pack2Translate(r: real, x0: real, y0: real, dx: real, dy: real)
    ensures Pack2(r, x0 + dx, y0 + dy) == Shifted(Pack2(r, x0, y0), dx, dy)
  {
    var moved, ps := Pack2(r, x0 + dx, y0 + dy), Pack2(r, x0, y0);
    forall i | 0 <= i < |ps|
      ensures moved[i] == ps[i].Plus(dx, dy)
    {
    }
  }

  lemma Pack3Translate(m: MathLib, r: real, x0: real, y0: real, dx: real, dy: real)
    ensures Pack3(m, r, x0 + dx, y0 + dy) == Shifted(Pack3(m, r, x0, y0), dx, dy)
  {
    var moved, ps := Pack3(m, r, x0 + dx, y0 + dy), Pack3(m, r, x0, y0);
    forall i | 0 <= i < |ps|
      ensures moved[i] == ps[i].Plus(dx, dy)
    {
    }
  }

  lemma Pack4Translate(r: real, x0: real, y0: real, dx: real, dy: real)
    ensures Pack4(r, x0 + dx, y0 + dy) == Shifted(Pack4(r, x0, y0), dx, dy)
  {
    var moved, ps := Pack4(r, x0 + dx, y0 + dy), Pack4(r, x0, y0);
    forall i | 0 <= i < |ps|
      ensures moved[i] == ps[i].Plus(dx, dy)
    {
    }
  }

  lemma Pack5Translate(m: MathLib, r: real, x0: real, y0: real, dx: real, dy: real)
    ensures Pack5(m, r, x0 + dx, y0 + dy) == Shifted(Pack5(m, r, x0, y0), dx, dy)
  {
    var moved, ps := Pack5(m, r, x0 + dx, y0 + dy), Pack5(m, r, x0, y0);
    forall i | 0 <= i < |ps|
      ensures moved[i] == ps[i].Plus(dx, dy)
    {
    }
  }

  lemma Pack6Translate(m: MathLib, r: real, x0: real, y0: real, dx: real, dy: real)
    ensures Pack6(m, r, x0 + dx, y0 + dy) == Shifted(Pack6(m, r, x0, y0), dx, dy)
  {
    var moved, ps := Pack6(m, r, x0 + dx, y0 + dy), Pack6(m, r, x0, y0);
    forall i | 0 <= i < |ps|
      ensures moved[i] == ps[i].Plus(dx, dy)
    {
    }
  }

  lemma Pack7Translate(m: MathLib, r: real, x0: real, y0: real, dx: real, dy: real)
    ensures Pack7(m, r, x0 + dx, y0 + dy) == Shifted(Pack7(m, r, x0, y0), dx, dy)
  {
    var moved, ps := Pack7(m, r, x0 + dx, y0 + dy), Pack7(m, r, x0, y0);
    forall i | 0 <= i < |ps|
      ensures moved[i] == ps[i].Plus(dx, dy)
    {
    }
  }

  lemma Pack8Translate(m: MathLib, r: real, x0: real, y0: real, dx: real, dy: real)
    requires DivisorsNonZero(m)
    ensures Pack8(m, r, x0 + dx, y0 + dy) == Shifted(Pack8(m, r, x0, y0), dx, dy)
  {
    var moved, ps := Pack8(m, r, x0 + dx, y0 + dy), Pack8(m, r, x0, y0);
    forall i | 0 <= i < |ps|
      ensures moved[i] == ps[i].Plus(dx, dy)
    {
    }
  }

  lemma Pack9Translate(r: real, x0: real, y0: real, dx: real, dy: real)
    ensures Pack9(r, x0 + dx, y0 + dy) == Shifted(Pack9(r, x0, y0), dx, dy)
  {
    var moved, ps := Pack9(r, x0 + dx, y0 + dy), Pack9(r, x0, y0);
    forall i | 0 <= i < |ps|
      ensures moved[i] == ps[i].Plus(dx, dy)
    {
    }
  }

  lemma Pack10Translate(m: MathLib, r: real, x0: real, y0: real, dx: real, dy: real)
    ensures Pack10(m, r, x0 + dx, y0 + dy) == Shifted(Pack10(m, r, x0, y0), dx, dy)
  {
    var moved, ps := Pack10(m, r, x0 + dx, y0 + dy), Pack10(m, r, x0, y0);
    forall i | 0 <= i < |ps|
      ensures moved[i] == ps[i].Plus(dx, dy)
    {
    }
  }

  lemma Pack11Translate(m: MathLib, r: real, x0: real, y0: real, dx: real, dy: real)
    requires DivisorsNonZero(m)
    ensures Pack11(m, r, x0 + dx, y0 + dy) == Shifted(Pack11(m, r, x0, y0), dx, dy)
  {
    var moved, ps := Pack11(m, r, x0 + dx, y0 + dy), Pack11(m, r, x0, y0);
    forall i | 0 <= i < |ps|
      ensures moved[i] == ps[i].Plus(dx, dy)
    {
    }
  }

  lemma Pack12Translate(m: MathLib, r: real, x0: real, y0: real, dx: real, dy: real)
    ensures Pack12(m, r, x0 + dx, y0 + dy) == Shifted(Pack12(m, r, x0, y0), dx, dy)
  {
    var moved, ps := Pack12(m, r, x0 + dx, y0 + dy), Pack12(m, r, x0, y0);
    forall i | 0 <= i < |ps|
      ensures moved[i] == ps[i].Plus(dx, dy)
    {
    }
  }

  /** Moving the first stick by `(dx, dy)` moves the bundle centre by the same amount. */
  lemma CenterTranslate(m: MathLib, n: int, r: real, x0: real, y0: real, dx: real, dy: real)
    requires DivisorsNonZero(m)
    requires MinBundleSize <= n <= MaxBundleSize
    ensures Center(m, n, r, x0 + dx, y0 + dy).value == Center(m, n, r, x0, y0).value.Plus(dx, dy)
  {
  }

  /** The places of all `n` sticks of a bundle: the anchor stick first, then `positionLookup[n]`. */
  function Places(m: MathLib, n: int, r: real, x0: real, y0: real): (ps: seq<Point>)
    requires DivisorsNonZero(m)
    requires MinBundleSize <= n <= MaxBundleSize
    ensures |ps| == n
    ensures ps[0] == Point(x0, y0)
  {
    [Point(x0, y0)] + Positions(m, n, r, x0, y0).value
  }

  /** Two sticks: side by side on the x axis, the centre is their midpoint and the radius is one diameter. */
  lemma {:induction false} PairExact(m: MathLib, r: real, x0: real, y0: real)
    requires DivisorsNonZero(m)
    ensures Places(m, 2, r, x0, y0) == [Point(x0, y0), Point(x0 + 2.0*r, y0)]
    ensures Center(m, 2, r, x0, y0) == Some(Centroid(Places(m, 2, r, x0, y0)))
    ensures Center(m, 2, r, x0, y0) == Some(Point(x0 + r, y0))
  {
    SumsUpTo(Places(m, 2, r, x0, y0));
  }

  /** Four sticks: with the anchor they are the corners of a square of side `2r`, centred on the centre. */
  lemma {:induction false} SquareExact(m: MathLib, r: real, x0: real, y0: real)
    requires DivisorsNonZero(m)
    ensures var ps := Places(m, 4, r, x0, y0);
      && ps == [Point(x0, y0), Point(x0 + 2.0*r, y0), Point(x0, y0 + 2.0*r), Point(x0 + 2.0*r, y0 + 2.0*r)]
      && DistSq(ps[0], ps[1]) == DistSq(ps[1], ps[3]) == DistSq(ps[3], ps[2]) == DistSq(ps[2], ps[0]) == 4.0*r*r
      && DistSq(ps[0], ps[3]) == DistSq(ps[1], ps[2]) == 8.0*r*r
      && Center(m, 4, r, x0, y0) == Some(Point(x0 + r, y0 + r))
      && Center(m, 4, r, x0, y0) == Some(Centroid(ps))
  {
    SumsUpTo(Places(m, 4, r, x0, y0));
  }

  /** Seven sticks: a hexagon around the anchor, which is the centre; each of the six is one diameter from it. */
  lemma {:induction false} HexagonExact(m: MathLib, r: real, x0: real, y0: real)
    requires DivisorsNonZero(m)
    requires m.sqrt(3.0) * m.sqrt(3.0) == 3.0
    ensures Center(m, 7, r, x0, y0) == Some(Point(x0, y0))
    ensures forall i :: 1 <= i < 7 ==> DistSq(Places(m, 7, r, x0, y0)[i], Point(x0, y0)) == 4.0*r*r
  {
    var s := m.sqrt(3.0);
    var ps := Places(m, 7, r, x0, y0);
    forall i | 1 <= i < 7
      ensures DistSq(ps[i], Point(x0, y0)) == 4.0*r*r
    {
      assert (s*r) * (s*r) == (s*s) * (r*r);
    }
  }

  /** The radii that are exact multiples of `r`: one diameter for a pair, three radii for six and for seven sticks. */
  lemma RadiusExact(m: MathLib, r: real)
    requires DivisorsNonZero(m)
    ensures Radius(m, 2, r) == Some(2.0*r)
    ensures Radius(m, 6, r) == Radius(m, 7, r) == Some(3.0*r)
  {
  }

  /** The grid of nine: the radius is the half-diagonal `sqrt(8) r` of the grid plus one stick radius. */
  lemma GridRadius(m: MathLib, r: real)
    requires DivisorsNonZero(m)
    ensures Radius(m, 9, r) == Some(m.sqrt(8.0)*r + r)
  {
    assert RadiusOf(m, 9, r) == Radius9(m, r);
    assert Radius9(m, r) == m.sqrt(8.0)*r + r;
    assert Radius(m, 9, r) == Some(Radius9(m, r));
  }

  /** The stick in column `i` and row `j` of a grid of pitch `2r` whose corner stick stands at `(x0, y0)`. */
  function GridPoint(x0: real, y0: real, r: real, i: int, j: int): Point {
    Point(x0 + 2.0*r*(i as real), y0 + 2.0*r*(j as real))
  }

  /** Nine sticks: a 3 x 3 grid of pitch `2r`, the anchor in a corner, listed column by column. */
  lemma {:induction false} GridExact(m: MathLib, r: real, x0: real, y0: real)
    requires DivisorsNonZero(m)
    ensures forall i, j :: 0 <= i < 3 && 0 <= j < 3 ==> Places(m, 9, r, x0, y0)[3*i + j] == GridPoint(x0, y0, r, i, j)
  {
    var ps := Places(m, 9, r, x0, y0);
    forall i, j | 0 <= i < 3 && 0 <= j < 3
      ensures ps[3*i + j] == GridPoint(x0, y0, r, i, j)
    {
      if i == 0 {
        if j == 0 {} else if j == 1 {} else {}
      } else if i == 1 {
        if j == 0 {} else if j == 1 {} else {}
      } else {
        if j == 0 {} else if j == 1 {} else {}
      }
    }
  }

  /** Nine sticks: the centre is the middle stick of the grid, which is also the centroid of the nine. */
  lemma {:induction false} GridCenter(m: MathLib, r: real, x0: real, y0: real)
    requires DivisorsNonZero(m)
    ensures Center(m, 9, r, x0, y0) == Some(GridPoint(x0, y0, r, 1, 1))
    ensures Center(m, 9, r, x0, y0) == Some(Centroid(Places(m, 9, r, x0, y0)))
  {
    var ps := Places(m, 9, r, x0, y0);
    SumsUpTo(ps);
    assert SumX(ps[..3]) == 3.0*x0;
    assert SumX(ps[..6]) == 6.0*x0 + 6.0*r;
    assert SumX(ps) == 9.0*x0 + 18.0*r;
    assert SumY(ps[..3]) == 3.0*y0 + 6.0*r;
    assert SumY(ps[..6]) == 6.0*y0 + 12.0*r;
    assert SumY(ps) == 9.0*y0 + 18.0*r;
  }

  /** `SumX` and `SumY` of a short sequence, written out term by term. */
  lemma {:induction false} SumsUpTo(ps: seq<Point>)
    requires |ps| <= 9
    ensures forall k :: 0 <= k < |ps| ==> SumX(ps[..k + 1]) == SumX(ps[..k]) + ps[k].x
    ensures forall k :: 0 <= k < |ps| ==> SumY(ps[..k + 1]) == SumY(ps[..k]) + ps[k].y
    ensures SumX(ps[..0]) == SumY(ps[..0]) == 0.0 && ps[..|ps|] == ps
  {
    forall k | 0 <= k < |ps|
      ensures SumX(ps[..k + 1]) == SumX(ps[..k]) + ps[k].x
      ensures SumY(ps[..k + 1]) == SumY(ps[..k]) + ps[k].y
    {
      assert ps[..k + 1][..k] == ps[..k];
    }
  }
}
