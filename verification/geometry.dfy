/**
 * Points, vectors and the floating-point library functions of the sticks demo.
 *
 * Numbers are modelled as `real`. `Math.sin`, `Math.cos`, `Math.tan`, `Math.sqrt`
 * and `Math.PI` are not interpreted: they are fields of a `MathLib` value that
 * every geometric function receives, so a proof about the lookup tables holds
 * for whatever those library functions return, unless a lemma states a
 * hypothesis about a particular value (for instance `sqrt(3) * sqrt(3) == 3`).
 */
module Geometry {

  /** A point of the table-top plane, `{x, y}` in the lookup tables. */
  datatype Point = Point(x: real, y: real) {

    function Plus(dx: real, dy: real): Point {
      Point(x + dx, y + dy)
    }
  }

  /** A three.js `Vector3`. */
  datatype Vec3 = Vec3(x: real, y: real, z: real) {

    /** `Vector3.add`. */
    function Plus(v: Vec3): Vec3 {
      Vec3(x + v.x, y + v.y, z + v.z)
    }

    /** `Vector3.sub`. */
    function Minus(v: Vec3): Vec3 {
      Vec3(x - v.x, y - v.y, z - v.z)
    }
  }

  /** `new Vector3()`: every coordinate zero. */
  const Zero := Vec3(0.0, 0.0, 0.0)

  /** The uninterpreted `Math` functions and the constant `Math.PI`. */
  datatype MathLib = MathLib(
    sin: real -> real,
    cos: real -> real,
    tan: real -> real,
    sqrt: real -> real,
    pi: real)

  /** Degrees to radians, `degrees * (Math.PI / 180)`. */
  function ToRad(m: MathLib, degrees: real): (rad: real)
    ensures rad * 180.0 == degrees * m.pi
  {
    degrees * (m.pi / 180.0)
  }

  /** Squared Euclidean distance between two points of the plane. */
  function DistSq(p: Point, q: Point): (d: real)
    ensures d >= 0.0
  {
    (p.x - q.x) * (p.x - q.x) + (p.y - q.y) * (p.y - q.y)
  }

  /** Sum of the coordinates of a sequence of points. */
  function SumX(ps: seq<Point>): real {
    if ps == [] then 0.0 else SumX(ps[..|ps| - 1]) + ps[|ps| - 1].x
  }

  function SumY(ps: seq<Point>): real {
    if ps == [] then 0.0 else SumY(ps[..|ps| - 1]) + ps[|ps| - 1].y
  }

  /** The centroid (mean point) of a non-empty sequence of points. */
  function Centroid(ps: seq<Point>): Point
    requires ps != []
  {
    Point(SumX(ps) / (|ps| as real), SumY(ps) / (|ps| as real))
  }

  /** Every point of `ps` moved by `(dx, dy)`. */
  function Shifted(ps: seq<Point>, dx: real, dy: real): (qs: seq<Point>)
    ensures |qs| == |ps|
    ensures forall i :: 0 <= i < |ps| ==> qs[i] == ps[i].Plus(dx, dy)
  {
    seq(|ps|, i requires 0 <= i < |ps| => ps[i].Plus(dx, dy))
  }

  /** Converting degrees is linear: `toRad(a + b) == toRad(a) + toRad(b)`, and 180 degrees is pi. */
  lemma ToRadLinear(m: MathLib, a: real, b: real)
    ensures ToRad(m, a + b) == ToRad(m, a) + ToRad(m, b)
    ensures ToRad(m, 180.0) == m.pi
  {
  }
}
