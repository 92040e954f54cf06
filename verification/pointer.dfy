/**
 * What the pointer handlers of the selection and drag controls share: turning
 * a pointer event's client coordinates into the normalised coordinates a
 * three.js `Raycaster` is set from, and what a raycast from there reports.
 */
module Pointer {
  import opened Wrappers
  import opened Geometry
  import opened SceneGraph
  import opened Utils

  /** `getBoundingClientRect()` of the renderer's canvas. */
  datatype Rect = Rect(left: real, top: real, width: real, height: real)

  /** The canvas has an area, so the normalisation can divide by its width and height. */
  predicate HasArea(r: Rect) {
    r.width != 0.0 && r.height != 0.0
  }

  /**
   * `getRelativeMousePosition(event)`: the client position scaled so that the
   * canvas spans -1 to 1 in both directions, x growing to the right and y
   * growing upwards.
   */
  function RelativeMousePosition(clientX: real, clientY: real, r: Rect): (p: Point)
    requires HasArea(r)
    ensures (p.x + 1.0) * r.width == 2.0 * (clientX - r.left)
    ensures (1.0 - p.y) * r.height == 2.0 * (clientY - r.top)
  {
    Point((clientX - r.left) / r.width * 2.0 - 1.0, -(clientY - r.top) / r.height * 2.0 + 1.0)
  }

  /** The client position that a normalised position comes from. */
  function ClientPosition(p: Point, r: Rect): Point {
    Point(r.left + (p.x + 1.0) * r.width / 2.0, r.top + (1.0 - p.y) * r.height / 2.0)
  }

  /** Normalising and going back to client coordinates are inverse to each other. */
  lemma RelativeRoundTrip(clientX: real, clientY: real, p: Point, r: Rect)
    requires HasArea(r)
    ensures ClientPosition(RelativeMousePosition(clientX, clientY, r), r) == Point(clientX, clientY)
    ensures RelativeMousePosition(ClientPosition(p, r).x, ClientPosition(p, r).y, r) == p
  {
    var q := RelativeMousePosition(clientX, clientY, r);
    var c := ClientPosition(q, r);
    assert (q.x + 1.0) * r.width / 2.0 == clientX - r.left;
    assert (1.0 - q.y) * r.height / 2.0 == clientY - r.top;
    var c' := ClientPosition(p, r);
    var p' := RelativeMousePosition(c'.x, c'.y, r);
    assert (p'.x + 1.0) * r.width == (p.x + 1.0) * r.width;
    assert (1.0 - p'.y) * r.height == (1.0 - p.y) * r.height;
  }

  /** The top-left corner is (-1, 1), the centre (0, 0) and the bottom-right corner (1, -1). */
  lemma RelativeCorners(r: Rect)
    requires HasArea(r)
    ensures RelativeMousePosition(r.left, r.top, r) == Point(-1.0, 1.0)
    ensures RelativeMousePosition(r.left + r.width / 2.0, r.top + r.height / 2.0, r) == Point(0.0, 0.0)
    ensures RelativeMousePosition(r.left + r.width, r.top + r.height, r) == Point(1.0, -1.0)
  {
    var a := RelativeMousePosition(r.left, r.top, r);
    Cancel(a.x + 1.0, 0.0, r.width);
    Cancel(1.0 - a.y, 0.0, r.height);
    var b := RelativeMousePosition(r.left + r.width / 2.0, r.top + r.height / 2.0, r);
    Cancel(b.x + 1.0, 1.0, r.width);
    Cancel(1.0 - b.y, 1.0, r.height);
    var c := RelativeMousePosition(r.left + r.width, r.top + r.height, r);
    Cancel(c.x + 1.0, 2.0, r.width);
    Cancel(1.0 - c.y, 2.0, r.height);
  }

  /** A pointer over the canvas normalises into [-1, 1] in both directions. */
  lemma RelativeInRange(clientX: real, clientY: real, r: Rect)
    requires r.width > 0.0 && r.height > 0.0
    requires r.left <= clientX <= r.left + r.width && r.top <= clientY <= r.top + r.height
    ensures -1.0 <= RelativeMousePosition(clientX, clientY, r).x <= 1.0
    ensures -1.0 <= RelativeMousePosition(clientX, clientY, r).y <= 1.0
  {
    var p := RelativeMousePosition(clientX, clientY, r);
    Scale(0.0, p.x + 1.0, r.width);
    assert (p.x + 1.0) * r.width == 2.0 * (clientX - r.left) <= 2.0 * r.width;
    Scale(p.x + 1.0, 2.0, r.width);
    Scale(0.0, 1.0 - p.y, r.height);
    assert (1.0 - p.y) * r.height == 2.0 * (clientY - r.top) <= 2.0 * r.height;
    Scale(1.0 - p.y, 2.0, r.height);
  }

  /** A non-zero factor cancels. */
  lemma Cancel(a: real, b: real, w: real)
    requires w != 0.0 && a * w == b * w
    ensures a == b
  {
    assert (a - b) * w == 0.0;
  }

  /** A positive factor keeps the order. */
  lemma Scale(a: real, b: real, w: real)
    requires w > 0.0 && a * w <= b * w
    ensures a <= b
  {
    assert (b - a) * w >= 0.0;
  }

  /** A three.js `Plane`: the points `v` with `normal . v + constant == 0`. */
  datatype Plane = Plane(normal: Vec3, constant: real)

  /**
   * What a `Raycaster` set from the camera through the pointer reports: the
   * first object `intersectObjects` hits among the controls' objects or their
   * descendants, if any, and where the ray meets a given plane
   * (`intersectPlane`), `None` when it never does.
   */
  datatype Raycast = Raycast(firstHit: Option<NodeId>, meet: Plane -> Option<Vec3>)

  /** The object hit, if any, is an object of the scene graph. */
  predicate HitsIn(g: Graph, cast: Raycast) {
    cast.firstHit.Some? ==> cast.firstHit.value in g.nodes
  }

  /** The outermost group of the first object the raycast hits. */
  function Target(g: Graph, cast: Raycast): (t: Option<NodeId>)
    requires Wf(g) && HitsIn(g, cast)
    ensures t.Some? <==> cast.firstHit.Some?
    ensures t.Some? ==> t.value in g.nodes && !StepsUp(g, t.value) && IsAncestorOrSelf(g, t.value, cast.firstHit.value)
  {
    if cast.firstHit.Some? then Some(LargestGroup(g, cast.firstHit.value)) else None
  }

  /**
   * `raycaster.ray.intersectPlane(plane, intersection)` into a fresh
   * `new Vector3()`: a ray that misses the plane leaves it at the origin.
   */
  function Intersection(cast: Raycast, plane: Plane): Vec3 {
    cast.meet(plane).GetOr(Zero)
  }
}
