/**
 * The older drag controls: the hover follows the first object under the
 * pointer itself rather than its outermost group, and pressing the pointer
 * over a hovered object holds it at once.
 */
module EarlyDrag {
  import opened Wrappers
  import opened Geometry
  import opened SceneGraph
  import opened Pointer
  import opened RelativeDrag

  class RelativeDragControls {
    var movementPlane: Plane
    var hoveredObject: Option<NodeId>
    var heldObject: Option<NodeId>
    var holdOffset: Vec3
    var fired: seq<Callback>

    /** Only the hovered object is ever held, and the hover callbacks fired so far pair up and end on it. */
    predicate Valid()
      reads this
    {
      && (heldObject.Some? ==> heldObject == hoveredObject)
      && HoverAfter(fired) == Open(hoveredObject)
    }

    /** The hovered object, and so the held one, is an object of the scene graph. */
    predicate Knows(g: Graph)
      reads this
    {
      hoveredObject.Some? ==> hoveredObject.value in g.nodes
    }

    /** New controls: nothing hovered or held, no callbacks yet. */
    constructor(plane: Plane)
      ensures Valid()
      ensures movementPlane == plane && hoveredObject.None? && heldObject.None? && holdOffset == Zero && fired == []
    {
      movementPlane := plane;
      hoveredObject := None;
      heldObject := None;
      holdOffset := Zero;
      fired := [];
    }

    /** `dragRelativeTo(plane)`: only the movement plane changes. */
    method DragRelativeTo(plane: Plane)
      requires Valid()
      modifies this
      ensures Valid()
      ensures movementPlane == plane
      ensures hoveredObject == old(hoveredObject) && heldObject == old(heldObject)
      ensures holdOffset == old(holdOffset) && fired == old(fired)
    {
      movementPlane := plane;
    }

    /**
     * `onMouseMove`: while an object is held it follows the ray across the
     * movement plane, shifted by the hold offset, and `onDragUpdate` fires;
     * otherwise the first object hit becomes the hovered one. Returns the
     * scene with the held object moved.
     */
    method OnMouseMove(g: Graph, cast: Raycast) returns (h: Graph)
      requires Valid() && Knows(g) && HitsIn(g, cast)
      modifies this
      ensures Valid() && Knows(g)
      ensures movementPlane == old(movementPlane) && heldObject == old(heldObject) && holdOffset == old(holdOffset)
      ensures old(heldObject).Some? ==>
        && h == SetPosition(g, old(heldObject).value, Intersection(cast, movementPlane).Plus(holdOffset))
        && hoveredObject == old(hoveredObject)
        && fired == old(fired) + [OnDragUpdate(old(heldObject).value)]
      ensures old(heldObject).None? ==>
        && h == g
        && hoveredObject == cast.firstHit
        && fired == old(fired) + Rehover(old(hoveredObject), cast.firstHit).1
    {
      if heldObject.Some? {
        var obj := heldObject.value;
        var intersection := Intersection(cast, movementPlane);
        h := SetPosition(g, obj, intersection.Plus(holdOffset));
        var t := fired + [OnDragUpdate(obj)];
        DragCallbackPaired(fired, OnDragUpdate(obj));
        assert HoverAfter(t) == Open(hoveredObject);
        fired := t;
      } else {
        h := g;
        var t := fired;
        RehoverPaired(t, hoveredObject, cast.firstHit);
        if cast.firstHit.Some? && cast.firstHit != hoveredObject {
          if hoveredObject.Some? {
            t := t + [OnUnhover(hoveredObject.value)];
          }
          t := t + [OnHover(cast.firstHit.value)];
        } else if hoveredObject.Some? && cast.firstHit.None? {
          t := t + [OnUnhover(hoveredObject.value)];
        }
        assert t == old(fired) + Rehover(old(hoveredObject), cast.firstHit).1;
        assert HoverAfter(t) == Open(cast.firstHit);
        hoveredObject := cast.firstHit;
        fired := t;
      }
    }

    /**
     * `onMouseDown`: a hovered object is held at once, at an offset such that
     * the ray through the pointer, met with the movement plane and shifted by
     * the offset, gives back the object's position; `onDragStart` fires.
     */
    method OnMouseDown(g: Graph, cast: Raycast)
      requires Valid() && Knows(g)
      modifies this
      ensures Valid()
      ensures movementPlane == old(movementPlane) && hoveredObject == old(hoveredObject)
      ensures old(hoveredObject).None? ==>
        heldObject == old(heldObject) && holdOffset == old(holdOffset) && fired == old(fired)
      ensures old(hoveredObject).Some? ==>
        && heldObject == old(hoveredObject)
        && Intersection(cast, movementPlane).Plus(holdOffset) == g.nodes[old(hoveredObject).value].position
        && fired == old(fired) + [OnDragStart(old(hoveredObject).value)]
    {
      if hoveredObject.Some? {
        var obj := hoveredObject.value;
        var intersection := Intersection(cast, movementPlane);
        var position := g.nodes[obj].position;
        holdOffset := position.Minus(intersection);
        assert intersection.Plus(holdOffset) == position;
        var t := fired + [OnDragStart(obj)];
        DragCallbackPaired(fired, OnDragStart(obj));
        assert HoverAfter(t) == Open(hoveredObject);
        heldObject := hoveredObject;
        fired := t;
      }
    }

    /** `onMouseUp`: a held object is dropped and `onDragEnd` fires. */
    method OnMouseUp()
      requires Valid()
      modifies this
      ensures Valid() && heldObject.None?
      ensures movementPlane == old(movementPlane) && hoveredObject == old(hoveredObject) && holdOffset == old(holdOffset)
      ensures fired == old(fired) + if old(heldObject).Some? then [OnDragEnd(old(heldObject).value)] else []
    {
      if heldObject.Some? {
        var t := fired + [OnDragEnd(heldObject.value)];
        DragCallbackPaired(fired, OnDragEnd(heldObject.value));
        assert HoverAfter(t) == Open(hoveredObject);
        heldObject := None;
        fired := t;
      }
    }
  }
}
