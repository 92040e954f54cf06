/**
 * The first drag controls: no callbacks and no hold offset. A move with
 * nothing held hovers the first object under the pointer, or nothing; a held
 * object is put exactly where the ray meets the movement plane.
 */
module PrototypeDrag {
  import opened Wrappers
  import opened Geometry
  import opened SceneGraph
  import opened Pointer

  class RelativeDragControls {
    var movementPlane: Plane
    var hoveredObject: Option<NodeId>
    var heldObject: Option<NodeId>

    /** Only the hovered object is ever held. */
    predicate Valid()
      reads this
    {
      heldObject.Some? ==> heldObject == hoveredObject
    }

    /** The hovered object, and so the held one, is an object of the scene graph. */
    predicate Knows(g: Graph)
      reads this
    {
      hoveredObject.Some? ==> hoveredObject.value in g.nodes
    }

    /** New controls: nothing hovered or held. */
    constructor(plane: Plane)
      ensures Valid()
      ensures movementPlane == plane && hoveredObject.None? && heldObject.None?
    {
      movementPlane := plane;
      hoveredObject := None;
      heldObject := None;
    }

    /** `dragRelativeTo(plane)`: only the movement plane changes. */
    method DragRelativeTo(plane: Plane)
      requires Valid()
      modifies this
      ensures Valid()
      ensures movementPlane == plane && hoveredObject == old(hoveredObject) && heldObject == old(heldObject)
    {
      movementPlane := plane;
    }

    /**
     * `onMouseMove`: a held object is put where the ray meets the movement
     * plane; otherwise the first object hit, or nothing, becomes the hovered
     * one. Returns the scene with the held object moved.
     */
    method OnMouseMove(g: Graph, cast: Raycast) returns (h: Graph)
      requires Valid() && Knows(g) && HitsIn(g, cast)
      modifies this
      ensures Valid() && Knows(g)
      ensures movementPlane == old(movementPlane) && heldObject == old(heldObject)
      ensures old(heldObject).Some? ==>
        h == SetPosition(g, old(heldObject).value, Intersection(cast, movementPlane)) && hoveredObject == old(hoveredObject)
      ensures old(heldObject).None? ==> h == g && hoveredObject == cast.firstHit
    {
      h := g;
      if heldObject.Some? {
        var intersection := Intersection(cast, movementPlane);
        h := SetPosition(g, heldObject.value, intersection);
      } else {
        if cast.firstHit.Some? {
          hoveredObject := cast.firstHit;
        } else {
          hoveredObject := None;
        }
      }
    }

    /** `onMouseDown`: a hovered object becomes the held one. */
    method OnMouseDown()
      requires Valid()
      modifies this
      ensures Valid()
      ensures movementPlane == old(movementPlane) && hoveredObject == old(hoveredObject)
      ensures heldObject == if old(hoveredObject).Some? then old(hoveredObject) else old(heldObject)
    {
      if hoveredObject.Some? {
        heldObject := hoveredObject;
      }
    }

    /** `onMouseUp`: nothing is held any more. */
    method OnMouseUp()
      requires Valid()
      modifies this
      ensures Valid()
      ensures movementPlane == old(movementPlane) && hoveredObject == old(hoveredObject) && heldObject.None?
    {
      heldObject := None;
    }
  }
}
