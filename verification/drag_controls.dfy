/**
 * `RelativeDragControls`: hovering the outermost group under the pointer,
 * picking it up when the pointer stays pressed past a short delay, moving it
 * along a plane while it is held, and dropping it on release. Every change is
 * announced through a callback; the model keeps the callbacks fired so far.
 *
 * The delay is a `setTimeout`: pressing the pointer over a hovered object
 * schedules a hold check, and the check runs later as an event of its own,
 * after whatever pointer events came first.
 */
module RelativeDrag {
  import opened Wrappers
  import opened Geometry
  import opened SceneGraph
  import opened Utils
  import opened Pointer

  /** The callbacks of the controls, each with the object it concerns. */
  datatype Callback =
    | OnHover(obj: NodeId)
    | OnUnhover(obj: NodeId)
    | OnDragStart(obj: NodeId)
    | OnDragUpdate(obj: NodeId)
    | OnDragEnd(obj: NodeId)

  // ---------------------------------------------------------------------------
  // Hovering, shared with the older controls
  // ---------------------------------------------------------------------------

  /**
   * The hover part of a pointer move with nothing held: a new target unhovers
   * the old one, if any, and then hovers the new one; no target at all
   * unhovers the old one. Returns the new hover and the callbacks fired.
   */
  function Rehover(hovered: Option<NodeId>, target: Option<NodeId>): (r: (Option<NodeId>, seq<Callback>))
    ensures r.0 == target
    ensures r.1 == [] <==> target == hovered
    ensures |r.1| <= 2
  {
    if target.Some? && target != hovered then
      (target, (if hovered.Some? then [OnUnhover(hovered.value)] else []) + [OnHover(target.value)])
    else if hovered.Some? && target.None? then
      (None, [OnUnhover(hovered.value)])
    else
      (hovered, [])
  }

  /** How the hover callbacks of a trace pair up: broken, or ending with the given object hovered. */
  datatype Pairing = Broken | Open(hovered: Option<NodeId>)

  /** One more callback: `onHover` only when nothing is hovered, `onUnhover(x)` only when `x` is. */
  function HoverNext(p: Pairing, c: Callback): Pairing {
    match p
    case Broken => Broken
    case Open(cur) =>
      match c
      case OnHover(x) => if cur.None? then Open(Some(x)) else Broken
      case OnUnhover(x) => if cur == Some(x) then Open(None) else Broken
      case _ => p
  }

  /** The pairing of the hover callbacks of `t`, read from the first. */
  function HoverAfter(t: seq<Callback>): Pairing {
    if t == [] then Open(None) else HoverNext(HoverAfter(t[..|t| - 1]), t[|t| - 1])
  }

  lemma HoverAfterSnoc(t: seq<Callback>, c: Callback)
    ensures HoverAfter(t + [c]) == HoverNext(HoverAfter(t), c)
  {
    assert (t + [c])[..|t|] == t;
  }

  /**
   * The callbacks of a hover update keep the hover callbacks paired: each
   * `onHover(x)` is followed by `onUnhover(x)` before the next `onHover`, and
   * the trace ends with the new target hovered.
   */
  lemma RehoverPaired(t: seq<Callback>, hovered: Option<NodeId>, target: Option<NodeId>)
    requires HoverAfter(t) == Open(hovered)
    ensures HoverAfter(t + Rehover(hovered, target).1) == Open(target)
  {
    var cs := Rehover(hovered, target).1;
    if target.Some? && target != hovered {
      if hovered.Some? {
        assert cs == [OnUnhover(hovered.value), OnHover(target.value)];
        HoverAfterSnoc(t, OnUnhover(hovered.value));
        HoverAfterSnoc(t + [OnUnhover(hovered.value)], OnHover(target.value));
        assert t + cs == t + [OnUnhover(hovered.value)] + [OnHover(target.value)];
      } else {
        assert cs == [OnHover(target.value)];
        HoverAfterSnoc(t, OnHover(target.value));
      }
    } else if hovered.Some? && target.None? {
      HoverAfterSnoc(t, OnUnhover(hovered.value));
    } else {
      assert t + cs == t;
    }
  }

  /** A drag callback leaves the hover pairing as it was. */
  lemma DragCallbackPaired(t: seq<Callback>, c: Callback)
    requires !c.OnHover? && !c.OnUnhover?
    ensures HoverAfter(t + [c]) == HoverAfter(t)
  {
    HoverAfterSnoc(t, c);
  }

  // ---------------------------------------------------------------------------
  // The state machine
  // ---------------------------------------------------------------------------

  /**
   * The fields the handlers change; `pendingHolds` counts the hold checks
   * that pointer-down has scheduled and that have not run yet.
   */
  datatype DragState = DragState(
    movementPlane: Plane,
    hovered: Option<NodeId>,
    held: Option<NodeId>,
    holdOffset: Vec3,
    mouseIsDown: bool,
    pendingHolds: nat)

  /** A handler's effect: the new fields and the callbacks it fired, in order. */
  datatype Step = Step(state: DragState, fired: seq<Callback>)

  /** Only the hovered object is ever held, and the hover callbacks fired so far pair up and end on it. */
  predicate Paired(s: DragState, t: seq<Callback>) {
    && (s.held.Some? ==> s.held == s.hovered)
    && HoverAfter(t) == Open(s.hovered)
  }

  /** The hovered object, and so the held one, is an object of the scene graph. */
  predicate Knows(g: Graph, s: DragState) {
    s.hovered.Some? ==> s.hovered.value in g.nodes
  }

  /** `onMouseMove`: a held object gets an update callback; otherwise the hover follows the target. */
  function Moved(s: DragState, g: Graph, cast: Raycast): Step
    requires Wf(g) && HitsIn(g, cast)
  {
    if s.held.Some? then
      Step(s, [OnDragUpdate(s.held.value)])
    else
      var (h, cs) := Rehover(s.hovered, Target(g, cast));
      Step(s.(hovered := h), cs)
  }

  /** The scene after `onMouseMove`: a held object goes where the ray meets the movement plane, shifted by the hold offset. */
  function MovedScene(s: DragState, g: Graph, cast: Raycast): Graph
    requires s.held.Some? ==> s.held.value in g.nodes
  {
    if s.held.Some? then
      SetPosition(g, s.held.value, Intersection(cast, s.movementPlane).Plus(s.holdOffset))
    else
      g
  }

  /** `onMouseDown`: the pointer is down, and a hold check is scheduled when something is hovered. */
  function Pressed(s: DragState): DragState {
    s.(mouseIsDown := true, pendingHolds := s.pendingHolds + if s.hovered.Some? then 1 else 0)
  }

  /**
   * The scheduled hold check: when an object is hovered and the pointer is
   * still down, it is held, at the offset from where the ray meets the
   * movement plane to its position.
   */
  function HoldChecked(s: DragState, g: Graph, cast: Raycast): Step
    requires s.pendingHolds > 0 && Knows(g, s)
  {
    var s' := s.(pendingHolds := s.pendingHolds - 1);
    if s.hovered.Some? && s.mouseIsDown then
      var h := s.hovered.value;
      Step(s'.(holdOffset := g.nodes[h].position.Minus(Intersection(cast, s.movementPlane)), held := s.hovered),
           [OnDragStart(h)])
    else
      Step(s', [])
  }

  /** `onMouseUp`: the pointer is up, and a held object is dropped. */
  function Released(s: DragState): Step {
    var s' := s.(mouseIsDown := false);
    if s.held.Some? then Step(s'.(held := None), [OnDragEnd(s.held.value)]) else Step(s', [])
  }

  /** A pointer move keeps the controls paired, and fires nothing only when nothing is held and the target is already hovered. */
  lemma MovedPaired(s: DragState, t: seq<Callback>, g: Graph, cast: Raycast)
    requires Wf(g) && HitsIn(g, cast) && Paired(s, t)
    ensures Paired(Moved(s, g, cast).state, t + Moved(s, g, cast).fired)
    ensures Moved(s, g, cast).state.hovered == if s.held.Some? then s.hovered else Target(g, cast)
    ensures Moved(s, g, cast).fired == [] <==> s.held.None? && Target(g, cast) == s.hovered
  {
    if s.held.Some? {
      DragCallbackPaired(t, OnDragUpdate(s.held.value));
    } else {
      RehoverPaired(t, s.hovered, Target(g, cast));
    }
  }

  /** A hold check keeps the controls paired; it holds an object exactly when one is hovered and the pointer is down. */
  lemma HoldCheckedPaired(s: DragState, t: seq<Callback>, g: Graph, cast: Raycast)
    requires s.pendingHolds > 0 && Knows(g, s) && Paired(s, t)
    ensures Paired(HoldChecked(s, g, cast).state, t + HoldChecked(s, g, cast).fired)
    ensures HoldChecked(s, g, cast).state.held.Some? <==> s.held.Some? || (s.hovered.Some? && s.mouseIsDown)
    ensures HoldChecked(s, g, cast).state.pendingHolds == s.pendingHolds - 1
  {
    if s.hovered.Some? && s.mouseIsDown {
      DragCallbackPaired(t, OnDragStart(s.hovered.value));
    } else {
      assert t + [] == t;
    }
  }

  /** Pressing and releasing keep the controls paired; releasing leaves nothing held. */
  lemma PressReleasePaired(s: DragState, t: seq<Callback>)
    requires Paired(s, t)
    ensures Paired(Pressed(s), t)
    ensures Paired(Released(s).state, t + Released(s).fired)
    ensures !Released(s).state.mouseIsDown && Released(s).state.held.None?
    ensures Released(s).fired == [] <==> s.held.None?
  {
    if s.held.Some? {
      DragCallbackPaired(t, OnDragEnd(s.held.value));
    } else {
      assert t + [] == t;
    }
  }

  /** Releasing the pointer before the hold check runs means the check holds nothing and fires nothing. */
  lemma ReleaseBeforeHoldCheck(s: DragState, g: Graph, cast: Raycast)
    requires s.pendingHolds > 0 && Knows(g, s)
    ensures HoldChecked(Released(s).state, g, cast).state.held.None?
    ensures HoldChecked(Released(s).state, g, cast).fired == []
  {
  }

  /**
   * Picking an object up does not move it: right after the hold check, a move
   * along the same ray puts the object back at the position it had.
   */
  lemma HoldDoesNotJump(s: DragState, g: Graph, cast: Raycast)
    requires s.pendingHolds > 0 && Knows(g, s) && s.hovered.Some? && s.mouseIsDown
    ensures MovedScene(HoldChecked(s, g, cast).state, g, cast) == g
  {
    var h := s.hovered.value;
    var i := Intersection(cast, s.movementPlane);
    var p := g.nodes[h].position;
    assert i.Plus(p.Minus(i)) == p;
    assert g.nodes[h := g.nodes[h].(position := p)] == g.nodes;
  }

  // ---------------------------------------------------------------------------
  // The controls
  // ---------------------------------------------------------------------------

  class RelativeDragControls {
    var movementPlane: Plane
    var hoveredObject: Option<NodeId>
    var heldObject: Option<NodeId>
    var holdOffset: Vec3
    var mouseIsDown: bool
    var pendingHolds: nat
    var fired: seq<Callback>

    function State(): DragState
      reads this
    {
      DragState(movementPlane, hoveredObject, heldObject, holdOffset, mouseIsDown, pendingHolds)
    }

    predicate Valid()
      reads this
    {
      Paired(State(), fired)
    }

    /** New controls: nothing hovered or held, the pointer up, no callbacks yet. */
    constructor(plane: Plane)
      ensures Valid()
      ensures State() == DragState(plane, None, None, Zero, false, 0) && fired == []
    {
      movementPlane := plane;
      hoveredObject := None;
      heldObject := None;
      holdOffset := Zero;
      mouseIsDown := false;
      pendingHolds := 0;
      fired := [];
    }

    /** `dragRelativeTo(plane)`: only the movement plane changes. */
    method DragRelativeTo(plane: Plane)
      requires Valid()
      modifies this
      ensures Valid()
      ensures State() == old(State()).(movementPlane := plane) && fired == old(fired)
    {
      movementPlane := plane;
    }

    /**
     * `onMouseMove`: while an object is held it follows the ray across the
     * movement plane and `onDragUpdate` fires; otherwise the hover follows the
     * outermost group under the pointer. Returns the scene with the held
     * object moved.
     */
    method OnMouseMove(g: Graph, cast: Raycast) returns (h: Graph)
      requires Valid() && Wf(g) && HitsIn(g, cast) && Knows(g, State())
      modifies this
      ensures Valid() && Knows(g, State())
      ensures h == MovedScene(old(State()), g, cast)
      ensures State() == Moved(old(State()), g, cast).state
      ensures fired == old(fired) + Moved(old(State()), g, cast).fired
    {
      ghost var step := Moved(State(), g, cast);
      MovedPaired(State(), fired, g, cast);
      if heldObject.Some? {
        var obj := heldObject.value;
        var intersection := Intersection(cast, movementPlane);
        h := SetPosition(g, obj, intersection.Plus(holdOffset));
        var t := fired + [OnDragUpdate(obj)];
        assert t == old(fired) + step.fired;
        fired := t;
      } else {
        h := g;
        var intersectedObject := GetLargestGroup(g, cast.firstHit);
        assert intersectedObject == Target(g, cast);
        var t := fired;
        if intersectedObject.Some? && intersectedObject != hoveredObject {
          if hoveredObject.Some? {
            t := t + [OnUnhover(hoveredObject.value)];
          }
          t := t + [OnHover(intersectedObject.value)];
        } else if hoveredObject.Some? && intersectedObject.None? {
          t := t + [OnUnhover(hoveredObject.value)];
        }
        assert t == old(fired) + step.fired;
        assert step.state == old(State()).(hovered := intersectedObject);
        hoveredObject := intersectedObject;
        fired := t;
      }
    }

    /** `onMouseDown`: the pointer is down; over a hovered object a hold check is scheduled. */
    method OnMouseDown()
      requires Valid()
      modifies this
      ensures Valid()
      ensures State() == Pressed(old(State())) && fired == old(fired)
    {
      PressReleasePaired(State(), fired);
      mouseIsDown := true;
      if hoveredObject.Some? {
        pendingHolds := pendingHolds + 1;
      }
    }

    /**
     * The hold check scheduled by `onMouseDown`, when its delay has passed: if
     * an object is still hovered and the pointer still down, that object is
     * held and `onDragStart` fires. `cast` is the ray from the pointer-down
     * event's position, taken when the delay has passed; nothing ties it to
     * the cast of that pointer-down, so any ray is allowed.
     */
    method OnHoldTimer(g: Graph, cast: Raycast)
      requires Valid() && pendingHolds > 0 && Knows(g, State())
      modifies this
      ensures Valid()
      ensures State() == HoldChecked(old(State()), g, cast).state
      ensures fired == old(fired) + HoldChecked(old(State()), g, cast).fired
    {
      HoldCheckedPaired(State(), fired, g, cast);
      pendingHolds := pendingHolds - 1;
      if hoveredObject.Some? && mouseIsDown {
        var intersection := Intersection(cast, movementPlane);
        holdOffset := g.nodes[hoveredObject.value].position.Minus(intersection);
        heldObject := hoveredObject;
        fired := fired + [OnDragStart(heldObject.value)];
      }
    }

    /** `onMouseUp`: the pointer is up, and a held object is dropped with `onDragEnd`. */
    method OnMouseUp()
      requires Valid()
      modifies this
      ensures Valid()
      ensures State() == Released(old(State())).state
      ensures fired == old(fired) + Released(old(State())).fired
    {
      PressReleasePaired(State(), fired);
      mouseIsDown := false;
      if heldObject.Some? {
        fired := fired + [OnDragEnd(heldObject.value)];
        heldObject := None;
      }
    }
  }
}
