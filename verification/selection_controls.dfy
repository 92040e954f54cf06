/**
 * `SelectionControls`: a short click on an object toggles whether its
 * outermost group is in the `currentlySelected` list, announcing the change
 * through the `onSelect` and `onDeselect` callbacks; the model keeps the
 * callbacks fired so far. A press held longer than the click time is a drag,
 * not a click, and selects nothing.
 */
module Selection {
  import opened Wrappers
  import opened Lists
  import opened SceneGraph
  import opened Utils
  import opened Pointer

  /** The callbacks of the controls, each with the object it concerns. */
  datatype Callback = OnSelect(obj: NodeId) | OnDeselect(obj: NodeId)

  /** `#maxClickTime`: the longest press, in milliseconds, that still counts as a click. */
  const MaxClickTime: real := 200.0

  /**
   * `deselect(object)`: `splice(indexOf(object), 1)`. A selected object loses
   * its first occurrence; for an object that is not selected, `indexOf` gives
   * -1 and the splice drops the last element of the list.
   */
  function Deselected(selected: seq<NodeId>, obj: NodeId): (r: seq<NodeId>)
    ensures obj in selected ==> r == RemoveFirst(selected, obj)
    ensures obj !in selected ==> r == if selected == [] then [] else selected[..|selected| - 1]
  {
    SpliceOne(selected, IndexOf(selected, obj))
  }

  /**
   * A click whose outermost group is `target`: a selected target is
   * deselected, any other is selected. Returns the new list and the callback
   * fired.
   */
  function Clicked(selected: seq<NodeId>, target: NodeId): (seq<NodeId>, Callback) {
    if IndexOf(selected, target) != -1 then
      (Deselected(selected, target), OnDeselect(target))
    else
      (selected + [target], OnSelect(target))
  }

  /**
   * A click toggles membership of the target and of nothing else, and keeps
   * a list without duplicates without duplicates; the callback says which
   * way the target went.
   */
  lemma ClickToggles(selected: seq<NodeId>, target: NodeId)
    requires NoDups(selected)
    ensures NoDups(Clicked(selected, target).0)
    ensures target in Clicked(selected, target).0 <==> target !in selected
    ensures forall x :: x != target ==> (x in Clicked(selected, target).0 <==> x in selected)
    ensures Clicked(selected, target).1 == if target in selected then OnDeselect(target) else OnSelect(target)
  {
    if target in selected {
      RemoveFirstNoDups(selected, target);
    } else {
      var r := selected + [target];
      forall i, j | 0 <= i < j < |r|
        ensures r[i] != r[j]
      {
        if j == |selected| {
          assert r[i] == selected[i];
        }
      }
    }
  }

  /**
   * Clicking the same object twice gives back the list it started from, with
   * one `onSelect` and then one `onDeselect`, when it was not selected; when
   * it was, it ends up last.
   */
  lemma ClickTwice(selected: seq<NodeId>, target: NodeId)
    requires NoDups(selected)
    ensures target !in selected ==> Clicked(Clicked(selected, target).0, target).0 == selected
    ensures target !in selected ==>
      [Clicked(selected, target).1, Clicked(Clicked(selected, target).0, target).1] == [OnSelect(target), OnDeselect(target)]
    ensures target in selected ==>
      Clicked(Clicked(selected, target).0, target).0 == RemoveFirst(selected, target) + [target]
  {
    ClickToggles(selected, target);
    if target !in selected {
      var once := selected + [target];
      var i := IndexOf(once, target);
      assert once[|selected|] == target;
      assert forall k :: 0 <= k < |selected| ==> once[k] == selected[k] != target;
      assert once[..i] + once[i + 1..] == selected;
    }
  }

  class SelectionControls {
    var currentlySelected: seq<NodeId>
    var mouseDownTime: real
    var fired: seq<Callback>

    /** New controls: nothing selected, no press recorded, no callbacks yet. */
    constructor()
      ensures currentlySelected == [] && mouseDownTime == 0.0 && fired == []
    {
      currentlySelected := [];
      mouseDownTime := 0.0;
      fired := [];
    }

    /** `onMouseDown`: the time of the press is recorded. */
    method OnMouseDown(timeStamp: real)
      modifies this
      ensures mouseDownTime == timeStamp
      ensures currentlySelected == old(currentlySelected) && fired == old(fired)
    {
      mouseDownTime := timeStamp;
    }

    /**
     * `onMouseUp`: a release within the click time of the press toggles the
     * outermost group of the first object under the pointer; a longer press,
     * or a click on nothing, changes nothing. A list without duplicates stays
     * without duplicates.
     */
    method OnMouseUp(timeStamp: real, g: Graph, cast: Raycast)
      requires Wf(g) && HitsIn(g, cast)
      modifies this
      ensures mouseDownTime == old(mouseDownTime)
      ensures timeStamp - mouseDownTime > MaxClickTime || cast.firstHit.None? ==>
        currentlySelected == old(currentlySelected) && fired == old(fired)
      ensures timeStamp - mouseDownTime <= MaxClickTime && cast.firstHit.Some? ==>
        var c := Clicked(old(currentlySelected), Target(g, cast).value);
        currentlySelected == c.0 && fired == old(fired) + [c.1]
      ensures NoDups(old(currentlySelected)) ==> NoDups(currentlySelected)
    {
      if timeStamp - mouseDownTime <= MaxClickTime {
        var intersectedObject: Option<NodeId> := None;
        if cast.firstHit.Some? {
          intersectedObject := GetLargestGroup(g, cast.firstHit);
        }
        if intersectedObject.Some? {
          var target := intersectedObject.value;
          if NoDups(currentlySelected) {
            ClickToggles(currentlySelected, target);
          }
          var index := IndexOf(currentlySelected, target);
          if index != -1 {
            Deselect(target);
          } else {
            Select(target);
          }
        }
      }
    }

    /** `select(object)`: the object is appended and `onSelect` fires. */
    method Select(obj: NodeId)
      modifies this
      ensures currentlySelected == old(currentlySelected) + [obj]
      ensures fired == old(fired) + [OnSelect(obj)]
      ensures mouseDownTime == old(mouseDownTime)
    {
      currentlySelected := currentlySelected + [obj];
      fired := fired + [OnSelect(obj)];
    }

    /** `deselect(object)`: the object is spliced out at its index, and `onDeselect` fires. */
    method Deselect(obj: NodeId)
      modifies this
      ensures currentlySelected == Deselected(old(currentlySelected), obj)
      ensures fired == old(fired) + [OnDeselect(obj)]
      ensures mouseDownTime == old(mouseDownTime)
    {
      currentlySelected := SpliceOne(currentlySelected, IndexOf(currentlySelected, obj));
      fired := fired + [OnDeselect(obj)];
    }
  }
}
