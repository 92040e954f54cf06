/**
 * The older selection controls: the same click toggle, written inline in the
 * pointer-up handler, with no separate `select` and `deselect`.
 */
module EarlySelection {
  import opened Wrappers
  import opened Lists
  import opened SceneGraph
  import opened Utils
  import opened Pointer
  import opened Selection

  class SelectionControls {
    var currentlySelected: seq<NodeId>
    var mouseDownTime: real
    var fired: seq<Callback>

    /** New controls: nothing selected, no press recorded, no callbacks yet. */
    constructor()
      ensures currentlySelected == [] && mouseDownTime == 0.0 && fired == []
    {
      currentlySelected := [];
      mouseDownTime := 0.0;
      fired := [];
    }

    /** `onMouseDown`: the time of the press is recorded. */
    method OnMouseDown(timeStamp: real)
      modifies this
      ensures mouseDownTime == timeStamp
      ensures currentlySelected == old(currentlySelected) && fired == old(fired)
    {
      mouseDownTime := timeStamp;
    }

    /**
     * `onMouseUp`: a release within the click time of the press removes the
     * outermost group under the pointer at the index where it is found, or
     * appends it when it is not selected; a longer press, or a click on
     * nothing, changes nothing. A list without duplicates stays without
     * duplicates.
     */
    method OnMouseUp(timeStamp: real, g: Graph, cast: Raycast)
      requires Wf(g) && HitsIn(g, cast)
      modifies this
      ensures mouseDownTime == old(mouseDownTime)
      ensures timeStamp - mouseDownTime > MaxClickTime || cast.firstHit.None? ==>
        currentlySelected == old(currentlySelected) && fired == old(fired)
      ensures timeStamp - mouseDownTime <= MaxClickTime && cast.firstHit.Some? ==>
        var c := Clicked(old(currentlySelected), Target(g, cast).value);
        currentlySelected == c.0 && fired == old(fired) + [c.1]
      ensures NoDups(old(currentlySelected)) ==> NoDups(currentlySelected)
    {
      if timeStamp - mouseDownTime <= MaxClickTime {
        var intersectedObject: Option<NodeId> := None;
        if cast.firstHit.Some? {
          intersectedObject := GetLargestGroup(g, cast.firstHit);
        }
        if intersectedObject.Some? {
          var target := intersectedObject.value;
          if NoDups(currentlySelected) {
            ClickToggles(currentlySelected, target);
          }
          var index := IndexOf(currentlySelected, target);
          if index != -1 {
            currentlySelected := SpliceOne(currentlySelected, index);
            fired := fired + [OnDeselect(target)];
          } else {
            currentlySelected := currentlySelected + [target];
            fired := fired + [OnSelect(target)];
          }
        }
      }
    }
  }
}
