/**
 * The older helper file of the demo: removing the leaves of a subtree from
 * the list of draggable objects, and deciding whether the unbundle button
 * shows. Its `getLargestGroup` and `setEmissiveAllChildren` are the same code
 * as in the newer helpers and are modelled there once.
 */
module EarlyUtils {
  import opened Lists
  import opened SceneGraph
  import opened Utils

  /**
   * `removeObjects(object, scene, draggableList)`: every childless object of
   * the subtree, in pre-order, loses its first occurrence in the list, if it
   * has one; objects with children stay.
   */
  method RemoveObjects(g: Graph, obj: NodeId, draggableList: seq<NodeId>) returns (list': seq<NodeId>)
    requires Wf(g) && obj in g.nodes
    ensures list' == RemoveEach<NodeId>(draggableList, Leaves(g, Preorder(g, obj)))
    decreases obj
  {
    var children := g.nodes[obj].children;
    if |children| > 0 {
      list' := draggableList;
      for i := 0 to |children|
        invariant list' == RemoveEach<NodeId>(draggableList, Leaves(g, ChildrenPreorder(g, obj, i)))
      {
        ChildBelow(g, obj, i);
        var rest := RemoveObjects(g, children[i], list');
        RemoveLeavesStep(g, obj, i, draggableList, list', rest);
        list' := rest;
      }
      InnerLeaves(g, obj, draggableList, list');
    } else {
      var objectIndex := IndexOf(draggableList, obj);
      list' := draggableList;
      if objectIndex >= 0 {
        list' := draggableList[..objectIndex] + draggableList[objectIndex + 1..];
      }
      LeafLeaves(g, obj, draggableList, list');
    }
  }

  /** When no childless object of the subtree is in the list, removing them leaves the list as it was. */
  lemma NoLeafLeavesList(g: Graph, obj: NodeId, draggableList: seq<NodeId>)
    requires Wf(g) && obj in g.nodes
    requires forall x :: x in draggableList ==> !(IsLeaf(g, x) && IsAncestorOrSelf(g, obj, x))
    ensures RemoveEach<NodeId>(draggableList, Leaves(g, Preorder(g, obj))) == draggableList
  {
    var p := Preorder(g, obj);
    forall x | x in Leaves(g, p)
      ensures x !in draggableList
    {
      LeavesMembers(g, p, x);
      PreorderMembers(g, obj, x);
    }
    RemoveEachAbsent<NodeId>(draggableList, Leaves(g, p));
  }

  /**
   * `shouldUnbundleButtonShow(currentlySelected, unbundleButton)`: the
   * button's display style, `"block"` exactly when some selected object is a
   * group and `"none"` otherwise.
   */
  method ShouldUnbundleButtonShow(g: Graph, currentlySelected: seq<NodeId>) returns (display: string)
    requires forall i :: 0 <= i < |currentlySelected| ==> currentlySelected[i] in g.nodes
    ensures display == "block" || display == "none"
    ensures display == "block" <==>
      exists i :: 0 <= i < |currentlySelected| && g.nodes[currentlySelected[i]].kind == Group
  {
    for i := 0 to |currentlySelected|
      invariant forall j :: 0 <= j < i ==> g.nodes[currentlySelected[j]].kind != Group
    {
      if g.nodes[currentlySelected[i]].kind == Group {
        return "block";
      }
    }
    return "none";
  }
}
