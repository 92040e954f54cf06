/**
 * What `bundle.attach(c)` for a list of objects, followed by `scene.add(bundle)`,
 * does to the scene graph as a whole (source/js/BundleUtils.js, lines 84-89):
 * the attached objects hang under the bundle, every object keeps its world
 * position, and an object is attached to the scene afterwards exactly when
 * it was before or it now hangs under the bundle.
 */
module BundleGraph {
  import opened Geometry
  import opened Lists
  import opened SceneGraph

  /** Some object of `cs` is `x` or one of its ancestors. */
  predicate UnderSome(g: Graph, cs: seq<NodeId>, x: NodeId)
    requires Wf(g) && x in g.nodes
  {
    exists i :: 0 <= i < |cs| && IsAncestorOrSelf(g, cs[i], x)
  }

  /** `x` lies under one of `cs` when it is one of them or its parent lies under one. */
  lemma UnderSomeStep(g: Graph, cs: seq<NodeId>, x: NodeId)
    requires Wf(g) && x in g.nodes
    ensures UnderSome(g, cs, x) <==>
      x in cs || (g.nodes[x].parent.ParentNode? && UnderSome(g, cs, g.nodes[x].parent.id))
  {
    assert NodeWf(g, x);
    if UnderSome(g, cs, x) && x !in cs {
      var i :| 0 <= i < |cs| && IsAncestorOrSelf(g, cs[i], x);
      assert IsAncestorOrSelf(g, cs[i], g.nodes[x].parent.id);
    }
    if x in cs {
      var i :| 0 <= i < |cs| && cs[i] == x;
      assert IsAncestorOrSelf(g, cs[i], x);
    }
    if g.nodes[x].parent.ParentNode? && UnderSome(g, cs, g.nodes[x].parent.id) {
      var i :| 0 <= i < |cs| && IsAncestorOrSelf(g, cs[i], g.nodes[x].parent.id);
      assert IsAncestorOrSelf(g, cs[i], x);
    }
  }

  /**
   * `h` is `g` after `b.attach(c)` for every `c` of `moved`, and perhaps a move
   * of `b` itself between the scene and no parent: the moved objects hang
   * under `b`, at positions that keep their world positions; `b` keeps its
   * own position; child lists only lose elements, except `b`'s; and nothing
   * else changes.
   */
  ghost predicate Regrouped(g: Graph, h: Graph, b: NodeId, moved: seq<NodeId>)
    requires Wf(g) && Wf(h)
  {
    && h.nextId == g.nextId && h.nodes.Keys == g.nodes.Keys
    && b in g.nodes && !g.nodes[b].parent.ParentNode? && !h.nodes[b].parent.ParentNode?
    && h.nodes[b] == g.nodes[b].(parent := h.nodes[b].parent, children := h.nodes[b].children)
    && (forall y :: y in moved ==> y in g.nodes && y < b)
    && (forall x :: x in g.nodes && x != b ==> MovedUnder(g, h, b, moved, x))
  }

  /** The part of `Regrouped` about one object other than `b`. */
  ghost predicate MovedUnder(g: Graph, h: Graph, b: NodeId, moved: seq<NodeId>, x: NodeId)
    requires Wf(g) && b in g.nodes && x in g.nodes && x in h.nodes
  {
    var n := h.nodes[x];
    && n.parent == (if x in moved then ParentNode(b) else g.nodes[x].parent)
    && n.position == (if x in moved then WorldPosition(g, x).Minus(WorldPosition(g, b)) else g.nodes[x].position)
    && n == g.nodes[x].(parent := n.parent, position := n.position, children := n.children)
    && (forall y :: y in n.children ==> y in g.nodes[x].children)
  }

  /** Nothing attached yet. */
  lemma RegroupedStart(g: Graph, b: NodeId)
    requires Wf(g) && b in g.nodes && !g.nodes[b].parent.ParentNode?
    ensures Regrouped(g, g, b, [])
  {
    forall x | x in g.nodes && x != b
      ensures MovedUnder(g, g, b, [], x)
    {
    }
  }

  /** Regrouping keeps every world position. */
  lemma {:induction false} RegroupedWorld(g: Graph, h: Graph, b: NodeId, moved: seq<NodeId>, x: NodeId)
    requires Wf(g) && Wf(h) && Regrouped(g, h, b, moved) && x in g.nodes
    ensures WorldPosition(h, x) == WorldPosition(g, x)
    decreases g.nextId - x
  {
    if x != b {
      assert MovedUnder(g, h, b, moved, x);
      assert NodeWf(g, x);
      if x in moved {
        assert x < b;
        assert NodeWf(g, b);
        RegroupedWorld(g, h, b, moved, b);
      } else if g.nodes[x].parent.ParentNode? {
        RegroupedWorld(g, h, b, moved, g.nodes[x].parent.id);
      }
    }
  }

  /**
   * After regrouping, an object hanging under `b` or under a moved object is
   * attached exactly when `b` is; any other object as it was.
   */
  lemma {:induction false} RegroupedAttached(g: Graph, h: Graph, b: NodeId, moved: seq<NodeId>, x: NodeId)
    requires Wf(g) && Wf(h) && Regrouped(g, h, b, moved) && x in g.nodes
    ensures Attached(h, x) ==
      if IsAncestorOrSelf(g, b, x) || UnderSome(g, moved, x) then Attached(h, b) else Attached(g, x)
    decreases g.nextId - x
  {
    if x != b {
      assert MovedUnder(g, h, b, moved, x);
      assert NodeWf(g, x);
      if x in moved {
        var i :| 0 <= i < |moved| && moved[i] == x;
        assert IsAncestorOrSelf(g, moved[i], x);
      } else if g.nodes[x].parent.ParentNode? {
        var p := g.nodes[x].parent.id;
        RegroupedAttached(g, h, b, moved, p);
        if UnderSome(g, moved, x) {
          var i :| 0 <= i < |moved| && IsAncestorOrSelf(g, moved[i], x);
          assert moved[i] != x by { assert moved[i] in moved; }
          assert IsAncestorOrSelf(g, moved[i], p);
        }
        if UnderSome(g, moved, p) {
          var i :| 0 <= i < |moved| && IsAncestorOrSelf(g, moved[i], p);
          assert IsAncestorOrSelf(g, moved[i], x);
        }
      } else {
        forall i | 0 <= i < |moved|
          ensures !IsAncestorOrSelf(g, moved[i], x)
        {
          assert moved[i] in moved;
        }
      }
    }
  }

  /** One more `b.attach(c)`. */
  lemma RegroupStep(g: Graph, h: Graph, b: NodeId, moved: seq<NodeId>, c: NodeId)
    requires Wf(g) && Wf(h) && Regrouped(g, h, b, moved) && c in g.nodes && c < b
    ensures Wf(Attach(h, b, c)) && Regrouped(g, Attach(h, b, c), b, moved + [c])
    ensures Attach(h, b, c).nodes[b].parent == h.nodes[b].parent
    ensures c !in moved && g.nodes[c].parent != ParentNode(b) ==>
      Attach(h, b, c).nodes[b].children == h.nodes[b].children + [c]
  {
    var h' := Attach(h, b, c);
    AttachWf(h, b, c);
    AttachAt(h, b, c, b);
    assert MovedUnder(g, h, b, moved, c);
    forall x | x in g.nodes && x != b
      ensures MovedUnder(g, h', b, moved + [c], x)
    {
      RegroupStepAt(g, h, b, moved, c, x);
    }
  }

  lemma RegroupStepAt(g: Graph, h: Graph, b: NodeId, moved: seq<NodeId>, c: NodeId, x: NodeId)
    requires Wf(g) && Wf(h) && Regrouped(g, h, b, moved) && c in g.nodes && c < b
    requires x in g.nodes && x != b
    ensures Wf(Attach(h, b, c)) && MovedUnder(g, Attach(h, b, c), b, moved + [c], x)
  {
    var h' := Attach(h, b, c);
    AttachWf(h, b, c);
    assert MovedUnder(g, h, b, moved, x);
    AttachAt(h, b, c, x);
    if x == c {
      RegroupedWorld(g, h, b, moved, c);
      RegroupedWorld(g, h, b, moved, b);
    }
    forall y | y in h'.nodes[x].children
      ensures y in g.nodes[x].children
    {
      if h.nodes[c].parent == ParentNode(x) {
        RemoveFirstSubset(h.nodes[x].children, c, y);
      }
    }
  }

  /** `scene.add(b)` once the objects are attached to `b`, which had no parent. */
  lemma RegroupAddToScene(g: Graph, h: Graph, b: NodeId, moved: seq<NodeId>)
    requires Wf(g) && Wf(h) && Regrouped(g, h, b, moved) && h.nodes[b].parent == Detached
    ensures Wf(AddToScene(h, b)) && Regrouped(g, AddToScene(h, b), b, moved)
    ensures AddToScene(h, b).nodes[b] == h.nodes[b].(parent := InScene)
  {
    var h' := AddToScene(h, b);
    AddToSceneWf(h, b);
    AddToSceneAt(h, b, b);
    forall x | x in g.nodes && x != b
      ensures MovedUnder(g, h', b, moved, x)
    {
      assert MovedUnder(g, h, b, moved, x);
      AddToSceneAt(h, b, x);
    }
  }
}
