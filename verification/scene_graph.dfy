/**
 * The three.js scene as the demo uses it: a forest of objects hanging off the
 * scene, each with a parent, an ordered list of children, a `type` tag, a
 * geometry, a material and a position relative to its parent. Objects are
 * named by ids; the map from ids to objects plays the role of the heap, so
 * every object stays reachable by its id after it leaves the scene, as a
 * JavaScript object does while something refers to it.
 *
 * Groups are never rotated or scaled in the demo, so a world position is the
 * sum of the positions along the parent chain, and `attach` keeps an object's
 * world position by subtracting its new parent's.
 *
 * Ids are allocated in increasing order and a parent always has a larger id
 * than its children (the ring of a bundle is allocated just before the
 * bundle), which makes every walk up or down the tree terminate.
 */
module SceneGraph {
  import opened Wrappers
  import opened Geometry
  import opened Lists

  type NodeId = nat

  /** The three.js `type` tag of an object. */
  datatype Kind = Mesh | Group | Object3D

  /** `geometry.type`: the stick cylinders, the ring around a bundle, or none (a group). */
  datatype Shape = Cylinder | Torus | NoGeometry

  /** A material with its colour, and its `emissive` colour when it has one (Lambert yes, Basic no). */
  datatype Material = NoMaterial | Material(colour: int, emissive: Option<int>)

  /** `object.parent`: none, the scene itself, or another object. */
  datatype Parent = Detached | InScene | ParentNode(id: NodeId)

  datatype Node = Node(
    kind: Kind,
    shape: Shape,
    parent: Parent,
    children: seq<NodeId>,
    order: int,           // 0 for a stick, one more than its members for a bundle
    radius: real,
    position: Vec3,       // relative to the parent
    desired: Option<Vec3>, // `desiredPosition`, where the animation moves the object
    material: Material)

  datatype Graph = Graph(nodes: map<NodeId, Node>, nextId: nat)

  predicate ChildOk(g: Graph, n: NodeId, c: NodeId) {
    c in g.nodes && c < n && g.nodes[c].parent == ParentNode(n)
  }

  /** The parent and child links of `n` agree with those of its neighbours. */
  predicate NodeWf(g: Graph, n: NodeId)
    requires n in g.nodes
  {
    var node := g.nodes[n];
    && n < g.nextId
    && (node.parent.ParentNode? ==>
          node.parent.id in g.nodes && n < node.parent.id && n in g.nodes[node.parent.id].children)
    && (forall i :: 0 <= i < |node.children| ==> ChildOk(g, n, node.children[i]))
    && NoDups(node.children)
  }

  predicate Wf(g: Graph) {
    forall n :: n in g.nodes ==> NodeWf(g, n)
  }

  /** `IsAncestorOrSelf(g, a, x)`: `a` is `x` or one of the objects on its parent chain. */
  predicate IsAncestorOrSelf(g: Graph, a: NodeId, x: NodeId)
    requires Wf(g) && x in g.nodes
    decreases g.nextId - x
  {
    x == a ||
    (g.nodes[x].parent.ParentNode? && IsAncestorOrSelf(g, a, g.nodes[x].parent.id))
  }

  /** An ancestor has an id at least as large as its descendants, and is an object of the scene graph. */
  lemma {:induction false} AncestorBound(g: Graph, a: NodeId, x: NodeId)
    requires Wf(g) && x in g.nodes && IsAncestorOrSelf(g, a, x)
    ensures x <= a && a in g.nodes
    decreases g.nextId - x
  {
    if x != a {
      AncestorBound(g, a, g.nodes[x].parent.id);
    }
  }

  /** Ancestry is transitive. */
  lemma {:induction false} AncestorTrans(g: Graph, a: NodeId, b: NodeId, x: NodeId)
    requires Wf(g) && x in g.nodes && b in g.nodes
    requires IsAncestorOrSelf(g, a, b) && IsAncestorOrSelf(g, b, x)
    ensures IsAncestorOrSelf(g, a, x)
    decreases g.nextId - x
  {
    if x != b {
      AncestorTrans(g, a, b, g.nodes[x].parent.id);
    }
  }

  /** The object's world position: its own position plus those of all its ancestors. */
  function WorldPosition(g: Graph, x: NodeId): Vec3
    requires Wf(g) && x in g.nodes
    decreases g.nextId - x
  {
    match g.nodes[x].parent
    case ParentNode(p) => WorldPosition(g, p).Plus(g.nodes[x].position)
    case _ => g.nodes[x].position
  }

  /** Whether the object hangs, through its parent chain, off the scene. */
  predicate Attached(g: Graph, x: NodeId)
    requires Wf(g) && x in g.nodes
    decreases g.nextId - x
  {
    match g.nodes[x].parent
    case ParentNode(p) => Attached(g, p)
    case InScene => true
    case Detached => false
  }

  /** Two graphs with the same objects and the same parent and child links. */
  predicate SameStructure(g: Graph, h: Graph) {
    && g.nextId == h.nextId
    && g.nodes.Keys == h.nodes.Keys
    && forall n :: n in g.nodes ==>
         h.nodes[n].parent == g.nodes[n].parent && h.nodes[n].children == g.nodes[n].children
  }

  /** Changing anything but the links keeps the graph well formed and every ancestor relation. */
  lemma SameStructureWf(g: Graph, h: Graph)
    requires Wf(g) && SameStructure(g, h)
    ensures Wf(h)
  {
    forall n | n in h.nodes
      ensures NodeWf(h, n)
    {
      assert NodeWf(g, n);
      var node := h.nodes[n];
      forall i | 0 <= i < |node.children|
        ensures ChildOk(h, n, node.children[i])
      {
        assert ChildOk(g, n, g.nodes[n].children[i]);
      }
    }
  }

  lemma {:induction false} SameStructureAncestor(g: Graph, h: Graph, a: NodeId, x: NodeId)
    requires Wf(g) && SameStructure(g, h) && x in g.nodes
    ensures Wf(h) && (IsAncestorOrSelf(h, a, x) <==> IsAncestorOrSelf(g, a, x))
    decreases g.nextId - x
  {
    SameStructureWf(g, h);
    if x != a && g.nodes[x].parent.ParentNode? {
      SameStructureAncestor(g, h, a, g.nodes[x].parent.id);
    }
  }

  /** A fresh object, allocated with the next id and not yet in the scene. */
  function Allocate(g: Graph, node: Node): (r: (Graph, NodeId))
    requires node.parent == Detached && node.children == []
    ensures r.1 == g.nextId && r.0.nextId == g.nextId + 1
    ensures r.0.nodes == g.nodes[r.1 := node]
  {
    (Graph(g.nodes[g.nextId := node], g.nextId + 1), g.nextId)
  }

  lemma AllocateWf(g: Graph, node: Node)
    requires Wf(g) && node.parent == Detached && node.children == []
    ensures Wf(Allocate(g, node).0)
    ensures forall x :: x in g.nodes ==> Allocate(g, node).0.nodes[x] == g.nodes[x]
  {
    var (h, id) := Allocate(g, node);
    forall n | n in h.nodes
      ensures NodeWf(h, n)
    {
      if n != id {
        assert NodeWf(g, n);
        var ch := g.nodes[n].children;
        forall i | 0 <= i < |ch|
          ensures ChildOk(h, n, ch[i])
        {
          assert ChildOk(g, n, ch[i]);
        }
      }
    }
  }

  /** Sets one field of one object: the position relative to its parent. */
  function SetPosition(g: Graph, x: NodeId, v: Vec3): (h: Graph)
    requires x in g.nodes
    ensures SameStructure(g, h)
  {
    g.(nodes := g.nodes[x := g.nodes[x].(position := v)])
  }

  /** Sets the `desiredPosition` of one object. */
  function SetDesired(g: Graph, x: NodeId, v: Vec3): (h: Graph)
    requires x in g.nodes
    ensures SameStructure(g, h)
  {
    g.(nodes := g.nodes[x := g.nodes[x].(desired := Some(v))])
  }

  /** `object.removeFromParent()`: the object leaves its parent's children and has no parent. */
  function Detach(g: Graph, c: NodeId): (h: Graph)
    requires Wf(g) && c in g.nodes
    ensures h.nextId == g.nextId && h.nodes.Keys == g.nodes.Keys
    ensures h.nodes[c].parent == Detached
  {
    match g.nodes[c].parent
    case ParentNode(p) =>
      var pn := g.nodes[p];
      var g1 := g.(nodes := g.nodes[p := pn.(children := RemoveFirst(pn.children, c))]);
      g1.(nodes := g1.nodes[c := g1.nodes[c].(parent := Detached)])
    case _ =>
      g.(nodes := g.nodes[c := g.nodes[c].(parent := Detached)])
  }

  /** What `Detach` changes: the object's parent link, and the child list of its old parent. */
  lemma DetachFrame(g: Graph, c: NodeId)
    requires Wf(g) && c in g.nodes
    ensures forall x :: x in g.nodes && x != c ==> Detach(g, c).nodes[x].parent == g.nodes[x].parent
    ensures forall x :: x in g.nodes ==>
      Detach(g, c).nodes[x].children ==
        (if g.nodes[c].parent == ParentNode(x) then RemoveFirst(g.nodes[x].children, c) else g.nodes[x].children)
    ensures forall x :: x in g.nodes ==>
      Detach(g, c).nodes[x] == g.nodes[x].(parent := Detach(g, c).nodes[x].parent, children := Detach(g, c).nodes[x].children)
  {
    forall x | x in g.nodes {
      DetachAt(g, c, x);
    }
  }

  lemma DetachAt(g: Graph, c: NodeId, x: NodeId)
    requires Wf(g) && c in g.nodes && x in g.nodes
    ensures x != c ==> Detach(g, c).nodes[x].parent == g.nodes[x].parent
    ensures Detach(g, c).nodes[x].children ==
      (if g.nodes[c].parent == ParentNode(x) then RemoveFirst(g.nodes[x].children, c) else g.nodes[x].children)
    ensures Detach(g, c).nodes[x] ==
      g.nodes[x].(parent := Detach(g, c).nodes[x].parent, children := Detach(g, c).nodes[x].children)
  {
    assert NodeWf(g, c);
    if g.nodes[c].parent.ParentNode? {
      assert x == g.nodes[c].parent.id || g.nodes[c].parent != ParentNode(x);
    }
  }

  lemma DetachWf(g: Graph, c: NodeId)
    requires Wf(g) && c in g.nodes
    ensures Wf(Detach(g, c))
  {
    DetachFrame(g, c);
    forall n | n in g.nodes
      ensures NodeWf(Detach(g, c), n)
    {
      DetachNodeWf(g, c, n);
    }
  }

  lemma DetachNodeWf(g: Graph, c: NodeId, n: NodeId)
    requires Wf(g) && c in g.nodes && n in g.nodes
    ensures NodeWf(Detach(g, c), n)
  {
    DetachFrame(g, c);
    var h := Detach(g, c);
    assert NodeWf(g, c) && NodeWf(g, n);
    var ch := h.nodes[n].children;
    if g.nodes[c].parent == ParentNode(n) {
      RemoveFirstNoDups(g.nodes[n].children, c);
      forall i | 0 <= i < |ch|
        ensures ChildOk(h, n, ch[i])
      {
        assert ch[i] in g.nodes[n].children;
        var k :| 0 <= k < |g.nodes[n].children| && g.nodes[n].children[k] == ch[i];
        assert ChildOk(g, n, g.nodes[n].children[k]);
      }
    } else {
      forall i | 0 <= i < |ch|
        ensures ChildOk(h, n, ch[i])
      {
        assert ChildOk(g, n, g.nodes[n].children[i]);
      }
    }
    var par := h.nodes[n].parent;
    if par.ParentNode? && g.nodes[c].parent == par {
      RemoveFirstNoDups(g.nodes[par.id].children, c);
    }
  }

  /** `parent.add(child)` for a child with no parent: it becomes the last child. */
  function Adopt(g: Graph, b: NodeId, c: NodeId): (h: Graph)
    requires b in g.nodes && c in g.nodes
  {
    var g1 := g.(nodes := g.nodes[c := g.nodes[c].(parent := ParentNode(b))]);
    g1.(nodes := g1.nodes[b := g1.nodes[b].(children := g1.nodes[b].children + [c])])
  }

  lemma AdoptWf(g: Graph, b: NodeId, c: NodeId)
    requires Wf(g) && b in g.nodes && c in g.nodes && c < b && g.nodes[c].parent == Detached
    ensures Wf(Adopt(g, b, c))
  {
    var h := Adopt(g, b, c);
    assert NodeWf(g, c) && NodeWf(g, b);
    assert c !in g.nodes[b].children;
    forall n | n in h.nodes
      ensures NodeWf(h, n)
    {
      assert NodeWf(g, n);
      var ch := h.nodes[n].children;
      forall i | 0 <= i < |ch|
        ensures ChildOk(h, n, ch[i])
      {
        if !(n == b && i == |ch| - 1) {
          assert ChildOk(g, n, g.nodes[n].children[i]);
        }
      }
    }
  }

  /**
   * `parent.attach(child)`: the child moves to the end of the parent's children
   * and keeps its world position.
   */
  function Attach(g: Graph, b: NodeId, c: NodeId): (h: Graph)
    requires Wf(g) && b in g.nodes && c in g.nodes && c < b
    ensures h.nextId == g.nextId && h.nodes.Keys == g.nodes.Keys
  {
    var w := WorldPosition(g, c).Minus(WorldPosition(g, b));
    DetachWf(g, c);
    SetPosition(Adopt(Detach(g, c), b, c), c, w)
  }

  lemma AttachWf(g: Graph, b: NodeId, c: NodeId)
    requires Wf(g) && b in g.nodes && c in g.nodes && c < b
    ensures Wf(Attach(g, b, c))
  {
    DetachWf(g, c);
    AdoptWf(Detach(g, c), b, c);
    var w := WorldPosition(g, c).Minus(WorldPosition(g, b));
    SameStructureWf(Adopt(Detach(g, c), b, c), Attach(g, b, c));
  }

  /** `scene.add(object)`: the object leaves its old parent and hangs off the scene. */
  function AddToScene(g: Graph, c: NodeId): (h: Graph)
    requires Wf(g) && c in g.nodes
    ensures h.nextId == g.nextId && h.nodes.Keys == g.nodes.Keys
  {
    var g1 := Detach(g, c);
    g1.(nodes := g1.nodes[c := g1.nodes[c].(parent := InScene)])
  }

  lemma AddToSceneWf(g: Graph, c: NodeId)
    requires Wf(g) && c in g.nodes
    ensures Wf(AddToScene(g, c))
  {
    DetachWf(g, c);
    var g1 := Detach(g, c);
    var h := AddToScene(g, c);
    forall n | n in h.nodes
      ensures NodeWf(h, n)
    {
      assert NodeWf(g1, n);
      var ch := h.nodes[n].children;
      forall i | 0 <= i < |ch|
        ensures ChildOk(h, n, ch[i])
      {
        assert ChildOk(g1, n, ch[i]);
      }
    }
  }

  /** `scene.remove(object)`: only an object hanging directly off the scene leaves it. */
  function RemoveFromScene(g: Graph, c: NodeId): (h: Graph)
    requires c in g.nodes
    ensures h.nextId == g.nextId && h.nodes.Keys == g.nodes.Keys
    ensures g.nodes[c].parent == InScene ==> h.nodes[c].parent == Detached
    ensures g.nodes[c].parent != InScene ==> h == g
    ensures forall x :: x in g.nodes && x != c ==> h.nodes[x] == g.nodes[x]
  {
    if g.nodes[c].parent == InScene then g.(nodes := g.nodes[c := g.nodes[c].(parent := Detached)]) else g
  }

  lemma RemoveFromSceneWf(g: Graph, c: NodeId)
    requires Wf(g) && c in g.nodes
    ensures Wf(RemoveFromScene(g, c))
  {
    var h := RemoveFromScene(g, c);
    forall n | n in h.nodes
      ensures NodeWf(h, n)
    {
      assert NodeWf(g, n);
      var ch := h.nodes[n].children;
      forall i | 0 <= i < |ch|
        ensures ChildOk(h, n, ch[i])
      {
        assert ChildOk(g, n, ch[i]);
      }
    }
  }

  // ---------------------------------------------------------------------------
  // World positions and attachment across the operations
  // ---------------------------------------------------------------------------

  /** An object whose parent chain and positions along it are unchanged keeps its world position and attachment. */
  lemma {:induction false} ChainSame(g: Graph, h: Graph, x: NodeId)
    requires Wf(g) && Wf(h) && x in g.nodes && x in h.nodes
    requires forall y :: y in g.nodes && IsAncestorOrSelf(g, y, x) ==>
      y in h.nodes && h.nodes[y].parent == g.nodes[y].parent && h.nodes[y].position == g.nodes[y].position
    ensures Attached(h, x) == Attached(g, x)
    ensures WorldPosition(h, x) == WorldPosition(g, x)
    decreases g.nextId - x
  {
    assert IsAncestorOrSelf(g, x, x);
    assert NodeWf(g, x);
    if g.nodes[x].parent.ParentNode? {
      var p := g.nodes[x].parent.id;
      assert NodeWf(g, p);
      forall y | y in g.nodes && IsAncestorOrSelf(g, y, p)
        ensures IsAncestorOrSelf(g, y, x)
      {
      }
      ChainSame(g, h, p);
    }
  }

  /** Allocating an object changes no existing object's world position or attachment. */
  lemma AllocateChain(g: Graph, node: Node, x: NodeId)
    requires Wf(g) && node.parent == Detached && node.children == [] && x in g.nodes
    ensures Wf(Allocate(g, node).0)
    ensures Attached(Allocate(g, node).0, x) == Attached(g, x)
    ensures WorldPosition(Allocate(g, node).0, x) == WorldPosition(g, x)
  {
    AllocateWf(g, node);
    forall y | y in g.nodes && IsAncestorOrSelf(g, y, x)
      ensures Allocate(g, node).0.nodes[y] == g.nodes[y]
    {
    }
    ChainSame(g, Allocate(g, node).0, x);
  }

  /** What `Attach` changes: the child's parent and position, and the child lists of its old and new parents. */
  lemma AttachAt(g: Graph, b: NodeId, c: NodeId, x: NodeId)
    requires Wf(g) && b in g.nodes && c in g.nodes && c < b && x in g.nodes
    ensures x != c ==> Attach(g, b, c).nodes[x].parent == g.nodes[x].parent
    ensures x != c ==> Attach(g, b, c).nodes[x].position == g.nodes[x].position
    ensures Attach(g, b, c).nodes[c].parent == ParentNode(b)
    ensures Attach(g, b, c).nodes[c].position == WorldPosition(g, c).Minus(WorldPosition(g, b))
    ensures var rest := if g.nodes[c].parent == ParentNode(x) then RemoveFirst(g.nodes[x].children, c) else g.nodes[x].children;
      Attach(g, b, c).nodes[x].children == if x == b then rest + [c] else rest
    ensures var n := Attach(g, b, c).nodes[x];
      n == g.nodes[x].(parent := n.parent, children := n.children, position := n.position)
  {
    DetachAt(g, c, x);
    DetachAt(g, c, b);
  }

  /** Objects outside the moved subtree keep their world position and attachment under `attach`. */
  lemma AttachOutside(g: Graph, b: NodeId, c: NodeId, x: NodeId)
    requires Wf(g) && b in g.nodes && c in g.nodes && c < b && x in g.nodes
    requires !IsAncestorOrSelf(g, c, x)
    ensures Wf(Attach(g, b, c))
    ensures WorldPosition(Attach(g, b, c), x) == WorldPosition(g, x)
    ensures Attached(Attach(g, b, c), x) == Attached(g, x)
  {
    var h := Attach(g, b, c);
    AttachWf(g, b, c);
    forall y | y in g.nodes && IsAncestorOrSelf(g, y, x)
      ensures y in h.nodes && h.nodes[y].parent == g.nodes[y].parent && h.nodes[y].position == g.nodes[y].position
    {
      AttachAt(g, b, c, y);
    }
    ChainSame(g, h, x);
  }

  /** The object `attach` moves stays where it is in the world, and is attached exactly when its new parent is. */
  lemma AttachMoved(g: Graph, b: NodeId, c: NodeId)
    requires Wf(g) && b in g.nodes && c in g.nodes && c < b
    ensures Wf(Attach(g, b, c))
    ensures WorldPosition(Attach(g, b, c), c) == WorldPosition(g, c)
    ensures Attached(Attach(g, b, c), c) == Attached(g, b)
  {
    if IsAncestorOrSelf(g, c, b) {
      AncestorBound(g, c, b);
    }
    AttachOutside(g, b, c, b);
    AttachAt(g, b, c, c);
    var h := Attach(g, b, c);
    var wb, wc := WorldPosition(g, b), WorldPosition(g, c);
    assert WorldPosition(h, c) == WorldPosition(h, b).Plus(h.nodes[c].position) == wb.Plus(wc.Minus(wb));
    assert wb.Plus(wc.Minus(wb)) == wc;
    assert Attached(h, c) == Attached(h, b);
  }

  /** `attach` keeps every world position, and the moved subtree is attached exactly when its new parent is. */
  lemma {:induction false} AttachChain(g: Graph, b: NodeId, c: NodeId, x: NodeId)
    requires Wf(g) && b in g.nodes && c in g.nodes && c < b && x in g.nodes
    ensures Wf(Attach(g, b, c))
    ensures WorldPosition(Attach(g, b, c), x) == WorldPosition(g, x)
    ensures Attached(Attach(g, b, c), x) == if IsAncestorOrSelf(g, c, x) then Attached(g, b) else Attached(g, x)
    decreases g.nextId - x
  {
    if !IsAncestorOrSelf(g, c, x) {
      AttachOutside(g, b, c, x);
    } else if x == c {
      AttachMoved(g, b, c);
    } else {
      assert NodeWf(g, x);
      var p := g.nodes[x].parent.id;
      assert NodeWf(g, p) && IsAncestorOrSelf(g, c, p);
      AttachChain(g, b, c, p);
      AttachUp(g, b, c, x);
    }
  }

  /** Below the moved object, world position and attachment follow those of the parent. */
  lemma AttachUp(g: Graph, b: NodeId, c: NodeId, x: NodeId)
    requires Wf(g) && b in g.nodes && c in g.nodes && c < b && x in g.nodes && x != c
    requires Wf(Attach(g, b, c)) && g.nodes[x].parent.ParentNode? && g.nodes[x].parent.id in g.nodes
    requires WorldPosition(Attach(g, b, c), g.nodes[x].parent.id) == WorldPosition(g, g.nodes[x].parent.id)
    requires Attached(Attach(g, b, c), g.nodes[x].parent.id) == Attached(g, b)
    ensures WorldPosition(Attach(g, b, c), x) == WorldPosition(g, x)
    ensures Attached(Attach(g, b, c), x) == Attached(g, b)
  {
    AttachAt(g, b, c, x);
    var h := Attach(g, b, c);
    var p := g.nodes[x].parent.id;
    assert h.nodes[x].parent == ParentNode(p) && h.nodes[x].position == g.nodes[x].position;
    assert WorldPosition(h, x) == WorldPosition(h, p).Plus(h.nodes[x].position);
  }

  /** What `AddToScene` changes: the object's parent, and the child list of its old parent. */
  lemma AddToSceneAt(g: Graph, c: NodeId, x: NodeId)
    requires Wf(g) && c in g.nodes && x in g.nodes
    ensures x != c ==> AddToScene(g, c).nodes[x].parent == g.nodes[x].parent
    ensures AddToScene(g, c).nodes[c].parent == InScene
    ensures AddToScene(g, c).nodes[x].children ==
      if g.nodes[c].parent == ParentNode(x) then RemoveFirst(g.nodes[x].children, c) else g.nodes[x].children
    ensures var n := AddToScene(g, c).nodes[x];
      n == g.nodes[x].(parent := n.parent, children := n.children)
  {
    DetachAt(g, c, x);
  }

  /** After `scene.add(c)`, the subtree of `c` is attached, and nothing else changes attachment. */
  lemma {:induction false} AddToSceneChain(g: Graph, c: NodeId, x: NodeId)
    requires Wf(g) && c in g.nodes && x in g.nodes
    ensures Wf(AddToScene(g, c))
    ensures Attached(AddToScene(g, c), x) == (IsAncestorOrSelf(g, c, x) || Attached(g, x))
    ensures !g.nodes[c].parent.ParentNode? ==> WorldPosition(AddToScene(g, c), x) == WorldPosition(g, x)
    decreases g.nextId - x
  {
    AddToSceneWf(g, c);
    AddToSceneAt(g, c, x);
    assert NodeWf(g, x);
    if x != c && g.nodes[x].parent.ParentNode? {
      var p := g.nodes[x].parent.id;
      assert NodeWf(g, p);
      AddToSceneChain(g, c, p);
    }
  }

  /** After `scene.remove(c)`, the subtree of `c` is detached when `c` hung off the scene; world positions stay. */
  lemma {:induction false} RemoveFromSceneChain(g: Graph, c: NodeId, x: NodeId)
    requires Wf(g) && c in g.nodes && x in g.nodes
    ensures Wf(RemoveFromScene(g, c))
    ensures Attached(RemoveFromScene(g, c), x) ==
      if g.nodes[c].parent == InScene && IsAncestorOrSelf(g, c, x) then false else Attached(g, x)
    ensures WorldPosition(RemoveFromScene(g, c), x) == WorldPosition(g, x)
    decreases g.nextId - x
  {
    RemoveFromSceneWf(g, c);
    assert NodeWf(g, x);
    if x != c && g.nodes[x].parent.ParentNode? {
      var p := g.nodes[x].parent.id;
      assert NodeWf(g, p);
      RemoveFromSceneChain(g, c, p);
    }
  }

  /** A childless object is an ancestor of nothing but itself. */
  lemma {:induction false} LeafAncestor(g: Graph, s: NodeId, x: NodeId)
    requires Wf(g) && s in g.nodes && x in g.nodes && g.nodes[s].children == []
    ensures IsAncestorOrSelf(g, s, x) <==> x == s
    decreases g.nextId - x
  {
    if x != s && g.nodes[x].parent.ParentNode? {
      var p := g.nodes[x].parent.id;
      assert NodeWf(g, x);
      assert NodeWf(g, p);
      if p != s {
        LeafAncestor(g, s, p);
      }
    }
  }

  /** Moving a childless object moves nothing else: every other world position and attachment stays. */
  lemma SetPositionLeaf(g: Graph, s: NodeId, v: Vec3, x: NodeId)
    requires Wf(g) && s in g.nodes && x in g.nodes && g.nodes[s].children == [] && x != s
    ensures Wf(SetPosition(g, s, v))
    ensures WorldPosition(SetPosition(g, s, v), x) == WorldPosition(g, x)
    ensures Attached(SetPosition(g, s, v), x) == Attached(g, x)
  {
    var h := SetPosition(g, s, v);
    SameStructureWf(g, h);
    forall y | y in g.nodes && IsAncestorOrSelf(g, y, x)
      ensures y in h.nodes && h.nodes[y].parent == g.nodes[y].parent && h.nodes[y].position == g.nodes[y].position
    {
      if y == s {
        LeafAncestor(g, s, x);
      }
    }
    ChainSame(g, h, x);
  }

  /** Attachment depends on the links alone. */
  lemma {:induction false} SameStructureAttached(g: Graph, h: Graph, x: NodeId)
    requires Wf(g) && SameStructure(g, h) && x in g.nodes
    ensures Wf(h) && Attached(h, x) == Attached(g, x)
    decreases g.nextId - x
  {
    SameStructureWf(g, h);
    assert NodeWf(g, x);
    if g.nodes[x].parent.ParentNode? {
      SameStructureAttached(g, h, g.nodes[x].parent.id);
    }
  }

  /** Every object of `g` is an object of `h` with the same parent. */
  predicate SameParents(g: Graph, h: Graph) {
    forall y :: y in g.nodes ==> y in h.nodes && h.nodes[y].parent == g.nodes[y].parent
  }

  /** With the same parents, an object has the same ancestors. */
  lemma {:induction false} AncestorsKept(g: Graph, h: Graph, a: NodeId, x: NodeId)
    requires Wf(g) && Wf(h) && SameParents(g, h) && x in g.nodes
    ensures IsAncestorOrSelf(h, a, x) == IsAncestorOrSelf(g, a, x)
    decreases g.nextId - x
  {
    assert NodeWf(g, x);
    if x != a && g.nodes[x].parent.ParentNode? {
      AncestorsKept(g, h, a, g.nodes[x].parent.id);
    }
  }

  /** Everything under an attached object is attached. */
  lemma {:induction false} AttachedBelow(g: Graph, y: NodeId, x: NodeId)
    requires Wf(g) && x in g.nodes && IsAncestorOrSelf(g, y, x) && y in g.nodes && Attached(g, y)
    ensures Attached(g, x)
    decreases g.nextId - x
  {
    if x != y {
      assert NodeWf(g, x);
      AttachedBelow(g, y, g.nodes[x].parent.id);
    }
  }

  /** `new Mesh(...)` followed by `scene.add`: a fresh object with the next id, hanging off the scene. */
  function Spawn(g: Graph, node: Node): (r: (Graph, NodeId))
    requires Wf(g) && node.parent == Detached && node.children == []
    ensures r.1 == g.nextId && r.0.nextId == g.nextId + 1
    ensures r.0.nodes.Keys == g.nodes.Keys + {r.1}
  {
    var (h, id) := Allocate(g, node);
    AllocateWf(g, node);
    (AddToScene(h, id), id)
  }

  /** Every object of `g` is an object of `h`, unchanged. */
  predicate Keeps(g: Graph, h: Graph) {
    forall x :: x in g.nodes ==> x in h.nodes && h.nodes[x] == g.nodes[x]
  }

  /** Objects that are kept unchanged keep their world position and attachment too. */
  lemma KeepsChain(g: Graph, h: Graph, x: NodeId)
    requires Wf(g) && Wf(h) && Keeps(g, h) && x in g.nodes
    ensures WorldPosition(h, x) == WorldPosition(g, x)
    ensures Attached(h, x) == Attached(g, x)
  {
    ChainSame(g, h, x);
  }

  /** Spawning adds one object, hanging off the scene, and keeps every other object as it was. */
  lemma SpawnKeeps(g: Graph, node: Node)
    requires Wf(g) && node.parent == Detached && node.children == []
    ensures Wf(Spawn(g, node).0) && g.nextId !in g.nodes
    ensures Spawn(g, node).0.nodes[g.nextId] == node.(parent := InScene)
    ensures Keeps(g, Spawn(g, node).0)
  {
    var (h, id) := Allocate(g, node);
    AllocateWf(g, node);
    AddToSceneWf(h, id);
    AddToSceneAt(h, id, id);
    forall x | x in g.nodes
      ensures x < id
    {
      assert NodeWf(g, x);
    }
    forall x | x in g.nodes
      ensures AddToScene(h, id).nodes[x] == g.nodes[x]
    {
      AddToSceneAt(h, id, x);
    }
  }
}
