/**
 * Checking a selection, bundling it, removing objects and unbundling
 * (source/js/BundleUtils.js), with `unbundleExistingBundles` of the
 * application context (source/js/App.js), which only calls into this module.
 */
module BundleUtils {
  import opened Wrappers
  import opened Geometry
  import opened Lists
  import opened SceneGraph
  import opened Utils
  import opened BundleLookup
  import opened BundleErr
  import opened BundleGraph
  import opened AppContext

  // ---------------------------------------------------------------------------
  // canBundle
  // ---------------------------------------------------------------------------

  /** Every object of the list has the order of the first one. */
  predicate SameOrder(g: Graph, objs: seq<NodeId>)
    requires forall x :: x in objs ==> x in g.nodes
  {
    forall i :: 0 <= i < |objs| ==> g.nodes[objs[i]].order == g.nodes[objs[0]].order
  }

  /**
   * `canBundle`: why the selection cannot become one bundle of `size`
   * objects, checking emptiness first, then mixed orders, then the count;
   * `None` (the source's `null`) when it can.
   */
  function CanBundle(g: Graph, toBundle: seq<NodeId>, size: int): (err: Option<BundleErrType>)
    requires forall x :: x in toBundle ==> x in g.nodes
    ensures err.None? <==> toBundle != [] && SameOrder(g, toBundle) && |toBundle| == size
    ensures toBundle == [] ==> err == Some(NoneSelected)
    ensures toBundle != [] && !SameOrder(g, toBundle) ==> err == Some(DiffTypes)
    ensures toBundle != [] && SameOrder(g, toBundle) && |toBundle| > size ==> err == Some(TooMany)
    ensures toBundle != [] && SameOrder(g, toBundle) && |toBundle| < size ==> err == Some(TooFew)
  {
    if |toBundle| == 0 then Some(NoneSelected)
    else if !SameOrder(g, toBundle) then Some(DiffTypes)
    else if |toBundle| > size then Some(TooMany)
    else if |toBundle| < size then Some(TooFew)
    else None
  }

  // ---------------------------------------------------------------------------
  // The bundle group and its ring
  // ---------------------------------------------------------------------------

  /** `bundleColours`: yellow, orange and red. */
  const BundleColours: seq<int> := [0xffff00, 0xff9900, 0xff0000]

  /** The colour a three.js material keeps when it is given `undefined`. */
  const DefaultMaterialColour := 0xffffff

  /** JavaScript's `%`, whose result has the sign of the dividend. */
  function JsRem(a: int, n: int): (r: int)
    requires n > 0
    ensures -n < r < n
    ensures a >= 0 ==> r == a % n
  {
    if a >= 0 then a % n else -((-a) % n)
  }

  /**
   * `bundleColours[(order - 1) % 3]`, the colour of the ring of a bundle of
   * the given order; an index outside the array gives `undefined`, and the
   * material keeps its default colour.
   */
  function RingColour(order: int): (c: int)
    ensures order >= 1 ==> c == BundleColours[(order - 1) % 3]
  {
    var i := JsRem(order - 1, |BundleColours|);
    if 0 <= i then BundleColours[i] else DefaultMaterialColour
  }

  /** The ring colours repeat every three orders: yellow, orange, red, yellow, ... */
  lemma RingColourCycle(order: int)
    requires order >= 1
    ensures RingColour(order + 3) == RingColour(order)
    ensures RingColour(order) in BundleColours
    ensures order == 1 ==> RingColour(order) == 0xffff00
  {
  }

  /** The bundle's position: the centre from `centerLookup`, at the height of the first member. */
  function BundleCentre(first: Node, base: int, m: MathLib): (c: Vec3)
    requires DivisorsNonZero(m) && MinBundleSize <= base <= MaxBundleSize
    ensures c.z == first.position.z
    ensures Center(m, base, first.radius, first.position.x, first.position.y) == Some(Point(c.x, c.y))
  {
    var p := CenterOf(m, base, first.radius, first.position.x, first.position.y);
    Vec3(p.x, p.y, first.position.z)
  }

  /** The new `Group`, not yet in the scene: one order above its first member, with `radiusLookup`'s radius. */
  function BundleNode(first: Node, base: int, m: MathLib): Node
    requires DivisorsNonZero(m) && MinBundleSize <= base <= MaxBundleSize
  {
    Node(Group, NoGeometry, Detached, [], first.order + 1, RadiusOf(m, base, first.radius),
         BundleCentre(first, base, m), None, NoMaterial)
  }

  /**
   * The ring, a torus `Mesh` of the bundle's radius with a basic material (no
   * emissive colour), copied to the bundle's position. It has no order.
   */
  function RingNode(first: Node, base: int, m: MathLib): Node
    requires DivisorsNonZero(m) && MinBundleSize <= base <= MaxBundleSize
  {
    Node(Mesh, Torus, Detached, [], 0, RadiusOf(m, base, first.radius),
         BundleCentre(first, base, m), None, Material(RingColour(first.order + 1), None))
  }

  /**
   * Lines 45-76 of `bundleSticks`: the ring and the group are allocated (the
   * ring first, so that it has the smaller id) and the ring is attached to
   * the group. Returns the graph, the ring and the group.
   */
  function NewBundle(g: Graph, first: Node, base: int, m: MathLib): (r: (Graph, NodeId, NodeId))
    requires Wf(g) && DivisorsNonZero(m) && MinBundleSize <= base <= MaxBundleSize
    ensures r.1 == g.nextId && r.2 == g.nextId + 1 && r.0.nextId == g.nextId + 2
    ensures r.0.nodes.Keys == g.nodes.Keys + {r.1, r.2}
  {
    var (g1, t) := Allocate(g, RingNode(first, base, m));
    AllocateWf(g, RingNode(first, base, m));
    var (g2, b) := Allocate(g1, BundleNode(first, base, m));
    AllocateWf(g1, BundleNode(first, base, m));
    (Attach(g2, b, t), t, b)
  }

  /** Making the bundle changes no old object. */
  lemma NewBundleKeeps(g: Graph, first: Node, base: int, m: MathLib)
    requires Wf(g) && DivisorsNonZero(m) && MinBundleSize <= base <= MaxBundleSize
    ensures var (h, t, b) := NewBundle(g, first, base, m);
      Wf(h) && Keeps(g, h) && t !in g.nodes && b !in g.nodes
  {
    var ring, group := RingNode(first, base, m), BundleNode(first, base, m);
    var (g1, t) := Allocate(g, ring);
    AllocateWf(g, ring);
    var (g2, b) := Allocate(g1, group);
    AllocateWf(g1, group);
    AttachWf(g2, b, t);
    forall x | x in g.nodes
      ensures x < t
    {
      assert NodeWf(g, x);
    }
    forall x | x in g.nodes
      ensures Attach(g2, b, t).nodes[x] == g.nodes[x]
    {
      AttachAt(g2, b, t, x);
    }
  }

  /**
   * The new group holds only its ring, which sits at the group's centre
   * (local position zero).
   */
  lemma NewBundleShape(g: Graph, first: Node, base: int, m: MathLib)
    requires Wf(g) && DivisorsNonZero(m) && MinBundleSize <= base <= MaxBundleSize
    ensures var (h, t, b) := NewBundle(g, first, base, m);
      && Wf(h)
      && h.nodes[b] == BundleNode(first, base, m).(children := [t])
      && h.nodes[t] == RingNode(first, base, m).(parent := ParentNode(b), position := Zero)
      && WorldPosition(h, t) == WorldPosition(h, b) == BundleCentre(first, base, m)
  {
    var ring, group := RingNode(first, base, m), BundleNode(first, base, m);
    var (g1, t) := Allocate(g, ring);
    AllocateWf(g, ring);
    var (g2, b) := Allocate(g1, group);
    AllocateWf(g1, group);
    var h := Attach(g2, b, t);
    AttachWf(g2, b, t);
    AttachAt(g2, b, t, t);
    AttachAt(g2, b, t, b);
    assert h.nodes[b] == group.(children := [t]);
    assert h.nodes[t] == ring.(parent := ParentNode(b), position := Zero);
    assert WorldPosition(h, b) == group.position;
  }

  // ---------------------------------------------------------------------------
  // bundleSticks
  // ---------------------------------------------------------------------------

  /**
   * `new Vector3(p.x, p.y, centre.z).sub(centre)`: the place `p` at the
   * bundle's height, relative to the bundle, so that a member that reaches it
   * stands on `p`.
   */
  function DesiredOffset(p: Point, centre: Vec3): (d: Vec3)
    ensures centre.Plus(d) == Vec3(p.x, p.y, centre.z)
  {
    Vec3(p.x, p.y, centre.z).Minus(centre)
  }

  /** Lines 79-82 of `bundleSticks`: member `i` is sent towards place `i`. */
  method SetDesiredPlaces(g: Graph, members: seq<NodeId>, places: seq<Point>, centre: Vec3) returns (h: Graph)
    requires (forall x :: x in members ==> x in g.nodes) && |members| <= |places|
    ensures SameStructure(g, h)
    ensures forall x :: x in g.nodes ==> h.nodes[x] == g.nodes[x].(desired := h.nodes[x].desired)
    ensures forall x :: x in g.nodes && x !in members ==> h.nodes[x] == g.nodes[x]
    ensures NoDups(members) ==>
      forall i :: 0 <= i < |members| ==> h.nodes[members[i]].desired == Some(DesiredOffset(places[i], centre))
  {
    h := g;
    for i := 0 to |members|
      invariant SameStructure(g, h)
      invariant forall x :: x in g.nodes ==> h.nodes[x] == g.nodes[x].(desired := h.nodes[x].desired)
      invariant forall x :: x in g.nodes && x !in members[..i] ==> h.nodes[x] == g.nodes[x]
      invariant NoDups(members) ==>
        forall j :: 0 <= j < i ==> h.nodes[members[j]].desired == Some(DesiredOffset(places[j], centre))
    {
      DesiredStep(g, h, members, places, centre, i);
      h := SetDesired(h, members[i], DesiredOffset(places[i], centre));
    }
    assert members[..|members|] == members;
  }

  /** Setting the desired position of member `i` keeps the loop invariant of `SetDesiredPlaces`. */
  lemma DesiredStep(g: Graph, h: Graph, members: seq<NodeId>, places: seq<Point>, centre: Vec3, i: nat)
    requires (forall x :: x in members ==> x in g.nodes) && i < |members| <= |places|
    requires SameStructure(g, h)
    requires forall x :: x in g.nodes ==> h.nodes[x] == g.nodes[x].(desired := h.nodes[x].desired)
    requires forall x :: x in g.nodes && x !in members[..i] ==> h.nodes[x] == g.nodes[x]
    requires NoDups(members) ==>
      forall j :: 0 <= j < i ==> h.nodes[members[j]].desired == Some(DesiredOffset(places[j], centre))
    ensures members[i] in h.nodes
    ensures var h' := SetDesired(h, members[i], DesiredOffset(places[i], centre));
      && SameStructure(g, h')
      && (forall x :: x in g.nodes ==> h'.nodes[x] == g.nodes[x].(desired := h'.nodes[x].desired))
      && (forall x :: x in g.nodes && x !in members[..i + 1] ==> h'.nodes[x] == g.nodes[x])
      && (NoDups(members) ==>
           forall j :: 0 <= j < i + 1 ==> h'.nodes[members[j]].desired == Some(DesiredOffset(places[j], centre)))
  {
    var m := members[i];
    assert m in members;
    var h' := SetDesired(h, m, DesiredOffset(places[i], centre));
    PrefixSnoc(members, i, []);
    forall x | x in g.nodes && x !in members[..i + 1]
      ensures h'.nodes[x] == g.nodes[x]
    {
      assert x != m && x !in members[..i];
    }
    if NoDups(members) {
      forall j | 0 <= j < i + 1
        ensures h'.nodes[members[j]].desired == Some(DesiredOffset(places[j], centre))
      {
        if j < i {
          assert members[j] != m;
        }
      }
    }
  }

  /** Lines 85-87 of `bundleSticks`: `bundle.attach(stick)` for every member in turn. */
  method AttachMembers(g: Graph, b: NodeId, members: seq<NodeId>) returns (h: Graph)
    requires Wf(g) && b in g.nodes && g.nodes[b].parent == Detached
    requires forall c :: c in members ==> c in g.nodes && c < b
    ensures Wf(h) && Regrouped(g, h, b, members) && h.nodes[b].parent == Detached
    ensures NoDups(members) && (forall c :: c in members ==> g.nodes[c].parent != ParentNode(b)) ==>
      h.nodes[b].children == g.nodes[b].children + members
  {
    h := g;
    RegroupedStart(g, b);
    for i := 0 to |members|
      invariant Wf(h) && Regrouped(g, h, b, members[..i]) && h.nodes[b].parent == Detached
      invariant NoDups(members) && (forall c :: c in members ==> g.nodes[c].parent != ParentNode(b)) ==>
        h.nodes[b].children == g.nodes[b].children + members[..i]
    {
      AttachMembersStep(g, h, b, members, i);
      h := Attach(h, b, members[i]);
    }
    assert members[..|members|] == members;
  }

  lemma AttachMembersStep(g: Graph, h: Graph, b: NodeId, members: seq<NodeId>, i: nat)
    requires Wf(g) && b in g.nodes && i < |members|
    requires forall c :: c in members ==> c in g.nodes && c < b
    requires Wf(h) && Regrouped(g, h, b, members[..i]) && h.nodes[b].parent == Detached
    requires NoDups(members) && (forall c :: c in members ==> g.nodes[c].parent != ParentNode(b)) ==>
      h.nodes[b].children == g.nodes[b].children + members[..i]
    ensures var h' := Attach(h, b, members[i]);
      && Wf(h') && Regrouped(g, h', b, members[..i + 1]) && h'.nodes[b].parent == Detached
      && (NoDups(members) && (forall c :: c in members ==> g.nodes[c].parent != ParentNode(b)) ==>
           h'.nodes[b].children == g.nodes[b].children + members[..i + 1])
  {
    var c := members[i];
    assert c in members;
    RegroupStep(g, h, b, members[..i], c);
    PrefixSnoc(members, i, g.nodes[b].children);
    if NoDups(members) {
      assert c !in members[..i];
    }
  }

  /**
   * The scene `h` after `bundleSticks` on the scene `g`: a new group (id
   * `g.nextId + 1`) hangs off the scene, one order above the first member,
   * at the centre of the lookup table, holding its ring (id `g.nextId`) and
   * the members; each member is sent towards its place and keeps its world
   * position; other objects lose at most some children; every world position
   * stays; an object is attached afterwards when it was before or hangs under
   * a member.
   */
  ghost predicate Bundled(g: Graph, h: Graph, members: seq<NodeId>, base: int, m: MathLib)
    requires Wf(g) && Wf(h) && DivisorsNonZero(m) && MinBundleSize <= base <= MaxBundleSize
    requires members != [] && (forall c :: c in members ==> c in g.nodes) && |members| <= base
  {
    && BundleMade(g, h, members, base, m)
    && MembersSent(g, h, members, base, m)
    && OldKept(g, h, g.nextId + 1, BundleCentre(g.nodes[members[0]], base, m), members)
  }

  /** The group and its ring in the scene after `bundleSticks`. */
  ghost predicate BundleMade(g: Graph, h: Graph, members: seq<NodeId>, base: int, m: MathLib)
    requires Wf(g) && Wf(h) && DivisorsNonZero(m) && MinBundleSize <= base <= MaxBundleSize
    requires members != [] && (forall c :: c in members ==> c in g.nodes) && |members| <= base
  {
    var t, b := g.nextId, g.nextId + 1;
    var first := g.nodes[members[0]];
    && h.nextId == g.nextId + 2 && h.nodes.Keys == g.nodes.Keys + {t, b}
    && h.nodes[b] == BundleNode(first, base, m).(parent := InScene, children := h.nodes[b].children)
    && (NoDups(members) ==> h.nodes[b].children == [t] + members)
    && h.nodes[t] == RingNode(first, base, m).(parent := ParentNode(b), position := Zero)
  }

  /** Member `i` is sent towards place `i` of the lookup table, relative to the bundle's centre. */
  ghost predicate MembersSent(g: Graph, h: Graph, members: seq<NodeId>, base: int, m: MathLib)
    requires Wf(g) && DivisorsNonZero(m) && MinBundleSize <= base <= MaxBundleSize
    requires members != [] && (forall c :: c in members ==> c in g.nodes) && |members| <= base
  {
    var first := g.nodes[members[0]];
    var centre := BundleCentre(first, base, m);
    var places := Places(m, base, first.radius, first.position.x, first.position.y);
    NoDups(members) ==>
      forall i :: 0 <= i < |members| ==>
        members[i] in h.nodes && h.nodes[members[i]].desired == Some(DesiredOffset(places[i], centre))
  }

  /** Every old object as `MemberMoved` says, at its old world position, attached as the members make it. */
  ghost predicate OldKept(g: Graph, h: Graph, b: NodeId, centre: Vec3, members: seq<NodeId>)
    requires Wf(g) && Wf(h)
  {
    forall x :: x in g.nodes ==>
      && x in h.nodes
      && MemberMoved(g, h, b, centre, members, x)
      && WorldPosition(h, x) == WorldPosition(g, x)
      && Attached(h, x) == (Attached(g, x) || UnderSome(g, members, x))
  }

  /**
   * An old object after `bundleSticks`: a member now hangs under the bundle
   * `b` at its old world position, relative to the bundle's `centre`, with a
   * new desired position; any other object is as it was; either may have
   * lost children.
   */
  ghost predicate MemberMoved(g: Graph, h: Graph, b: NodeId, centre: Vec3, members: seq<NodeId>, x: NodeId)
    requires Wf(g) && x in g.nodes && x in h.nodes
  {
    var n := h.nodes[x];
    && (x in members ==>
         n == g.nodes[x].(parent := ParentNode(b), position := WorldPosition(g, x).Minus(centre),
                          desired := n.desired, children := n.children))
    && (x !in members ==> n == g.nodes[x].(children := n.children))
    && (forall y :: y in n.children ==> y in g.nodes[x].children)
  }

  /**
   * The scene `p` after lines 45-76 of `bundleSticks` (and the desired
   * positions of lines 79-82, which `DesiredOnly` and `MembersSent` cover):
   * the group and its ring are made and nothing old has moved.
   */
  ghost predicate Prepared(g: Graph, p: Graph, members: seq<NodeId>, base: int, m: MathLib)
    requires Wf(g) && DivisorsNonZero(m) && MinBundleSize <= base <= MaxBundleSize
    requires members != [] && (forall c :: c in members ==> c in g.nodes) && |members| <= base
  {
    var t, b := g.nextId, g.nextId + 1;
    var first := g.nodes[members[0]];
    && Wf(p) && p.nextId == g.nextId + 2 && p.nodes.Keys == g.nodes.Keys + {t, b}
    && p.nodes[b] == BundleNode(first, base, m).(children := [t])
    && p.nodes[t] == RingNode(first, base, m).(parent := ParentNode(b), position := Zero)
    && WorldPosition(p, b) == BundleCentre(first, base, m)
  }

  /** Old objects of `g` changed in `p` at most in their desired position, and only members at all. */
  ghost predicate DesiredOnly(g: Graph, p: Graph, members: seq<NodeId>)
  {
    && (forall x :: x in g.nodes ==> x in p.nodes && p.nodes[x] == g.nodes[x].(desired := p.nodes[x].desired))
    && (forall x :: x in g.nodes && x !in members ==> p.nodes[x] == g.nodes[x])
  }

  /** The first two steps of `bundleSticks` make the group and send the members. */
  lemma PreparedHolds(g: Graph, members: seq<NodeId>, base: int, m: MathLib, p: Graph)
    requires Wf(g) && DivisorsNonZero(m) && MinBundleSize <= base <= MaxBundleSize
    requires members != [] && (forall c :: c in members ==> c in g.nodes) && |members| <= base
    requires var first := g.nodes[members[0]];
      var q := NewBundle(g, first, base, m).0;
      && SameStructure(q, p)
      && (forall x :: x in q.nodes ==> p.nodes[x] == q.nodes[x].(desired := p.nodes[x].desired))
      && (forall x :: x in q.nodes && x !in members ==> p.nodes[x] == q.nodes[x])
    ensures Prepared(g, p, members, base, m) && DesiredOnly(g, p, members)
  {
    var first := g.nodes[members[0]];
    var (q, t, b) := NewBundle(g, first, base, m);
    NewBundleKeeps(g, first, base, m);
    NewBundleShape(g, first, base, m);
    SameStructureWf(q, p);
    assert t !in members && b !in members;
    forall y | y in q.nodes && IsAncestorOrSelf(q, y, b)
      ensures y in p.nodes && p.nodes[y].parent == q.nodes[y].parent && p.nodes[y].position == q.nodes[y].position
    {
    }
    ChainSame(q, p, b);
  }

  /** Attaching the members to the group and adding the group to the scene finishes `Bundled`. */
  lemma FinishBundled(g: Graph, p: Graph, a: Graph, members: seq<NodeId>, base: int, m: MathLib)
    requires Wf(g) && DivisorsNonZero(m) && MinBundleSize <= base <= MaxBundleSize
    requires members != [] && (forall c :: c in members ==> c in g.nodes) && |members| <= base
    requires Prepared(g, p, members, base, m) && DesiredOnly(g, p, members) && MembersSent(g, p, members, base, m)
    requires Wf(a) && Regrouped(p, a, g.nextId + 1, members) && a.nodes[g.nextId + 1].parent == Detached
    requires NoDups(members) && (forall c :: c in members ==> p.nodes[c].parent != ParentNode(g.nextId + 1)) ==>
      a.nodes[g.nextId + 1].children == p.nodes[g.nextId + 1].children + members
    ensures Wf(AddToScene(a, g.nextId + 1)) && Bundled(g, AddToScene(a, g.nextId + 1), members, base, m)
  {
    var b := g.nextId + 1;
    RegroupAddToScene(p, a, b, members);
    var h := AddToScene(a, b);
    forall c | c in members
      ensures p.nodes[c].parent != ParentNode(b)
    {
      assert NodeWf(g, c);
    }
    FinishMade(g, p, h, members, base, m);
    FinishSent(g, p, h, members, base, m);
    FinishOld(g, p, h, members, b, BundleCentre(g.nodes[members[0]], base, m));
  }

  /** The group and ring once the members are attached and the group is in the scene. */
  lemma FinishMade(g: Graph, p: Graph, h: Graph, members: seq<NodeId>, base: int, m: MathLib)
    requires Wf(g) && DivisorsNonZero(m) && MinBundleSize <= base <= MaxBundleSize
    requires members != [] && (forall c :: c in members ==> c in g.nodes) && |members| <= base
    requires Prepared(g, p, members, base, m)
    requires Wf(h) && Regrouped(p, h, g.nextId + 1, members)
    requires h.nodes[g.nextId + 1] == p.nodes[g.nextId + 1].(parent := InScene, children := h.nodes[g.nextId + 1].children)
    requires NoDups(members) ==> h.nodes[g.nextId + 1].children == p.nodes[g.nextId + 1].children + members
    ensures BundleMade(g, h, members, base, m)
  {
    var t, b := g.nextId, g.nextId + 1;
    var first := g.nodes[members[0]];
    assert t !in members;
    assert MovedUnder(p, h, b, members, t);
    var n := h.nodes[t];
    NonEmptyInside(n.children, p.nodes[t].children);
    assert n == p.nodes[t];
    assert h.nodes[b] == BundleNode(first, base, m).(parent := InScene, children := h.nodes[b].children);
  }

  /** The members keep the desired positions they were given. */
  lemma FinishSent(g: Graph, p: Graph, h: Graph, members: seq<NodeId>, base: int, m: MathLib)
    requires Wf(g) && DivisorsNonZero(m) && MinBundleSize <= base <= MaxBundleSize
    requires members != [] && (forall c :: c in members ==> c in g.nodes) && |members| <= base
    requires MembersSent(g, p, members, base, m)
    requires Wf(p) && Wf(h) && p.nextId == g.nextId + 2 && g.nextId + 1 in p.nodes
    requires Regrouped(p, h, g.nextId + 1, members)
    ensures MembersSent(g, h, members, base, m)
  {
    forall i | 0 <= i < |members|
      ensures members[i] in h.nodes && h.nodes[members[i]].desired == p.nodes[members[i]].desired
    {
      var c := members[i];
      assert c in g.nodes;
      assert c in p.nodes && c != g.nextId + 1;
      assert MovedUnder(p, h, g.nextId + 1, members, c);
    }
  }

  /** Every old object once the members are attached and the group is in the scene. */
  lemma FinishOld(g: Graph, p: Graph, h: Graph, members: seq<NodeId>, b: NodeId, centre: Vec3)
    requires Wf(g) && Wf(p) && b !in g.nodes && b in p.nodes && WorldPosition(p, b) == centre
    requires DesiredOnly(g, p, members)
    requires Wf(h) && Regrouped(p, h, b, members) && h.nodes[b].parent == InScene
    ensures OldKept(g, h, b, centre, members)
  {
    forall x | x in g.nodes
      ensures x in h.nodes
      ensures MemberMoved(g, h, b, centre, members, x)
      ensures WorldPosition(h, x) == WorldPosition(g, x)
      ensures Attached(h, x) == (Attached(g, x) || UnderSome(g, members, x))
    {
      BundledAt(g, p, h, members, b, centre, x);
    }
  }

  /** One old object after `bundleSticks`. */
  lemma BundledAt(g: Graph, p: Graph, h: Graph, members: seq<NodeId>, b: NodeId, centre: Vec3, x: NodeId)
    requires Wf(g) && Wf(p) && b !in g.nodes && b in p.nodes && WorldPosition(p, b) == centre
    requires DesiredOnly(g, p, members)
    requires Wf(h) && Regrouped(p, h, b, members) && h.nodes[b].parent == InScene
    requires x in g.nodes
    ensures x in h.nodes
    ensures MemberMoved(g, h, b, centre, members, x)
    ensures WorldPosition(h, x) == WorldPosition(g, x)
    ensures Attached(h, x) == (Attached(g, x) || UnderSome(g, members, x))
  {
    assert MovedUnder(p, h, b, members, x);
    assert SameParents(g, p);
    forall y | y in g.nodes && IsAncestorOrSelf(g, y, x)
      ensures y in p.nodes && p.nodes[y].parent == g.nodes[y].parent && p.nodes[y].position == g.nodes[y].position
    {
    }
    ChainSame(g, p, x);
    RegroupedWorld(p, h, b, members, x);
    RegroupedAttached(p, h, b, members, x);
    AncestorsKept(g, p, b, x);
    if IsAncestorOrSelf(g, b, x) {
      AncestorBound(g, b, x);
    }
    forall i | 0 <= i < |members|
      ensures IsAncestorOrSelf(p, members[i], x) == IsAncestorOrSelf(g, members[i], x)
    {
      AncestorsKept(g, p, members[i], x);
    }
    assert UnderSome(p, members, x) == UnderSome(g, members, x);
  }

  /** The ring `t` and group `b` of a new bundle: neither is a stick, and only the group has children. */
  predicate NewNodesOk(g: Graph, h: Graph, t: NodeId, b: NodeId) {
    && h.nodes.Keys == g.nodes.Keys + {t, b}
    && ShapeOk(h.nodes[t]) && ShapeOk(h.nodes[b]) && !IsStick(h, t) && !IsStick(h, b)
  }

  /** The ring and group `bundleSticks` makes are as `NewNodesOk` says. */
  lemma BundledNewNodes(g: Graph, h: Graph, members: seq<NodeId>, base: int, m: MathLib)
    requires Wf(g) && Wf(h) && DivisorsNonZero(m) && MinBundleSize <= base <= MaxBundleSize
    requires members != [] && (forall c :: c in members ==> c in g.nodes) && |members| <= base
    requires BundleMade(g, h, members, base, m)
    ensures NewNodesOk(g, h, g.nextId, g.nextId + 1)
  {
  }

  /**
   * `bundleSticks` keeps the pool a list of sticks and keeps only groups with
   * children: the group and ring are no sticks, and an old object is a stick
   * exactly when it was.
   */
  lemma BundledPool(g: Graph, h: Graph, b: NodeId, centre: Vec3, members: seq<NodeId>, pool: seq<NodeId>)
    requires Wf(g) && Wf(h) && OldKept(g, h, b, centre, members) && NewNodesOk(g, h, g.nextId, b)
    requires ShapesOk(g) && PoolOk(g, pool)
    ensures ShapesOk(h) && PoolOk(h, pool)
    ensures forall x :: x in g.nodes ==> IsStick(h, x) == IsStick(g, x)
  {
    forall x | x in g.nodes
      ensures ShapeOk(h.nodes[x]) && IsStick(h, x) == IsStick(g, x)
    {
      BundledShapeAt(g, h, b, centre, members, x);
    }
  }

  /**
   * When every member hangs off the scene, a pool holding exactly the
   * attached sticks still does after `bundleSticks`, since the group only
   * gathers objects that were attached already.
   */
  lemma BundledExactPool(g: Graph, h: Graph, b: NodeId, pool: seq<NodeId>)
    requires Wf(g) && Wf(h) && h.nodes.Keys == g.nodes.Keys + {g.nextId, b}
    requires !IsStick(h, g.nextId) && !IsStick(h, b)
    requires forall x :: x in g.nodes ==> IsStick(h, x) == IsStick(g, x) && Attached(h, x) == Attached(g, x)
    requires PoolOk(g, pool) && ExactPool(g, pool)
    ensures ExactPool(h, pool)
  {
    forall x | x in h.nodes
      ensures x in pool <==> IsStick(h, x) && Attached(h, x)
    {
      if x !in g.nodes {
        assert x !in pool;
      }
    }
  }

  /** An old object keeps its kind and shape, and loses no more than children. */
  lemma BundledShapeAt(g: Graph, h: Graph, b: NodeId, centre: Vec3, members: seq<NodeId>, x: NodeId)
    requires Wf(g) && ShapesOk(g) && x in g.nodes && x in h.nodes
    requires MemberMoved(g, h, b, centre, members, x)
    ensures ShapeOk(h.nodes[x]) && IsStick(h, x) == IsStick(g, x)
  {
    NonEmptyInside(h.nodes[x].children, g.nodes[x].children);
    assert ShapeOk(g.nodes[x]);
  }

  /** The pool facts `App.Valid` and `App.PoolExact` need after `bundleSticks`. */
  lemma BundledContext(g: Graph, h: Graph, b: NodeId, centre: Vec3, members: seq<NodeId>, pool: seq<NodeId>, exact: bool)
    requires Wf(g) && Wf(h) && OldKept(g, h, b, centre, members) && NewNodesOk(g, h, g.nextId, b)
    requires ShapesOk(g) && PoolOk(g, pool) && exact == ExactPool(g, pool)
    requires forall c :: c in members ==> c in g.nodes
    ensures ShapesOk(h) && PoolOk(h, pool)
    ensures exact && (forall c :: c in members ==> Attached(g, c)) ==> ExactPool(h, pool)
  {
    BundledPool(g, h, b, centre, members, pool);
    if exact && (forall c :: c in members ==> Attached(g, c)) {
      AttachmentKept(g, h, b, centre, members);
      BundledExactPool(g, h, b, pool);
    }
  }

  /** With every member attached, bundling attaches nothing new. */
  lemma AttachmentKept(g: Graph, h: Graph, b: NodeId, centre: Vec3, members: seq<NodeId>)
    requires Wf(g) && Wf(h) && OldKept(g, h, b, centre, members)
    requires forall c :: c in members ==> c in g.nodes && Attached(g, c)
    ensures forall x :: x in g.nodes ==> Attached(h, x) == Attached(g, x)
  {
    forall x | x in g.nodes
      ensures Attached(h, x) == Attached(g, x)
    {
      if UnderSome(g, members, x) {
        var i :| 0 <= i < |members| && IsAncestorOrSelf(g, members[i], x);
        AttachedBelow(g, members[i], x);
      }
    }
  }

  /** Lines 45-82 of `bundleSticks`: the group and ring are made and the members are sent to their places. */
  method PrepareBundle(g: Graph, toBundle: seq<NodeId>, base: int, m: MathLib) returns (p: Graph)
    requires Wf(g) && DivisorsNonZero(m) && MinBundleSize <= base <= MaxBundleSize
    requires toBundle != [] && (forall c :: c in toBundle ==> c in g.nodes) && |toBundle| <= base
    ensures Prepared(g, p, toBundle, base, m) && DesiredOnly(g, p, toBundle) && MembersSent(g, p, toBundle, base, m)
  {
    var first := g.nodes[toBundle[0]];
    var q := NewBundle(g, first, base, m).0;
    NewBundleKeeps(g, first, base, m);
    var places := Places(m, base, first.radius, first.position.x, first.position.y);
    var centre := BundleCentre(first, base, m);
    p := SetDesiredPlaces(q, toBundle, places, centre);
    PreparedHolds(g, toBundle, base, m, p);
    SentHolds(g, p, toBundle, base, m, places, centre);
  }

  /** The desired positions `SetDesiredPlaces` gives are those of `MembersSent`. */
  lemma SentHolds(g: Graph, p: Graph, members: seq<NodeId>, base: int, m: MathLib, places: seq<Point>, centre: Vec3)
    requires Wf(g) && DivisorsNonZero(m) && MinBundleSize <= base <= MaxBundleSize
    requires members != [] && (forall c :: c in members ==> c in g.nodes) && |members| <= base
    requires var first := g.nodes[members[0]];
      && places == Places(m, base, first.radius, first.position.x, first.position.y)
      && centre == BundleCentre(first, base, m)
    requires forall c :: c in g.nodes ==> c in p.nodes
    requires NoDups(members) ==>
      forall i :: 0 <= i < |members| ==> p.nodes[members[i]].desired == Some(DesiredOffset(places[i], centre))
    ensures MembersSent(g, p, members, base, m)
  {
  }

  /** The scene after `bundleSticks` on a non-empty list. */
  method BundleScene(g: Graph, toBundle: seq<NodeId>, base: int, m: MathLib) returns (h: Graph)
    requires Wf(g) && DivisorsNonZero(m) && MinBundleSize <= base <= MaxBundleSize
    requires toBundle != [] && (forall c :: c in toBundle ==> c in g.nodes) && |toBundle| <= base
    ensures Wf(h) && Bundled(g, h, toBundle, base, m)
  {
    var p := PrepareBundle(g, toBundle, base, m);
    var b := g.nextId + 1;
    assert forall c :: c in toBundle ==> c in p.nodes && c < b by {
      forall c | c in toBundle
        ensures c in p.nodes && c < b
      {
        assert NodeWf(g, c);
      }
    }
    var a := AttachMembers(p, b, toBundle);
    FinishBundled(g, p, a, toBundle, base, m);
    h := AddToScene(a, b);
  }

  /**
   * `bundleSticks(app, toBundle)`: nothing for an empty list; otherwise the
   * new group is returned and the scene is `Bundled`. The pool is left as it
   * is (line 89 adds only the group to the scene).
   */
  method BundleSticks(app: App, toBundle: seq<NodeId>, m: MathLib) returns (bundle: Option<NodeId>)
    requires app.Valid() && DivisorsNonZero(m)
    requires forall c :: c in toBundle ==> c in app.scene.nodes
    requires |toBundle| <= app.sticksInABundle
    modifies app
    ensures app.sticksInScene == old(app.sticksInScene) && app.sticksInABundle == old(app.sticksInABundle)
    ensures app.possibleStickPositions == old(app.possibleStickPositions) && app.spawnerPosition == old(app.spawnerPosition)
    ensures app.stickRadius == old(app.stickRadius) && app.stickColour == old(app.stickColour)
    ensures app.Valid()
    ensures toBundle == [] ==> bundle == None && app.scene == old(app.scene)
    ensures toBundle != [] ==>
      && bundle == Some(old(app.scene.nextId) + 1)
      && Bundled(old(app.scene), app.scene, toBundle, app.sticksInABundle, m)
    ensures old(app.PoolExact()) && (forall c :: c in toBundle ==> Attached(old(app.scene), c)) ==> app.PoolExact()
  {
    if toBundle == [] {
      return None;
    }
    ghost var g, pool := app.scene, app.sticksInScene;
    ghost var exact := ExactPool(g, pool);
    var b := app.scene.nextId + 1;
    var h := BundleScene(app.scene, toBundle, app.sticksInABundle, m);
    BundledNewNodes(g, h, toBundle, app.sticksInABundle, m);
    BundledContext(g, h, b, BundleCentre(g.nodes[toBundle[0]], app.sticksInABundle, m), toBundle, pool, exact);
    app.scene := h;
    bundle := Some(b);
  }

  /**
   * An accepted selection bundles into a group one order above every member:
   * `canBundle` lets through only members of one order, and line 47 takes the
   * order of the first.
   */
  lemma BundleOrderAbove(g: Graph, h: Graph, toBundle: seq<NodeId>, base: int, m: MathLib)
    requires Wf(g) && Wf(h) && DivisorsNonZero(m) && MinBundleSize <= base <= MaxBundleSize
    requires (forall c :: c in toBundle ==> c in g.nodes) && CanBundle(g, toBundle, base) == None
    requires BundleMade(g, h, toBundle, base, m)
    ensures forall c :: c in toBundle ==> h.nodes[g.nextId + 1].order == g.nodes[c].order + 1
    ensures h.nodes[g.nextId + 1].radius == RadiusOf(m, base, g.nodes[toBundle[0]].radius)
  {
    forall c | c in toBundle
      ensures g.nodes[c].order == g.nodes[toBundle[0]].order
    {
      var i :| 0 <= i < |toBundle| && toBundle[i] == c;
    }
  }

  // ---------------------------------------------------------------------------
  // The places of the members (line 81)
  // ---------------------------------------------------------------------------

  /**
   * The place line 81 reads for member `i` as written: `positions[i]`, with
   * `positions` the `positionLookup` table alone; `None` where the array has
   * no such entry, where reading `.x` of `undefined` throws.
   */
  function AsWrittenPlace(m: MathLib, base: int, first: Node, i: nat): (p: Option<Point>)
    requires DivisorsNonZero(m) && MinBundleSize <= base <= MaxBundleSize
    ensures p.Some? <==> i < base - 1
  {
    var ps := Positions(m, base, first.radius, first.position.x, first.position.y).value;
    if i < |ps| then Some(ps[i]) else None
  }

  /**
   * As written, every selection `canBundle` accepts has a last member with no
   * place, so `bundleSticks` throws on it.
   */
  lemma AsWrittenPlaceMissing(g: Graph, toBundle: seq<NodeId>, base: int, m: MathLib)
    requires DivisorsNonZero(m) && MinBundleSize <= base <= MaxBundleSize
    requires (forall c :: c in toBundle ==> c in g.nodes) && CanBundle(g, toBundle, base) == None
    ensures toBundle != [] && AsWrittenPlace(m, base, g.nodes[toBundle[0]], |toBundle| - 1) == None
  {
  }

  /**
   * With the first member kept on its own spot (the anchor the table is built
   * around), every member of an accepted selection has a place: member 0 the
   * anchor, member `i > 0` entry `i - 1` of `positionLookup`.
   */
  lemma PlacesCover(g: Graph, toBundle: seq<NodeId>, base: int, m: MathLib)
    requires DivisorsNonZero(m) && MinBundleSize <= base <= MaxBundleSize
    requires (forall c :: c in toBundle ==> c in g.nodes) && CanBundle(g, toBundle, base) == None
    ensures var first := g.nodes[toBundle[0]];
      var places := Places(m, base, first.radius, first.position.x, first.position.y);
      && |toBundle| == |places|
      && places[0] == Point(first.position.x, first.position.y)
      && forall i :: 0 < i < |toBundle| ==> Some(places[i]) == AsWrittenPlace(m, base, first, i - 1)
  {
  }

  // ---------------------------------------------------------------------------
  // removeSticks
  // ---------------------------------------------------------------------------

  /**
   * The leaves under each object of `objs`, subtree after subtree, each in
   * pre-order: what `removeSticks` takes out of the pool, in that order.
   */
  function AllLeaves(g: Graph, objs: seq<NodeId>): seq<NodeId>
    requires Wf(g) && forall x :: x in objs ==> x in g.nodes
    decreases |objs|
  {
    if objs == [] then []
    else AllLeaves(g, objs[..|objs| - 1]) + Leaves(g, Preorder(g, objs[|objs| - 1]))
  }

  /** The leaves under the objects are exactly the childless objects with one of them on their parent chain. */
  lemma {:induction false} AllLeavesMembers(g: Graph, objs: seq<NodeId>, y: NodeId)
    requires Wf(g) && forall x :: x in objs ==> x in g.nodes
    ensures y in AllLeaves(g, objs) <==> IsLeaf(g, y) && UnderSome(g, objs, y)
    decreases |objs|
  {
    if objs != [] {
      var init, o := objs[..|objs| - 1], objs[|objs| - 1];
      AllLeavesMembers(g, init, y);
      LeavesMembers(g, Preorder(g, o), y);
      PreorderMembers(g, o, y);
      if IsLeaf(g, y) {
        if UnderSome(g, objs, y) {
          var i :| 0 <= i < |objs| && IsAncestorOrSelf(g, objs[i], y);
          if i < |objs| - 1 {
            assert init[i] == objs[i];
          }
        }
        if UnderSome(g, init, y) {
          var i :| 0 <= i < |init| && IsAncestorOrSelf(g, init[i], y);
          assert objs[i] == init[i];
        }
      }
    }
  }

  /**
   * `h` is `g` after `scene.remove(object)` for every object of `objs`: an
   * object hanging directly off the scene is taken off it; an object with
   * another parent is not a child of the scene and stays where it is.
   */
  predicate RemovedFromScene(g: Graph, h: Graph, objs: seq<NodeId>) {
    && h.nextId == g.nextId && h.nodes.Keys == g.nodes.Keys
    && forall x :: x in g.nodes ==>
         h.nodes[x] == if x in objs && g.nodes[x].parent == InScene then g.nodes[x].(parent := Detached) else g.nodes[x]
  }

  /** One more `scene.remove`. */
  lemma RemovedStep(g0: Graph, g: Graph, objs: seq<NodeId>, i: nat)
    requires i < |objs| && objs[i] in g0.nodes && RemovedFromScene(g0, g, objs[..i])
    ensures RemovedFromScene(g0, RemoveFromScene(g, objs[i]), objs[..i + 1])
  {
    var h := RemoveFromScene(g, objs[i]);
    PrefixSnoc(objs, i, []);
    forall x | x in g0.nodes
      ensures h.nodes[x] ==
        if x in objs[..i + 1] && g0.nodes[x].parent == InScene then g0.nodes[x].(parent := Detached) else g0.nodes[x]
    {
    }
  }

  /** Taking objects off the scene keeps the graph well formed, its child links, and which objects are sticks. */
  lemma RemovedShapes(g: Graph, h: Graph, objs: seq<NodeId>)
    requires Wf(g) && Wf(h) && ShapesOk(g) && RemovedFromScene(g, h, objs)
    ensures SameChildren(g, h) && ShapesOk(h)
    ensures forall x :: IsStick(h, x) == IsStick(g, x)
  {
    forall x | x in h.nodes
      ensures ShapeOk(h.nodes[x])
    {
      assert ShapeOk(g.nodes[x]);
    }
  }

  /**
   * After taking objects that hang off the scene off it, an object is
   * attached exactly when it was and none of them is on its parent chain.
   */
  lemma {:induction false} RemovedAttached(g: Graph, h: Graph, objs: seq<NodeId>, x: NodeId)
    requires Wf(g) && Wf(h) && RemovedFromScene(g, h, objs) && x in g.nodes
    requires forall o :: o in objs ==> o in g.nodes && g.nodes[o].parent == InScene
    ensures Attached(h, x) == (Attached(g, x) && !UnderSome(g, objs, x))
    decreases g.nextId - x
  {
    assert NodeWf(g, x);
    UnderSomeStep(g, objs, x);
    if x !in objs && g.nodes[x].parent.ParentNode? {
      RemovedAttached(g, h, objs, g.nodes[x].parent.id);
    }
  }

  /** What is left of a pool without duplicates: every object but the leaves under `objs`. */
  lemma RemovedLeavesGone(g: Graph, pool: seq<NodeId>, objs: seq<NodeId>)
    requires Wf(g) && (forall x :: x in objs ==> x in g.nodes) && NoDups(pool)
    ensures NoDups(RemoveEach<NodeId>(pool, AllLeaves(g, objs)))
    ensures forall y :: y in RemoveEach<NodeId>(pool, AllLeaves(g, objs)) <==>
      y in pool && !(IsLeaf(g, y) && UnderSome(g, objs, y))
  {
    RemoveEachNoDups(pool, AllLeaves(g, objs));
    forall y
      ensures y in AllLeaves(g, objs) <==> IsLeaf(g, y) && UnderSome(g, objs, y)
    {
      AllLeavesMembers(g, objs, y);
    }
  }

  /**
   * Removing objects that hang off the scene keeps the pool exact: the
   * sticks under them leave the pool as they leave the scene.
   */
  lemma RemovedExactPool(g: Graph, h: Graph, objs: seq<NodeId>, pool: seq<NodeId>)
    requires Wf(g) && Wf(h) && ShapesOk(g) && RemovedFromScene(g, h, objs)
    requires forall o :: o in objs ==> o in g.nodes && g.nodes[o].parent == InScene
    requires NoDups(pool) && ExactPool(g, pool)
    ensures ExactPool(h, RemoveEach<NodeId>(pool, AllLeaves(g, objs)))
  {
    RemovedLeavesGone(g, pool, objs);
    RemovedShapes(g, h, objs);
    forall x | x in h.nodes
      ensures Attached(h, x) == (Attached(g, x) && !UnderSome(g, objs, x))
    {
      RemovedAttached(g, h, objs, x);
    }
  }

  /** One round of `removeSticks`' loop. */
  lemma RemoveSticksStep(g0: Graph, pool0: seq<NodeId>, objs: seq<NodeId>, i: nat, g: Graph, pool: seq<NodeId>)
    requires Wf(g0) && ShapesOk(g0) && i < |objs| && (forall x :: x in objs ==> x in g0.nodes)
    requires Wf(g) && RemovedFromScene(g0, g, objs[..i]) && pool == RemoveEach<NodeId>(pool0, AllLeaves(g0, objs[..i]))
    ensures var g' := RemoveFromScene(g, objs[i]);
      && Wf(g') && RemovedFromScene(g0, g', objs[..i + 1])
      && RemoveEach<NodeId>(pool, Leaves(g, Preorder(g, objs[i]))) == RemoveEach<NodeId>(pool0, AllLeaves(g0, objs[..i + 1]))
  {
    var o := objs[i];
    RemoveFromSceneWf(g, o);
    RemovedStep(g0, g, objs, i);
    RemovedShapes(g0, g, objs[..i]);
    PreorderSameChildren(g0, g, o);
    LeavesSameChildren(g0, g, Preorder(g0, o));
    assert objs[..i + 1][..i] == objs[..i];
    RemoveEachAppend<NodeId>(pool0, AllLeaves(g0, objs[..i]), Leaves(g0, Preorder(g0, o)));
  }

  /**
   * `removeSticks(app, toRemove)`: for each object in turn, the leaves under
   * it leave the pool and the object leaves the scene.
   */
  method RemoveSticks(app: App, toRemove: seq<NodeId>)
    requires app.Valid() && forall x :: x in toRemove ==> x in app.scene.nodes
    modifies app
    ensures app.Valid()
    ensures RemovedFromScene(old(app.scene), app.scene, toRemove)
    ensures app.sticksInScene == RemoveEach<NodeId>(old(app.sticksInScene), AllLeaves(old(app.scene), toRemove))
    ensures old(app.PoolExact()) && (forall o :: o in toRemove ==> old(app.scene).nodes[o].parent == InScene) ==>
      app.PoolExact()
    ensures app.sticksInABundle == old(app.sticksInABundle) && app.possibleStickPositions == old(app.possibleStickPositions)
    ensures app.spawnerPosition == old(app.spawnerPosition)
    ensures app.stickRadius == old(app.stickRadius) && app.stickColour == old(app.stickColour)
  {
    ghost var g0, pool0 := app.scene, app.sticksInScene;
    ghost var exact := ExactPool(g0, pool0);
    RemoveEachObject(app, toRemove);
    RemovedFinish(g0, app.scene, toRemove, pool0, exact);
  }

  /** The loop of `removeSticks`. */
  method RemoveEachObject(app: App, toRemove: seq<NodeId>)
    requires Wf(app.scene) && ShapesOk(app.scene) && forall x :: x in toRemove ==> x in app.scene.nodes
    modifies app
    ensures Wf(app.scene) && RemovedFromScene(old(app.scene), app.scene, toRemove)
    ensures app.sticksInScene == RemoveEach<NodeId>(old(app.sticksInScene), AllLeaves(old(app.scene), toRemove))
    ensures app.sticksInABundle == old(app.sticksInABundle) && app.possibleStickPositions == old(app.possibleStickPositions)
    ensures app.spawnerPosition == old(app.spawnerPosition)
    ensures app.stickRadius == old(app.stickRadius) && app.stickColour == old(app.stickColour)
  {
    ghost var g0, pool0 := app.scene, app.sticksInScene;
    for i := 0 to |toRemove|
      invariant Wf(app.scene) && RemovedFromScene(g0, app.scene, toRemove[..i])
      invariant app.sticksInScene == RemoveEach<NodeId>(pool0, AllLeaves(g0, toRemove[..i]))
      invariant app.sticksInABundle == old(app.sticksInABundle) && app.possibleStickPositions == old(app.possibleStickPositions)
      invariant app.spawnerPosition == old(app.spawnerPosition)
      invariant app.stickRadius == old(app.stickRadius) && app.stickColour == old(app.stickColour)
    {
      RemoveSticksStep(g0, pool0, toRemove, i, app.scene, app.sticksInScene);
      RemoveObject(app, toRemove[i]);
    }
    assert toRemove[..|toRemove|] == toRemove;
  }

  /** Lines 102-103 of `removeSticks` for one object. */
  method RemoveObject(app: App, obj: NodeId)
    requires Wf(app.scene) && obj in app.scene.nodes
    modifies app
    ensures app.sticksInScene == RemoveEach<NodeId>(old(app.sticksInScene), Leaves(old(app.scene), Preorder(old(app.scene), obj)))
    ensures app.scene == RemoveFromScene(old(app.scene), obj)
    ensures app.sticksInABundle == old(app.sticksInABundle) && app.possibleStickPositions == old(app.possibleStickPositions)
    ensures app.spawnerPosition == old(app.spawnerPosition)
    ensures app.stickRadius == old(app.stickRadius) && app.stickColour == old(app.stickColour)
  {
    var list := RemoveAllChildrenFromList(app.scene, obj, app.sticksInScene);
    app.sticksInScene := list;
    app.scene := RemoveFromScene(app.scene, obj);
  }

  /** The context after `removeSticks` is valid again, and exact when it was and every object hung off the scene. */
  lemma RemovedFinish(g: Graph, h: Graph, objs: seq<NodeId>, pool: seq<NodeId>, exact: bool)
    requires Wf(g) && Wf(h) && ShapesOk(g) && NoDups(pool) && PoolOk(g, pool)
    requires (forall x :: x in objs ==> x in g.nodes) && RemovedFromScene(g, h, objs)
    requires exact == ExactPool(g, pool)
    ensures var pool' := RemoveEach<NodeId>(pool, AllLeaves(g, objs));
      && ShapesOk(h) && NoDups(pool') && PoolOk(h, pool')
      && (exact && (forall o :: o in objs ==> g.nodes[o].parent == InScene) ==> ExactPool(h, pool'))
  {
    RemovedShapes(g, h, objs);
    RemovedLeavesGone(g, pool, objs);
    if exact && (forall o :: o in objs ==> g.nodes[o].parent == InScene) {
      RemovedExactPool(g, h, objs, pool);
    }
  }

  // ---------------------------------------------------------------------------
  // unbundleSticks
  // ---------------------------------------------------------------------------

  /** A stick sent back: it is put at `at` and will move towards where it was. */
  function SendBack(g: Graph, s: NodeId, at: Vec3): (h: Graph)
    requires s in g.nodes
    ensures SameStructure(g, h)
  {
    g.(nodes := g.nodes[s := g.nodes[s].(desired := Some(g.nodes[s].position), position := at)])
  }

  /** Sending back a stick of the pool keeps the graph, the pool and its exactness as they were. */
  lemma SendBackPool(g: Graph, pool: seq<NodeId>, s: NodeId, at: Vec3)
    requires Wf(g) && ShapesOk(g) && PoolOk(g, pool) && s in pool
    ensures Wf(SendBack(g, s, at)) && ShapesOk(SendBack(g, s, at)) && PoolOk(SendBack(g, s, at), pool)
    ensures ExactPool(g, pool) ==> ExactPool(SendBack(g, s, at), pool)
  {
    var h := SendBack(g, s, at);
    SameStructureWf(g, h);
    assert ShapeOk(h.nodes[s]);
    forall x | x in g.nodes
      ensures Attached(h, x) == Attached(g, x)
    {
      SameStructureAttached(g, h, x);
    }
  }

  /**
   * Objects other than the childless ones in `news`, which are nobody's
   * ancestors, keep their world position when only those have changed.
   */
  lemma PlacedWorld(g0: Graph, g: Graph, news: seq<NodeId>, f: NodeId)
    requires Wf(g0) && Wf(g) && SameStructure(g0, g) && f in g0.nodes && f !in news
    requires forall x :: x in g0.nodes && x !in news ==> g.nodes[x] == g0.nodes[x]
    requires forall j :: 0 <= j < |news| ==> news[j] in g0.nodes && g0.nodes[news[j]].children == []
    ensures WorldPosition(g, f) == WorldPosition(g0, f)
  {
    forall y | y in g0.nodes && IsAncestorOrSelf(g0, y, f)
      ensures y in g.nodes && g.nodes[y].parent == g0.nodes[y].parent && g.nodes[y].position == g0.nodes[y].position
    {
      if y in news {
        var j :| 0 <= j < |news| && news[j] == y;
        LeafAncestor(g0, y, f);
      }
    }
    ChainSame(g0, g, f);
  }

  /**
   * Lines 121-124 of `unbundleSticks` as intended: new stick `i` will move back
   * to where it spawned, and is put where the old stick `flattened[i]` is.
   */
  method PlaceNewSticks(app: App, newSticks: seq<NodeId>, flattened: seq<NodeId>)
    requires app.Valid() && NoDups(newSticks) && |flattened| == |newSticks|
    requires forall j :: 0 <= j < |newSticks| ==> IsStick(app.scene, newSticks[j]) && newSticks[j] in app.sticksInScene
    requires forall f :: f in flattened ==> f in app.scene.nodes && f !in newSticks
    modifies app
    ensures app.Valid() && SameStructure(old(app.scene), app.scene)
    ensures forall x :: x in old(app.scene).nodes && x !in newSticks ==> app.scene.nodes[x] == old(app.scene).nodes[x]
    ensures forall i :: 0 <= i < |newSticks| ==>
      app.scene.nodes[newSticks[i]] == old(app.scene).nodes[newSticks[i]].(
        desired := Some(old(app.scene).nodes[newSticks[i]].position),
        position := WorldPosition(old(app.scene), flattened[i]))
    ensures old(app.PoolExact()) ==> app.PoolExact()
    ensures app.sticksInScene == old(app.sticksInScene)
    ensures app.sticksInABundle == old(app.sticksInABundle) && app.possibleStickPositions == old(app.possibleStickPositions)
    ensures app.spawnerPosition == old(app.spawnerPosition)
    ensures app.stickRadius == old(app.stickRadius) && app.stickColour == old(app.stickColour)
  {
    ghost var g0 := app.scene;
    ghost var exact := app.PoolExact();
    forall j | 0 <= j < |newSticks|
      ensures newSticks[j] in g0.nodes && g0.nodes[newSticks[j]].children == []
    {
      assert IsStick(g0, newSticks[j]);
    }
    for i := 0 to |newSticks|
      invariant app.Valid() && SameStructure(g0, app.scene)
      invariant PlacedUpTo(g0, app.scene, newSticks, flattened, i)
      invariant exact ==> app.PoolExact()
      invariant app.sticksInScene == old(app.sticksInScene)
      invariant app.sticksInABundle == old(app.sticksInABundle) && app.possibleStickPositions == old(app.possibleStickPositions)
      invariant app.spawnerPosition == old(app.spawnerPosition)
      invariant app.stickRadius == old(app.stickRadius) && app.stickColour == old(app.stickColour)
    {
      ghost var g := app.scene;
      PlaceStep(g0, g, newSticks, flattened, i);
      SendStickBack(app, newSticks[i], flattened[i]);
      assert app.scene == SendBack(g, newSticks[i], WorldPosition(g0, flattened[i]));
    }
  }

  /** The first `i` of `newSticks` are sent back to where their old sticks are in `g0`, and nothing else has changed. */
  ghost predicate PlacedUpTo(g0: Graph, g: Graph, newSticks: seq<NodeId>, flattened: seq<NodeId>, i: nat)
    requires Wf(g0) && SameStructure(g0, g) && i <= |newSticks| <= |flattened|
    requires forall j :: 0 <= j < |newSticks| ==> newSticks[j] in g0.nodes
    requires forall f :: f in flattened ==> f in g0.nodes
  {
    && (forall x :: x in g0.nodes && x !in newSticks[..i] ==> g.nodes[x] == g0.nodes[x])
    && (forall j :: 0 <= j < i ==>
         g.nodes[newSticks[j]] == g0.nodes[newSticks[j]].(
           desired := Some(g0.nodes[newSticks[j]].position),
           position := WorldPosition(g0, flattened[j])))
  }

  /** Sending back new stick `i` to where `flattened[i]` is extends what has been placed by one. */
  lemma PlaceStep(g0: Graph, g: Graph, newSticks: seq<NodeId>, flattened: seq<NodeId>, i: nat)
    requires Wf(g0) && Wf(g) && SameStructure(g0, g) && NoDups(newSticks)
    requires i < |newSticks| == |flattened|
    requires forall j :: 0 <= j < |newSticks| ==> newSticks[j] in g0.nodes && g0.nodes[newSticks[j]].children == []
    requires forall f :: f in flattened ==> f in g0.nodes && f !in newSticks
    requires PlacedUpTo(g0, g, newSticks, flattened, i)
    ensures flattened[i] in g.nodes && WorldPosition(g, flattened[i]) == WorldPosition(g0, flattened[i])
    ensures PlacedUpTo(g0, SendBack(g, newSticks[i], WorldPosition(g0, flattened[i])), newSticks, flattened, i + 1)
  {
    var f := flattened[i];
    assert f in flattened;
    assert forall j :: 0 <= j < i ==> newSticks[..i][j] == newSticks[j];
    PlacedWorld(g0, g, newSticks[..i], f);
    PlacedExtend(g0, g, newSticks, flattened, i);
  }

  /** Sending back new stick `i` to where `flattened[i]` is in `g0` places it and changes nothing else. */
  lemma PlacedExtend(g0: Graph, g: Graph, newSticks: seq<NodeId>, flattened: seq<NodeId>, i: nat)
    requires Wf(g0) && SameStructure(g0, g) && NoDups(newSticks)
    requires i < |newSticks| == |flattened|
    requires forall j :: 0 <= j < |newSticks| ==> newSticks[j] in g0.nodes
    requires forall f :: f in flattened ==> f in g0.nodes
    requires PlacedUpTo(g0, g, newSticks, flattened, i)
    ensures PlacedUpTo(g0, SendBack(g, newSticks[i], WorldPosition(g0, flattened[i])), newSticks, flattened, i + 1)
  {
    var s := newSticks[i];
    var h := SendBack(g, s, WorldPosition(g0, flattened[i]));
    forall j | 0 <= j < i
      ensures newSticks[j] != s
    {
    }
    assert s !in newSticks[..i];
    PrefixSnoc(newSticks, i, []);
    forall x | x in g0.nodes && x !in newSticks[..i + 1]
      ensures h.nodes[x] == g0.nodes[x]
    {
      assert x != s && x !in newSticks[..i];
    }
    forall j | 0 <= j < i + 1
      ensures h.nodes[newSticks[j]] == g0.nodes[newSticks[j]].(
        desired := Some(g0.nodes[newSticks[j]].position),
        position := WorldPosition(g0, flattened[j]))
    {
      if j == i {
        assert g.nodes[s] == g0.nodes[s];
      }
    }
  }

  /** One round of the loop of `unbundleSticks`' placing. */
  method SendStickBack(app: App, s: NodeId, f: NodeId)
    requires app.Valid() && s in app.sticksInScene && f in app.scene.nodes
    modifies app
    ensures app.Valid()
    ensures app.scene == SendBack(old(app.scene), s, WorldPosition(old(app.scene), f))
    ensures old(app.PoolExact()) ==> app.PoolExact()
    ensures app.sticksInScene == old(app.sticksInScene)
    ensures app.sticksInABundle == old(app.sticksInABundle) && app.possibleStickPositions == old(app.possibleStickPositions)
    ensures app.spawnerPosition == old(app.spawnerPosition)
    ensures app.stickRadius == old(app.stickRadius) && app.stickColour == old(app.stickColour)
  {
    var at := WorldPosition(app.scene, f);
    SendBackPool(app.scene, app.sticksInScene, s, at);
    app.scene := SendBack(app.scene, s, at);
  }

  /**
   * `g` and `pool` are `g0` and `pool0` after lines 117-124 of
   * `unbundleSticks`: one new stick per stick of `flattened` joins the pool,
   * hanging off the scene where that stick is and with somewhere to move to;
   * every other object is as it was.
   */
  ghost predicate Placed(g0: Graph, pool0: seq<NodeId>, g: Graph, pool: seq<NodeId>, flattened: seq<NodeId>, newSticks: seq<NodeId>)
    requires Wf(g0)
  {
    && pool == pool0 + newSticks
    && |newSticks| == |flattened| && g.nextId == g0.nextId + |newSticks|
    && (forall j :: 0 <= j < |newSticks| ==> newSticks[j] == g0.nextId + j)
    && (forall x :: x in g.nodes <==> x in g0.nodes || x in newSticks)
    && Keeps(g0, g)
    && (forall j :: 0 <= j < |newSticks| ==>
         && IsStick(g, newSticks[j]) && g.nodes[newSticks[j]].parent == InScene && flattened[j] in g0.nodes
         && g.nodes[newSticks[j]].position == WorldPosition(g0, flattened[j])
         && g.nodes[newSticks[j]].desired.Some?)
  }

  /**
   * The sticks spawned for a bundle are distinct sticks of the pool, none of
   * them one of the old sticks, which keep their world positions.
   */
  lemma SpawnedApart(g0: Graph, g1: Graph, pool0: seq<NodeId>, pool1: seq<NodeId>, newSticks: seq<NodeId>, flattened: seq<NodeId>)
    requires Wf(g0) && Wf(g1) && Grown(g0, pool0, g1, pool1, newSticks)
    requires forall f :: f in flattened ==> f in g0.nodes
    ensures NoDups(newSticks)
    ensures forall j :: 0 <= j < |newSticks| ==> IsStick(g1, newSticks[j]) && newSticks[j] in pool1
    ensures forall f :: f in flattened ==> f in g1.nodes && f !in newSticks && WorldPosition(g1, f) == WorldPosition(g0, f)
  {
    forall f | f in flattened
      ensures f in g1.nodes && f !in newSticks && WorldPosition(g1, f) == WorldPosition(g0, f)
    {
      KeepsChain(g0, g1, f);
      assert NodeWf(g0, f);
      assert forall j :: 0 <= j < |newSticks| ==> newSticks[j] != f;
    }
  }

  /** Spawning keeps the old objects, and placing touches only the new sticks. */
  lemma OldKeptByPlacing(g0: Graph, g1: Graph, g2: Graph, newSticks: seq<NodeId>)
    requires Wf(g0) && Keeps(g0, g1) && (forall j :: 0 <= j < |newSticks| ==> newSticks[j] == g0.nextId + j)
    requires forall x :: x in g1.nodes && x !in newSticks ==> x in g2.nodes && g2.nodes[x] == g1.nodes[x]
    ensures Keeps(g0, g2)
  {
    forall x | x in g0.nodes
      ensures x in g2.nodes && g2.nodes[x] == g0.nodes[x]
    {
      assert NodeWf(g0, x);
      assert forall j :: 0 <= j < |newSticks| ==> newSticks[j] != x;
    }
  }

  /** Spawning, then placing the new sticks, gives `Placed`. */
  lemma PlacedHolds(g0: Graph, pool0: seq<NodeId>, g1: Graph, pool1: seq<NodeId>, g2: Graph,
                    flattened: seq<NodeId>, newSticks: seq<NodeId>)
    requires Wf(g0) && Wf(g1) && |newSticks| == |flattened|
    requires Grown(g0, pool0, g1, pool1, newSticks)
    requires forall f :: f in flattened ==> f in g0.nodes && WorldPosition(g1, f) == WorldPosition(g0, f)
    requires SameStructure(g1, g2) && forall x :: x in g1.nodes && x !in newSticks ==> g2.nodes[x] == g1.nodes[x]
    requires forall j :: 0 <= j < |newSticks| ==>
      g2.nodes[newSticks[j]] == g1.nodes[newSticks[j]].(
        desired := Some(g1.nodes[newSticks[j]].position),
        position := WorldPosition(g1, flattened[j]))
    ensures Placed(g0, pool0, g2, pool1, flattened, newSticks)
  {
    OldKeptByPlacing(g0, g1, g2, newSticks);
    forall j | 0 <= j < |newSticks|
      ensures IsStick(g2, newSticks[j]) && g2.nodes[newSticks[j]].parent == InScene && flattened[j] in g0.nodes
      ensures g2.nodes[newSticks[j]].position == WorldPosition(g0, flattened[j])
      ensures g2.nodes[newSticks[j]].desired.Some?
    {
      assert newSticks[j] in newSticks && flattened[j] in flattened;
    }
    assert g2.nodes.Keys == g1.nodes.Keys;
    forall x
      ensures x in g2.nodes <==> x in g0.nodes || x in newSticks
    {
      assert x in g2.nodes <==> x in g1.nodes;
    }
  }

  /** Lines 117-124 of `unbundleSticks`: spawn one new stick per stick of `flattened` and place it. */
  method SpawnAndPlace(app: App, flattened: seq<NodeId>, overlaps: (Vec3, Vec3) -> bool, choice: nat -> nat, jitter: nat -> Vec3)
    returns (newSticks: seq<NodeId>)
    requires app.Valid() && forall f :: f in flattened ==> f in app.scene.nodes
    modifies app
    ensures app.Valid()
    ensures Placed(old(app.scene), old(app.sticksInScene), app.scene, app.sticksInScene, flattened, newSticks)
    ensures old(app.PoolExact()) ==> app.PoolExact()
    ensures app.sticksInABundle == old(app.sticksInABundle) && app.possibleStickPositions == old(app.possibleStickPositions)
    ensures app.spawnerPosition == old(app.spawnerPosition)
    ensures app.stickRadius == old(app.stickRadius) && app.stickColour == old(app.stickColour)
  {
    ghost var g0, pool0 := app.scene, app.sticksInScene;
    newSticks := app.SpawnSticks(|flattened|, overlaps, choice, jitter);
    ghost var g1, pool1 := app.scene, app.sticksInScene;
    SpawnedApart(g0, g1, pool0, pool1, newSticks, flattened);
    PlaceNewSticks(app, newSticks, flattened);
    PlacedHolds(g0, pool0, g1, pool1, app.scene, flattened, newSticks);
  }

  /**
   * `g` is `g0` after one object is unbundled: `Placed`, and then the object
   * is taken off the scene when it hung off it.
   */
  ghost predicate Unbundled(g0: Graph, g: Graph, obj: NodeId, flattened: seq<NodeId>, newSticks: seq<NodeId>)
    requires Wf(g0)
  {
    && |newSticks| == |flattened| && g.nextId == g0.nextId + |newSticks|
    && (forall j :: 0 <= j < |newSticks| ==> newSticks[j] == g0.nextId + j)
    && (forall x :: x in g.nodes <==> x in g0.nodes || x in newSticks)
    && (forall j :: 0 <= j < |newSticks| ==>
         && IsStick(g, newSticks[j]) && g.nodes[newSticks[j]].parent == InScene && flattened[j] in g0.nodes
         && g.nodes[newSticks[j]].position == WorldPosition(g0, flattened[j])
         && g.nodes[newSticks[j]].desired.Some?)
    && (forall x :: x in g0.nodes ==>
         g.nodes[x] == if x == obj && g0.nodes[x].parent == InScene then g0.nodes[x].(parent := Detached) else g0.nodes[x])
  }

  /** Placing, then removing the object, unbundles it. */
  lemma UnbundledHolds(g0: Graph, pool0: seq<NodeId>, g2: Graph, pool2: seq<NodeId>, g3: Graph,
                       obj: NodeId, flattened: seq<NodeId>, newSticks: seq<NodeId>)
    requires Wf(g0) && obj in g0.nodes
    requires Placed(g0, pool0, g2, pool2, flattened, newSticks) && RemovedFromScene(g2, g3, [obj])
    ensures Unbundled(g0, g3, obj, flattened, newSticks)
  {
    assert NodeWf(g0, obj);
    forall j | 0 <= j < |newSticks|
      ensures && IsStick(g3, newSticks[j]) && g3.nodes[newSticks[j]].parent == InScene && flattened[j] in g0.nodes
              && g3.nodes[newSticks[j]].position == WorldPosition(g0, flattened[j])
              && g3.nodes[newSticks[j]].desired.Some?
    {
      assert newSticks[j] in g2.nodes && newSticks[j] !in [obj];
      assert g3.nodes[newSticks[j]] == g2.nodes[newSticks[j]];
    }
    forall x
      ensures x in g3.nodes <==> x in g0.nodes || x in newSticks
    {
      assert x in g3.nodes <==> x in g2.nodes;
    }
    forall x | x in g0.nodes
      ensures g3.nodes[x] == if x == obj && g0.nodes[x].parent == InScene then g0.nodes[x].(parent := Detached) else g0.nodes[x]
    {
      assert g2.nodes[x] == g0.nodes[x];
      assert x in [obj] <==> x == obj;
    }
  }

  /**
   * Unbundling a bundle hanging off the scene, with the pool exact, takes
   * out of the pool as many sticks as it spawned: the leaves under the
   * bundle that are in the pool are exactly its sticks.
   */
  lemma UnbundledLength(g0: Graph, pool0: seq<NodeId>, g2: Graph, pool2: seq<NodeId>, obj: NodeId,
                        flattened: seq<NodeId>, newSticks: seq<NodeId>)
    requires Wf(g0) && Wf(g2) && ExactPool(g0, pool0) && PoolOk(g0, pool0) && NoDups(pool2)
    requires obj in g0.nodes && g0.nodes[obj].parent == InScene
    requires Placed(g0, pool0, g2, pool2, flattened, newSticks)
    requires NoDups(flattened) && forall x :: x in flattened <==> IsStick(g0, x) && IsAncestorOrSelf(g0, obj, x)
    ensures |RemoveEach<NodeId>(pool2, AllLeaves(g2, [obj]))| == |pool0|
  {
    var xs := AllLeaves(g2, [obj]);
    assert [obj][..0] == [] && AllLeaves(g2, []) == [];
    assert xs == AllLeaves(g2, []) + Leaves(g2, Preorder(g2, obj));
    forall x
      ensures x in flattened <==> x in xs && x in pool2
    {
      LeavesMembers(g2, Preorder(g2, obj), x);
      PreorderMembers(g2, obj, x);
      if x in g0.nodes {
        AncestorsKept(g0, g2, obj, x);
        if x in flattened {
          AttachedBelow(g0, obj, x);
        }
      } else if x in newSticks {
        var j :| 0 <= j < |newSticks| && newSticks[j] == x;
        assert x != obj;
      }
    }
    RemoveEachCount(pool2, xs, flattened);
  }

  /**
   * Lines 116-126 of `unbundleSticks` for one object: as many new sticks as
   * there are sticks under it are spawned and put where those sticks are,
   * each to move back to where it spawned; then the object is removed.
   */
  method UnbundleOne(app: App, obj: NodeId, overlaps: (Vec3, Vec3) -> bool, choice: nat -> nat, jitter: nat -> Vec3)
    returns (flattened: seq<NodeId>, newSticks: seq<NodeId>)
    requires app.Valid() && obj in app.scene.nodes
    modifies app
    ensures app.Valid()
    ensures flattened == Sticks(old(app.scene), Preorder(old(app.scene), obj)) && NoDups(flattened)
    ensures forall x :: x in flattened <==> IsStick(old(app.scene), x) && IsAncestorOrSelf(old(app.scene), obj, x)
    ensures Unbundled(old(app.scene), app.scene, obj, flattened, newSticks)
    ensures old(app.PoolExact()) && old(app.scene).nodes[obj].parent == InScene ==>
      app.PoolExact() && |app.sticksInScene| == |old(app.sticksInScene)|
    ensures app.sticksInABundle == old(app.sticksInABundle) && app.possibleStickPositions == old(app.possibleStickPositions)
    ensures app.spawnerPosition == old(app.spawnerPosition)
    ensures app.stickRadius == old(app.stickRadius) && app.stickColour == old(app.stickColour)
  {
    ghost var g0, pool0 := app.scene, app.sticksInScene;
    ghost var exact := app.PoolExact();
    flattened := FlattenBundle(app.scene, obj);
    newSticks := SpawnAndPlace(app, flattened, overlaps, choice, jitter);
    ghost var g2, pool2 := app.scene, app.sticksInScene;
    ghost var exact2 := app.PoolExact();
    if exact && g0.nodes[obj].parent == InScene {
      UnbundledLength(g0, pool0, g2, pool2, obj, flattened, newSticks);
      assert exact2;
      assert g2.nodes[obj] == g0.nodes[obj];
      assert forall o :: o in [obj] ==> g2.nodes[o].parent == InScene;
    }
    RemoveSticks(app, [obj]);
    ghost var pool3 := app.sticksInScene;
    ghost var exact3 := app.PoolExact();
    assert pool3 == RemoveEach<NodeId>(pool2, AllLeaves(g2, [obj]));
    if exact && g0.nodes[obj].parent == InScene {
      assert exact3 && |pool3| == |pool0|;
    }
    UnbundledHolds(g0, pool0, g2, pool2, app.scene, obj, flattened, newSticks);
  }

  /**
   * Line 123 of `unbundleSticks` as written: `object.position.add(p)` moves
   * the bundle's own position by `p` before copying it, so each new stick is
   * put at the previous target moved by the next old stick's local position,
   * the first one at the bundle's position moved by the first.
   */
  function AsWrittenTargets(p: Vec3, locals: seq<Vec3>): (ts: seq<Vec3>)
    ensures |ts| == |locals|
    ensures locals != [] ==> ts[0] == p.Plus(locals[0])
    ensures forall i :: 0 < i < |ts| ==> ts[i] == ts[i - 1].Plus(locals[i])
    decreases |locals|
  {
    if locals == [] then []
    else [p.Plus(locals[0])] + AsWrittenTargets(p.Plus(locals[0]), locals[1..])
  }

  /** The sum of a sequence of vectors, added from the front. */
  function Sum(vs: seq<Vec3>): Vec3 {
    if vs == [] then Zero else Sum(vs[..|vs| - 1]).Plus(vs[|vs| - 1])
  }

  /**
   * As written, the `i`-th new stick goes to the bundle's position moved by
   * the local positions of the first `i + 1` old sticks together.
   */
  lemma {:induction false} AsWrittenTargetsSum(p: Vec3, locals: seq<Vec3>, i: nat)
    requires i < |locals|
    ensures AsWrittenTargets(p, locals)[i] == p.Plus(Sum(locals[..i + 1]))
  {
    var ts := AsWrittenTargets(p, locals);
    if i == 0 {
      assert locals[..1][..0] == [];
    } else {
      AsWrittenTargetsSum(p, locals, i - 1);
      assert locals[..i + 1][..i] == locals[..i];
    }
  }

  /**
   * As written, a later new stick lands where its old stick is exactly when
   * the old sticks before it add up to nothing: otherwise it is shifted by
   * their sum. For a bundle at the origin with sticks at (1, 0, 0) and
   * (-1, 0, 0), the second new stick goes to the origin.
   */
  lemma {:induction false} AsWrittenTargetsDrift(p: Vec3, locals: seq<Vec3>, i: nat)
    requires 0 < i < |locals|
    ensures AsWrittenTargets(p, locals)[i] == p.Plus(locals[i]) <==> Sum(locals[..i]) == Zero
  {
    AsWrittenTargetsSum(p, locals, i);
    assert locals[..i + 1][..i] == locals[..i];
    ShiftedBy(p, Sum(locals[..i]), locals[i]);
  }

  /** Moving by `s` and then by `v` lands where moving by `v` does exactly when `s` is zero. */
  lemma ShiftedBy(p: Vec3, s: Vec3, v: Vec3)
    ensures p.Plus(s.Plus(v)) == p.Plus(v) <==> s == Zero
  {
    if p.Plus(s.Plus(v)) == p.Plus(v) {
      assert s.x == 0.0 && s.y == 0.0 && s.z == 0.0;
    }
  }

  /**
   * `h` is `g` after `unbundleSticks(app, objs)`: every `Group` of `objs`
   * that hung off the scene is taken off it, every other old object is as it
   * was, and every new object is a stick hanging off the scene.
   */
  ghost predicate GroupsUnbundled(g: Graph, h: Graph, objs: seq<NodeId>) {
    && g.nextId <= h.nextId
    && (forall x :: x in g.nodes ==>
         && x in h.nodes
         && h.nodes[x] == if x in objs && g.nodes[x].kind == Group && g.nodes[x].parent == InScene
                          then g.nodes[x].(parent := Detached) else g.nodes[x])
    && (forall x :: x in h.nodes && x !in g.nodes ==> g.nextId <= x && IsStick(h, x) && h.nodes[x].parent == InScene)
  }

  /** An object that is not a `Group` is skipped. */
  lemma UnbundleSkipStep(g0: Graph, g: Graph, objs: seq<NodeId>, i: nat)
    requires i < |objs| && objs[i] in g0.nodes && g0.nodes[objs[i]].kind != Group
    requires GroupsUnbundled(g0, g, objs[..i])
    ensures GroupsUnbundled(g0, g, objs[..i + 1])
  {
    PrefixSnoc(objs, i, []);
  }

  /** A `Group` is unbundled. */
  lemma UnbundleGroupStep(g0: Graph, g: Graph, h: Graph, objs: seq<NodeId>, i: nat, flattened: seq<NodeId>, newSticks: seq<NodeId>)
    requires Wf(g0) && Wf(g) && i < |objs| && objs[i] in g0.nodes
    requires GroupsUnbundled(g0, g, objs[..i]) && g.nodes[objs[i]].kind == Group
    requires Unbundled(g, h, objs[i], flattened, newSticks)
    ensures GroupsUnbundled(g0, h, objs[..i + 1])
  {
    PrefixSnoc(objs, i, []);
    var obj := objs[i];
    forall x | x in g0.nodes
      ensures x in h.nodes
      ensures h.nodes[x] == if x in objs[..i + 1] && g0.nodes[x].kind == Group && g0.nodes[x].parent == InScene
                            then g0.nodes[x].(parent := Detached) else g0.nodes[x]
    {
      assert x in g.nodes;
    }
    forall x | x in h.nodes && x !in g0.nodes
      ensures g0.nextId <= x && IsStick(h, x) && h.nodes[x].parent == InScene
    {
      if x !in g.nodes {
        var j :| 0 <= j < |newSticks| && newSticks[j] == x;
      }
    }
  }

  /**
   * `unbundleSticks(app, toUnbundle)`: every `Group` of the list is
   * unbundled in turn, anything else is skipped. Given no `Group`, nothing
   * changes; given distinct objects whose groups all hang off the scene, an
   * exact pool stays exact and keeps its length.
   */
  method UnbundleSticks(app: App, toUnbundle: seq<NodeId>, overlaps: (Vec3, Vec3) -> bool, choice: nat -> nat, jitter: nat -> Vec3)
    requires app.Valid() && forall x :: x in toUnbundle ==> x in app.scene.nodes
    modifies app
    ensures app.Valid()
    ensures GroupsUnbundled(old(app.scene), app.scene, toUnbundle)
    ensures (forall x :: x in toUnbundle ==> old(app.scene).nodes[x].kind != Group) ==>
      app.scene == old(app.scene) && app.sticksInScene == old(app.sticksInScene)
    ensures old(app.PoolExact()) && NoDups(toUnbundle) && GroupsInScene(old(app.scene), toUnbundle) ==>
      app.PoolExact() && |app.sticksInScene| == |old(app.sticksInScene)|
    ensures app.sticksInABundle == old(app.sticksInABundle) && app.possibleStickPositions == old(app.possibleStickPositions)
    ensures app.spawnerPosition == old(app.spawnerPosition)
    ensures app.stickRadius == old(app.stickRadius) && app.stickColour == old(app.stickColour)
  {
    ghost var g0, pool0 := app.scene, app.sticksInScene;
    ghost var exact := app.PoolExact() && NoDups(toUnbundle) && GroupsInScene(g0, toUnbundle);
    for i := 0 to |toUnbundle|
      invariant app.Valid() && GroupsUnbundled(g0, app.scene, toUnbundle[..i])
      invariant (forall x :: x in toUnbundle[..i] ==> g0.nodes[x].kind != Group) ==>
        app.scene == g0 && app.sticksInScene == pool0
      invariant exact ==> app.PoolExact() && |app.sticksInScene| == |pool0|
      invariant app.sticksInABundle == old(app.sticksInABundle) && app.possibleStickPositions == old(app.possibleStickPositions)
      invariant app.spawnerPosition == old(app.spawnerPosition)
      invariant app.stickRadius == old(app.stickRadius) && app.stickColour == old(app.stickColour)
    {
      var obj := toUnbundle[i];
      PrefixSnoc(toUnbundle, i, []);
      if app.scene.nodes[obj].kind == Group {
        ghost var g, pool := app.scene, app.sticksInScene;
        assert g0.nodes[obj].kind == Group && obj in toUnbundle[..i + 1];
        assert exact ==> obj !in toUnbundle[..i] && g.nodes[obj].parent == InScene;
        var flattened, newSticks := UnbundleOne(app, obj, overlaps, choice, jitter);
        UnbundleGroupStep(g0, g, app.scene, toUnbundle, i, flattened, newSticks);
        assert exact ==> app.PoolExact() && |app.sticksInScene| == |pool|;
      } else {
        UnbundleSkipStep(g0, app.scene, toUnbundle, i);
      }
    }
    assert toUnbundle[..|toUnbundle|] == toUnbundle;
  }

  /** Every `Group` of `objs` hangs off the scene. */
  ghost predicate GroupsInScene(g: Graph, objs: seq<NodeId>) {
    forall x :: x in objs && x in g.nodes && g.nodes[x].kind == Group ==> g.nodes[x].parent == InScene
  }

  // ---------------------------------------------------------------------------
  // unbundleExistingBundles (source/js/App.js)
  // ---------------------------------------------------------------------------

  /**
   * The loop of `unbundleExistingBundles`: the outermost group of every stick
   * of the pool that has one, each once.
   */
  method CollectBundles(g: Graph, pool: seq<NodeId>) returns (tops: seq<NodeId>)
    requires Wf(g) && forall s :: s in pool ==> s in g.nodes
    ensures NoDups(tops)
    ensures forall j :: 0 <= j < |pool| && LargestGroup(g, pool[j]) != pool[j] ==> LargestGroup(g, pool[j]) in tops
    ensures forall t :: t in tops ==> exists j :: 0 <= j < |pool| && LargestGroup(g, pool[j]) == t && t != pool[j]
  {
    tops := [];
    for i := 0 to |pool|
      invariant NoDups(tops)
      invariant forall j :: 0 <= j < i && LargestGroup(g, pool[j]) != pool[j] ==> LargestGroup(g, pool[j]) in tops
      invariant forall t :: t in tops ==> exists j :: 0 <= j < i && LargestGroup(g, pool[j]) == t && t != pool[j]
    {
      var top := LargestGroup(g, pool[i]);
      if top != pool[i] && top !in tops {
        tops := tops + [top];
      }
    }
  }

  /** An object hanging off the scene has every ancestor hanging off it. */
  lemma {:induction false} AttachedAbove(g: Graph, a: NodeId, x: NodeId)
    requires Wf(g) && x in g.nodes && IsAncestorOrSelf(g, a, x) && Attached(g, x)
    ensures a in g.nodes && Attached(g, a)
    decreases g.nextId - x
  {
    assert NodeWf(g, x);
    if x != a {
      AttachedAbove(g, a, g.nodes[x].parent.id);
    }
  }

  /**
   * Where only groups have children, the outermost group of an object
   * hanging off the scene hangs directly off it: a parent would be a group
   * and the climb would go on.
   */
  lemma TopInScene(g: Graph, x: NodeId)
    requires Wf(g) && ShapesOk(g) && x in g.nodes && Attached(g, x)
    ensures g.nodes[LargestGroup(g, x)].parent == InScene
  {
    var t := LargestGroup(g, x);
    AttachedAbove(g, t, x);
    assert NodeWf(g, t);
    assert g.nodes[t].parent.ParentNode? ==> ShapeOk(g.nodes[g.nodes[t].parent.id]);
  }

  /** Every bundle collected from an exact pool hangs off the scene. */
  lemma CollectedInScene(g: Graph, pool: seq<NodeId>, tops: seq<NodeId>)
    requires Wf(g) && ShapesOk(g) && PoolOk(g, pool) && ExactPool(g, pool)
    requires forall j :: 0 <= j < |pool| ==> pool[j] in g.nodes
    requires forall t :: t in tops ==> exists j :: 0 <= j < |pool| && LargestGroup(g, pool[j]) == t && t != pool[j]
    ensures forall t :: t in tops ==> t in g.nodes && g.nodes[t].parent == InScene
  {
    forall t | t in tops
      ensures t in g.nodes && g.nodes[t].parent == InScene
    {
      var j :| 0 <= j < |pool| && LargestGroup(g, pool[j]) == t && t != pool[j];
      assert pool[j] in pool;
      TopInScene(g, pool[j]);
    }
  }

  /** Taking an object off the scene takes everything under it off too, when nothing below it moved. */
  lemma {:induction false} CutBelow(g: Graph, h: Graph, a: NodeId, x: NodeId)
    requires Wf(g) && Wf(h) && x in g.nodes && IsAncestorOrSelf(g, a, x) && a in h.nodes && h.nodes[a].parent == Detached
    requires forall y :: y in g.nodes && g.nodes[y].parent.ParentNode? ==> y in h.nodes && h.nodes[y].parent == g.nodes[y].parent
    ensures x in h.nodes && !Attached(h, x)
    decreases g.nextId - x
  {
    if x != a {
      assert NodeWf(g, x);
      CutBelow(g, h, a, g.nodes[x].parent.id);
    }
  }

  /** Unbundling attaches no old object that was not attached before. */
  lemma {:induction false} AttachedBefore(g: Graph, h: Graph, objs: seq<NodeId>, x: NodeId)
    requires Wf(g) && Wf(h) && GroupsUnbundled(g, h, objs) && x in g.nodes && Attached(h, x)
    ensures Attached(g, x)
    decreases g.nextId - x
  {
    assert NodeWf(g, x);
    if g.nodes[x].parent.ParentNode? {
      AttachedBefore(g, h, objs, g.nodes[x].parent.id);
    }
  }

  /**
   * After the bundles of an exact pool are unbundled, an old stick hanging
   * off the scene has no parent object: had it one, its outermost group
   * would have been taken off the scene, and it with it.
   */
  lemma OldStickLoose(g: Graph, pool: seq<NodeId>, h: Graph, tops: seq<NodeId>, s: NodeId)
    requires Wf(g) && Wf(h) && ShapesOk(g) && PoolOk(g, pool) && ExactPool(g, pool)
    requires GroupsUnbundled(g, h, tops) && forall j :: 0 <= j < |pool| ==> pool[j] in g.nodes
    requires forall j :: 0 <= j < |pool| && LargestGroup(g, pool[j]) != pool[j] ==> LargestGroup(g, pool[j]) in tops
    requires forall t :: t in tops ==> t in g.nodes && g.nodes[t].parent == InScene
    requires s in g.nodes && IsStick(g, s) && Attached(g, s)
    ensures g.nodes[s].parent.ParentNode? ==> !Attached(h, s)
  {
    if g.nodes[s].parent.ParentNode? {
      var p := g.nodes[s].parent.id;
      assert NodeWf(g, s);
      assert ShapeOk(g.nodes[p]) && StepsUp(g, s);
      var t := LargestGroup(g, s);
      AncestorBound(g, p, s);
      AncestorBound(g, t, p);
      var i := AncestorChild(g, t, s);
      assert ShapeOk(g.nodes[t]);
      var j :| 0 <= j < |pool| && pool[j] == s;
      CutBelow(g, h, t, s);
    }
  }

  /**
   * After unbundling every collected bundle of an exact pool, no stick of the
   * new pool is in a bundle.
   */
  lemma NoBundlesLeft(g: Graph, pool: seq<NodeId>, h: Graph, pool': seq<NodeId>, tops: seq<NodeId>)
    requires Wf(g) && Wf(h) && ShapesOk(g) && ShapesOk(h) && PoolOk(g, pool) && ExactPool(g, pool)
    requires ExactPool(h, pool') && GroupsUnbundled(g, h, tops) && forall j :: 0 <= j < |pool| ==> pool[j] in g.nodes
    requires forall j :: 0 <= j < |pool| && LargestGroup(g, pool[j]) != pool[j] ==> LargestGroup(g, pool[j]) in tops
    requires forall t :: t in tops ==> t in g.nodes && g.nodes[t].parent == InScene
    ensures forall s :: s in pool' && s in h.nodes ==> !InBundle(h, s)
  {
    forall s | s in pool' && s in h.nodes
      ensures !InBundle(h, s)
    {
      assert IsStick(h, s) && Attached(h, s) && ShapeOk(h.nodes[s]);
      if s in g.nodes {
        AttachedBefore(g, h, tops, s);
        OldStickLoose(g, pool, h, tops, s);
      }
    }
  }

  /**
   * `unbundleExistingBundles`: the outermost group of every stick of the pool
   * that is in one is unbundled. With an exact pool, the pool stays exact,
   * keeps its length, and no stick of it is left in a bundle.
   */
  method UnbundleExistingBundles(app: App, overlaps: (Vec3, Vec3) -> bool, choice: nat -> nat, jitter: nat -> Vec3)
    requires app.Valid()
    modifies app
    ensures app.Valid()
    ensures old(app.PoolExact()) ==>
      && app.PoolExact() && |app.sticksInScene| == |old(app.sticksInScene)|
      && forall s :: s in app.sticksInScene ==> !InBundle(app.scene, s)
    ensures app.sticksInABundle == old(app.sticksInABundle) && app.possibleStickPositions == old(app.possibleStickPositions)
    ensures app.spawnerPosition == old(app.spawnerPosition)
    ensures app.stickRadius == old(app.stickRadius) && app.stickColour == old(app.stickColour)
  {
    ghost var g0, pool0 := app.scene, app.sticksInScene;
    ghost var exact := app.PoolExact();
    var tops := CollectBundles(app.scene, app.sticksInScene);
    if exact {
      CollectedInScene(g0, pool0, tops);
    }
    UnbundleSticks(app, tops, overlaps, choice, jitter);
    if exact {
      NoBundlesLeft(g0, pool0, app.scene, app.sticksInScene, tops);
    }
  }
}
