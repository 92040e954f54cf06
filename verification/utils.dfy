/**
 * The tree helpers of the demo: finding the outermost group of an object,
 * flattening a bundle into its sticks or a subtree into all its objects,
 * removing the leaves of a subtree from a list, and highlighting a subtree;
 * and the string logic of the colour parameter in the page's URL.
 */
module Utils {
  import opened Wrappers
  import opened Lists
  import opened SceneGraph

  // ---------------------------------------------------------------------------
  // getLargestGroup
  // ---------------------------------------------------------------------------

  /** The parent types that `getLargestGroup` climbs through. */
  predicate GroupLike(k: Kind) {
    k == Object3D || k == Group
  }

  /** The object's parent is an `Object3D` or a `Group`, so the walk goes on. */
  predicate StepsUp(g: Graph, n: NodeId)
    requires n in g.nodes && Wf(g)
  {
    assert NodeWf(g, n);
    g.nodes[n].parent.ParentNode? && GroupLike(g.nodes[g.nodes[n].parent.id].kind)
  }

  /** The outermost ancestor-or-self reached by climbing through group parents. */
  function LargestGroup(g: Graph, n: NodeId): (top: NodeId)
    requires Wf(g) && n in g.nodes
    ensures top in g.nodes && IsAncestorOrSelf(g, top, n)
    ensures !StepsUp(g, top)
    decreases g.nextId - n
  {
    assert NodeWf(g, n);
    if StepsUp(g, n) then LargestGroup(g, g.nodes[n].parent.id) else n
  }

  /** Climbing from the outermost group finds itself again. */
  lemma LargestGroupIdempotent(g: Graph, n: NodeId)
    requires Wf(g) && n in g.nodes
    ensures LargestGroup(g, LargestGroup(g, n)) == LargestGroup(g, n)
  {
  }

  /** `getLargestGroup(object)`: `null` for `null`, otherwise the walk up through group parents. */
  method GetLargestGroup(g: Graph, obj: Option<NodeId>) returns (r: Option<NodeId>)
    requires Wf(g) && (obj.Some? ==> obj.value in g.nodes)
    ensures obj.None? ==> r.None?
    ensures obj.Some? ==> r == Some(LargestGroup(g, obj.value))
  {
    if obj.None? {
      return None;
    }
    var n := obj.value;
    while g.nodes[n].parent.ParentNode? && GroupLike(g.nodes[g.nodes[n].parent.id].kind)
      invariant n in g.nodes && LargestGroup(g, n) == LargestGroup(g, obj.value)
      decreases g.nextId - n
    {
      assert NodeWf(g, n);
      n := g.nodes[n].parent.id;
    }
    return Some(n);
  }

  // ---------------------------------------------------------------------------
  // flattenObject: the subtree in pre-order
  // ---------------------------------------------------------------------------

  /** The obj followed by the subtrees of its children, in order. */
  function Preorder(g: Graph, n: NodeId): seq<NodeId>
    requires Wf(g) && n in g.nodes
    decreases n, 1, 0
  {
    [n] + ChildrenPreorder(g, n, |g.nodes[n].children|)
  }

  /** The subtrees of the first `k` children of `n`, one after the other. */
  function ChildrenPreorder(g: Graph, n: NodeId, k: nat): seq<NodeId>
    requires Wf(g) && n in g.nodes && k <= |g.nodes[n].children|
    decreases n, 0, k
  {
    if k == 0 then []
    else
      assert NodeWf(g, n) && ChildOk(g, n, g.nodes[n].children[k - 1]);
      ChildrenPreorder(g, n, k - 1) + Preorder(g, g.nodes[n].children[k - 1])
  }

  lemma {:induction false} ChildrenPreorderMembers(g: Graph, n: NodeId, k: nat, x: NodeId)
    requires Wf(g) && n in g.nodes && k <= |g.nodes[n].children|
    ensures NodeWf(g, n)
    ensures x in ChildrenPreorder(g, n, k) <==>
      exists i :: 0 <= i < k && x in Preorder(g, g.nodes[n].children[i])
    decreases k
  {
    assert NodeWf(g, n);
    if k > 0 {
      var ch := g.nodes[n].children;
      ChildrenPreorderMembers(g, n, k - 1, x);
      assert ChildOk(g, n, ch[k - 1]);
      var before, last := ChildrenPreorder(g, n, k - 1), Preorder(g, ch[k - 1]);
      assert ChildrenPreorder(g, n, k) == before + last;
      if x in before {
        var i :| 0 <= i < k - 1 && x in Preorder(g, ch[i]);
        assert 0 <= i < k && x in Preorder(g, ch[i]);
      } else if x in last {
        assert 0 <= k - 1 < k && x in Preorder(g, ch[k - 1]);
      } else {
        forall i | 0 <= i < k
          ensures x !in Preorder(g, ch[i])
        {
        }
      }
    }
  }

  /** A child of `n` lies on the parent chain of every proper descendant of `n`. */
  lemma {:induction false} AncestorChild(g: Graph, n: NodeId, x: NodeId) returns (i: nat)
    requires Wf(g) && x in g.nodes && n in g.nodes && IsAncestorOrSelf(g, n, x) && x != n
    ensures NodeWf(g, n) && i < |g.nodes[n].children| && IsAncestorOrSelf(g, g.nodes[n].children[i], x)
    decreases g.nextId - x
  {
    assert NodeWf(g, n) && NodeWf(g, x);
    var p := g.nodes[x].parent.id;
    if p == n {
      var k :| 0 <= k < |g.nodes[n].children| && g.nodes[n].children[k] == x;
      i := k;
    } else {
      i := AncestorChild(g, n, p);
      assert ChildOk(g, n, g.nodes[n].children[i]);
    }
  }

  /** Two children of one obj never share a descendant. */
  lemma {:induction false} UniqueChildAncestor(g: Graph, n: NodeId, c1: NodeId, c2: NodeId, x: NodeId)
    requires Wf(g) && x in g.nodes && c1 in g.nodes && c2 in g.nodes
    requires g.nodes[c1].parent == ParentNode(n) && g.nodes[c2].parent == ParentNode(n)
    requires IsAncestorOrSelf(g, c1, x) && IsAncestorOrSelf(g, c2, x)
    ensures c1 == c2
    decreases g.nextId - x
  {
    assert NodeWf(g, c1) && NodeWf(g, c2);
    if x == c1 {
      if c1 != c2 {
        AncestorBound(g, c2, n);
      }
    } else if x == c2 {
      AncestorBound(g, c1, n);
    } else {
      UniqueChildAncestor(g, n, c1, c2, g.nodes[x].parent.id);
    }
  }

  /** The pre-order of `n` holds exactly the objects that have `n` on their parent chain. */
  lemma {:induction false} PreorderMembers(g: Graph, n: NodeId, x: NodeId)
    requires Wf(g) && n in g.nodes
    ensures x in Preorder(g, n) <==> x in g.nodes && IsAncestorOrSelf(g, n, x)
    decreases n
  {
    assert NodeWf(g, n);
    var ch := g.nodes[n].children;
    ChildrenPreorderMembers(g, n, |ch|, x);
    if x in Preorder(g, n) && x != n {
      var i :| 0 <= i < |ch| && x in Preorder(g, ch[i]);
      assert ChildOk(g, n, ch[i]);
      PreorderMembers(g, ch[i], x);
      AncestorTrans(g, n, ch[i], x);
    }
    if x in g.nodes && IsAncestorOrSelf(g, n, x) && x != n {
      var i := AncestorChild(g, n, x);
      assert ChildOk(g, n, ch[i]);
      PreorderMembers(g, ch[i], x);
    }
  }

  /** Every obj of the subtree appears once in its pre-order. */
  lemma {:induction false} PreorderNoDups(g: Graph, n: NodeId)
    requires Wf(g) && n in g.nodes
    ensures NoDups(Preorder(g, n))
    decreases n, 1
  {
    var ch := g.nodes[n].children;
    ChildrenPreorderNoDups(g, n, |ch|);
    forall x | x in ChildrenPreorder(g, n, |ch|)
      ensures x != n
    {
      ChildrenPreorderMembers(g, n, |ch|, x);
      var i :| 0 <= i < |ch| && x in Preorder(g, ch[i]);
      assert ChildOk(g, n, ch[i]);
      PreorderMembers(g, ch[i], x);
      AncestorBound(g, ch[i], x);
    }
    NoDupsAppend([n], ChildrenPreorder(g, n, |ch|));
  }

  lemma {:induction false} ChildrenPreorderNoDups(g: Graph, n: NodeId, k: nat)
    requires Wf(g) && n in g.nodes && k <= |g.nodes[n].children|
    ensures NoDups(ChildrenPreorder(g, n, k))
    decreases n, 0, k
  {
    if k > 0 {
      var ch := g.nodes[n].children;
      assert NodeWf(g, n) && ChildOk(g, n, ch[k - 1]);
      var j := k - 1;
      var last := ch[j];
      ChildrenPreorderNoDups(g, n, j);
      PreorderNoDups(g, last);
      forall x | x in ChildrenPreorder(g, n, j)
        ensures x !in Preorder(g, last)
      {
        if x in Preorder(g, last) {
          ChildrenPreorderDisjoint(g, n, j, x);
        }
      }
      NoDupsAppend(ChildrenPreorder(g, n, j), Preorder(g, last));
    }
  }

  /** The subtree of the `i`-th child shares nothing with those of the children before it. */
  lemma ChildrenPreorderDisjoint(g: Graph, n: NodeId, i: nat, x: NodeId)
    requires Wf(g) && n in g.nodes && i < |g.nodes[n].children|
    requires NodeWf(g, n) && x in Preorder(g, g.nodes[n].children[i])
    ensures x !in ChildrenPreorder(g, n, i)
  {
    var ch := g.nodes[n].children;
    assert ChildOk(g, n, ch[i]);
    PreorderMembers(g, ch[i], x);
    if x in ChildrenPreorder(g, n, i) {
      ChildrenPreorderMembers(g, n, i, x);
      var j :| 0 <= j < i && x in Preorder(g, ch[j]);
      assert ChildOk(g, n, ch[j]);
      PreorderMembers(g, ch[j], x);
      UniqueChildAncestor(g, n, ch[j], ch[i], x);
      assert false;
    }
  }

  lemma NoDupsAppend<T>(a: seq<T>, b: seq<T>)
    requires NoDups(a) && NoDups(b) && forall x :: x in a ==> x !in b
    ensures NoDups(a + b)
  {
    var s := a + b;
    forall i, j | 0 <= i < j < |s|
      ensures s[i] != s[j]
    {
      if i < |a| && |a| <= j {
        assert s[i] in a && s[j] == b[j - |a|];
      }
    }
  }

  /**
   * `flattenObject(object)`: the obj and every obj below it, each once,
   * parents before children and children in order.
   */
  method FlattenObject(g: Graph, obj: NodeId) returns (list: seq<NodeId>)
    requires Wf(g) && obj in g.nodes
    ensures list == Preorder(g, obj)
    ensures list[0] == obj && NoDups(list)
    ensures forall x :: x in list <==> x in g.nodes && IsAncestorOrSelf(g, obj, x)
    decreases obj
  {
    list := [obj];
    var ch := g.nodes[obj].children;
    for i := 0 to |ch|
      invariant list == [obj] + ChildrenPreorder(g, obj, i)
    {
      assert NodeWf(g, obj) && ChildOk(g, obj, ch[i]);
      var sub := FlattenObject(g, ch[i]);
      list := list + sub;
    }
    PreorderNoDups(g, obj);
    forall x
      ensures x in list <==> x in g.nodes && IsAncestorOrSelf(g, obj, x)
    {
      PreorderMembers(g, obj, x);
    }
  }

  // ---------------------------------------------------------------------------
  // flattenBundle: the sticks of a bundle
  // ---------------------------------------------------------------------------

  /** A childless obj whose geometry is a cylinder: a stick. */
  predicate IsStick(g: Graph, x: NodeId) {
    x in g.nodes && g.nodes[x].children == [] && g.nodes[x].shape == Cylinder
  }

  /** The sticks among `s`, in order. */
  function Sticks(g: Graph, s: seq<NodeId>): seq<NodeId> {
    if s == [] then []
    else Sticks(g, s[..|s| - 1]) + (if IsStick(g, s[|s| - 1]) then [s[|s| - 1]] else [])
  }

  lemma {:induction false} SticksMembers(g: Graph, s: seq<NodeId>, x: NodeId)
    ensures x in Sticks(g, s) <==> x in s && IsStick(g, x)
    decreases |s|
  {
    if s != [] {
      SticksMembers(g, s[..|s| - 1], x);
      assert s == s[..|s| - 1] + [s[|s| - 1]];
    }
  }

  lemma {:induction false} SticksAppend(g: Graph, a: seq<NodeId>, b: seq<NodeId>)
    ensures Sticks(g, a + b) == Sticks(g, a) + Sticks(g, b)
    decreases |b|
  {
    if b == [] {
      assert a + b == a;
    } else {
      assert (a + b)[..|a + b| - 1] == a + b[..|b| - 1];
      SticksAppend(g, a, b[..|b| - 1]);
    }
  }

  lemma {:induction false} SticksNoDups(g: Graph, s: seq<NodeId>)
    requires NoDups(s)
    ensures NoDups(Sticks(g, s))
    decreases |s|
  {
    if s != [] {
      var init := s[..|s| - 1];
      assert NoDups(init);
      SticksNoDups(g, init);
      forall x | x in Sticks(g, init) ensures x != s[|s| - 1] {
        SticksMembers(g, init, x);
      }
      NoDupsAppend(Sticks(g, init), if IsStick(g, s[|s| - 1]) then [s[|s| - 1]] else []);
    }
  }

  /**
   * `flattenBundle(object)`: the sticks of the subtree in depth-first order;
   * other leaves, such as the ring of a bundle, are left out.
   */
  method FlattenBundle(g: Graph, obj: NodeId) returns (list: seq<NodeId>)
    requires Wf(g) && obj in g.nodes
    ensures list == Sticks(g, Preorder(g, obj))
    ensures NoDups(list)
    ensures forall x :: x in list <==> IsStick(g, x) && IsAncestorOrSelf(g, obj, x)
    decreases obj
  {
    var ch := g.nodes[obj].children;
    if |ch| > 0 {
      list := [];
      for i := 0 to |ch|
        invariant list == Sticks(g, ChildrenPreorder(g, obj, i))
      {
        assert NodeWf(g, obj) && ChildOk(g, obj, ch[i]);
        var sub := FlattenBundle(g, ch[i]);
        SticksAppend(g, ChildrenPreorder(g, obj, i), Preorder(g, ch[i]));
        list := list + sub;
      }
      SticksAppend(g, [obj], ChildrenPreorder(g, obj, |ch|));
      assert Sticks(g, [obj]) == [];
    } else if g.nodes[obj].shape == Cylinder {
      list := [obj];
      assert Preorder(g, obj) == [obj];
    } else {
      list := [];
      assert Preorder(g, obj) == [obj];
    }
    SubtreeSticks(g, obj);
  }

  /** The sticks of a subtree, in pre-order, are each of its sticks once. */
  lemma SubtreeSticks(g: Graph, obj: NodeId)
    requires Wf(g) && obj in g.nodes
    ensures NoDups(Sticks(g, Preorder(g, obj)))
    ensures forall x :: x in Sticks(g, Preorder(g, obj)) <==> IsStick(g, x) && IsAncestorOrSelf(g, obj, x)
  {
    PreorderNoDups(g, obj);
    SticksNoDups(g, Preorder(g, obj));
    forall x
      ensures x in Sticks(g, Preorder(g, obj)) <==> IsStick(g, x) && IsAncestorOrSelf(g, obj, x)
    {
      PreorderMembers(g, obj, x);
      SticksMembers(g, Preorder(g, obj), x);
    }
  }

  // ---------------------------------------------------------------------------
  // removeFromList and removeAllChildrenFromList
  // ---------------------------------------------------------------------------

  /** `removeFromList(element, list)`: `indexOf`, then `splice` when found. */
  method RemoveFromList<T(==)>(element: T, list: seq<T>) returns (list': seq<T>)
    ensures list' == RemoveFirst(list, element)
    ensures element !in list ==> list' == list
    ensures element in list ==> |list'| == |list| - 1
  {
    var index := IndexOf(list, element);
    list' := list;
    if index >= 0 {
      list' := list[..index] + list[index + 1..];
    }
    RemoveFirstMultiset(list, element);
  }

  /** The childless objects among `s`, in order. */
  function Leaves(g: Graph, s: seq<NodeId>): seq<NodeId> {
    if s == [] then []
    else Leaves(g, s[..|s| - 1]) + (if IsLeaf(g, s[|s| - 1]) then [s[|s| - 1]] else [])
  }

  /** An object without children. */
  predicate IsLeaf(g: Graph, x: NodeId) {
    x in g.nodes && g.nodes[x].children == []
  }

  lemma {:induction false} LeavesMembers(g: Graph, s: seq<NodeId>, x: NodeId)
    ensures x in Leaves(g, s) <==> x in s && IsLeaf(g, x)
    decreases |s|
  {
    if s != [] {
      LeavesMembers(g, s[..|s| - 1], x);
      assert s == s[..|s| - 1] + [s[|s| - 1]];
    }
  }

  lemma {:induction false} LeavesAppend(g: Graph, a: seq<NodeId>, b: seq<NodeId>)
    ensures Leaves(g, a + b) == Leaves(g, a) + Leaves(g, b)
    decreases |b|
  {
    if b == [] {
      assert a + b == a;
    } else {
      assert (a + b)[..|a + b| - 1] == a + b[..|b| - 1];
      LeavesAppend(g, a, b[..|b| - 1]);
    }
  }

  lemma {:induction false} LeavesNoDups(g: Graph, s: seq<NodeId>)
    requires NoDups(s)
    ensures NoDups(Leaves(g, s))
    decreases |s|
  {
    if s != [] {
      var init := s[..|s| - 1];
      assert NoDups(init);
      LeavesNoDups(g, init);
      var last := s[|s| - 1];
      forall x | x in Leaves(g, init) ensures x != last {
        LeavesMembers(g, init, x);
      }
      NoDupsAppend(Leaves(g, init), if IsLeaf(g, last) then [last] else []);
    }
  }

  /** Two graphs with the same objects, each with the same children. */
  predicate SameChildren(g: Graph, h: Graph) {
    g.nodes.Keys == h.nodes.Keys && forall x :: x in g.nodes ==> h.nodes[x].children == g.nodes[x].children
  }

  /** A pre-order depends on the child links alone. */
  lemma {:induction false} PreorderSameChildren(g: Graph, h: Graph, n: NodeId)
    requires Wf(g) && Wf(h) && SameChildren(g, h) && n in g.nodes
    ensures Preorder(h, n) == Preorder(g, n)
    decreases n, 1, 0
  {
    ChildrenPreorderSameChildren(g, h, n, |g.nodes[n].children|);
  }

  lemma {:induction false} ChildrenPreorderSameChildren(g: Graph, h: Graph, n: NodeId, k: nat)
    requires Wf(g) && Wf(h) && SameChildren(g, h) && n in g.nodes && k <= |g.nodes[n].children|
    ensures ChildrenPreorder(h, n, k) == ChildrenPreorder(g, n, k)
    decreases n, 0, k
  {
    if k > 0 {
      assert NodeWf(g, n) && ChildOk(g, n, g.nodes[n].children[k - 1]);
      ChildrenPreorderSameChildren(g, h, n, k - 1);
      PreorderSameChildren(g, h, g.nodes[n].children[k - 1]);
    }
  }

  /** Which objects are leaves depends on the child links alone. */
  lemma {:induction false} LeavesSameChildren(g: Graph, h: Graph, s: seq<NodeId>)
    requires SameChildren(g, h)
    ensures Leaves(h, s) == Leaves(g, s)
    decreases |s|
  {
    if s != [] {
      LeavesSameChildren(g, h, s[..|s| - 1]);
    }
  }

  /**
   * `removeAllChildrenFromList(object, list)`: the first occurrence of every
   * leaf of the subtree is removed from the list, leaf by leaf in pre-order;
   * objects that have children stay.
   */
  method RemoveAllChildrenFromList(g: Graph, obj: NodeId, list: seq<NodeId>) returns (list': seq<NodeId>)
    requires Wf(g) && obj in g.nodes
    ensures list' == RemoveEach<NodeId>(list, Leaves(g, Preorder(g, obj)))
    decreases obj
  {
    var ch := g.nodes[obj].children;
    if |ch| > 0 {
      list' := list;
      for i := 0 to |ch|
        invariant list' == RemoveEach<NodeId>(list, Leaves(g, ChildrenPreorder(g, obj, i)))
      {
        ChildBelow(g, obj, i);
        var rest := RemoveAllChildrenFromList(g, ch[i], list');
        RemoveLeavesStep(g, obj, i, list, list', rest);
        list' := rest;
      }
      InnerLeaves(g, obj, list, list');
    } else {
      list' := RemoveFromList<NodeId>(obj, list);
      LeafLeaves(g, obj, list, list');
    }
  }

  /** A child has a smaller id than its parent. */
  lemma ChildBelow(g: Graph, obj: NodeId, i: nat)
    requires Wf(g) && obj in g.nodes && i < |g.nodes[obj].children|
    ensures g.nodes[obj].children[i] in g.nodes && g.nodes[obj].children[i] < obj
  {
    assert NodeWf(g, obj) && ChildOk(g, obj, g.nodes[obj].children[i]);
  }

  /** Removing the leaves of child `i`'s subtree after those of the children before it removes those of the first `i + 1` children. */
  lemma RemoveLeavesStep(g: Graph, obj: NodeId, i: nat, list: seq<NodeId>, done: seq<NodeId>, rest: seq<NodeId>)
    requires Wf(g) && obj in g.nodes && i < |g.nodes[obj].children|
    requires g.nodes[obj].children[i] in g.nodes
    requires done == RemoveEach<NodeId>(list, Leaves(g, ChildrenPreorder(g, obj, i)))
    requires rest == RemoveEach<NodeId>(done, Leaves(g, Preorder(g, g.nodes[obj].children[i])))
    ensures rest == RemoveEach<NodeId>(list, Leaves(g, ChildrenPreorder(g, obj, i + 1)))
  {
    assert NodeWf(g, obj);
    var c := g.nodes[obj].children[i];
    assert ChildOk(g, obj, c);
    var before := ChildrenPreorder(g, obj, i);
    assert ChildrenPreorder(g, obj, i + 1) == before + Preorder(g, c);
    LeavesAppend(g, before, Preorder(g, c));
    RemoveEachAppend<NodeId>(list, Leaves(g, before), Leaves(g, Preorder(g, c)));
  }

  /** An object with children is not a leaf itself: its leaves are those of its children's subtrees. */
  lemma InnerLeaves(g: Graph, obj: NodeId, list: seq<NodeId>, done: seq<NodeId>)
    requires Wf(g) && obj in g.nodes && g.nodes[obj].children != []
    requires done == RemoveEach<NodeId>(list, Leaves(g, ChildrenPreorder(g, obj, |g.nodes[obj].children|)))
    ensures done == RemoveEach<NodeId>(list, Leaves(g, Preorder(g, obj)))
  {
    var rest := ChildrenPreorder(g, obj, |g.nodes[obj].children|);
    LeavesAppend(g, [obj], rest);
    assert Leaves(g, [obj]) == [];
    assert Leaves(g, Preorder(g, obj)) == Leaves(g, rest);
  }

  /** A childless object is its own only leaf. */
  lemma LeafLeaves(g: Graph, obj: NodeId, list: seq<NodeId>, list': seq<NodeId>)
    requires Wf(g) && obj in g.nodes && g.nodes[obj].children == []
    requires list' == RemoveFirst(list, obj)
    ensures list' == RemoveEach<NodeId>(list, Leaves(g, Preorder(g, obj)))
  {
    assert Preorder(g, obj) == [obj];
    assert Leaves(g, [obj]) == [obj];
    assert RemoveEach<NodeId>(list, [obj]) == RemoveFirst(RemoveEach<NodeId>(list, []), obj);
  }

  /** Objects of the list that are not leaves of the subtree keep all their occurrences. */
  lemma InteriorKept(g: Graph, obj: NodeId, list: seq<NodeId>, x: NodeId)
    requires Wf(g) && obj in g.nodes
    requires !(IsLeaf(g, x) && IsAncestorOrSelf(g, obj, x))
    ensures multiset(RemoveEach<NodeId>(list, Leaves(g, Preorder(g, obj))))[x] == multiset(list)[x]
  {
    var p := Preorder(g, obj);
    PreorderMembers(g, obj, x);
    LeavesMembers(g, p, x);
    RemoveEachKeeps(list, Leaves(g, p), x);
  }

  /** A leaf of the subtree loses one occurrence from the list, if it has one. */
  lemma LeafRemovedOnce(g: Graph, obj: NodeId, list: seq<NodeId>, x: NodeId)
    requires Wf(g) && obj in g.nodes
    requires IsLeaf(g, x) && IsAncestorOrSelf(g, obj, x)
    ensures x in list ==> multiset(RemoveEach<NodeId>(list, Leaves(g, Preorder(g, obj))))[x] == multiset(list)[x] - 1
    ensures x !in list ==> x !in RemoveEach<NodeId>(list, Leaves(g, Preorder(g, obj)))
  {
    var p := Preorder(g, obj);
    var leaves := Leaves(g, p);
    PreorderMembers(g, obj, x);
    LeavesMembers(g, p, x);
    PreorderNoDups(g, obj);
    LeavesNoDups(g, p);
    NoDupsCounts<NodeId>(leaves);
    RemoveEachMultiset<NodeId>(list, leaves);
    var m: multiset<NodeId> := multiset(RemoveEach<NodeId>(list, leaves));
    assert m == multiset(list) - multiset(leaves);
    if x !in list {
      assert multiset(list)[x] == 0;
      assert m[x] == 0;
    }
  }

  // ---------------------------------------------------------------------------
  // setEmissiveAllChildren
  // ---------------------------------------------------------------------------

  /** The obj with its emissive colour set, when its material has one. */
  function WithEmissive(node: Node, value: int): Node {
    if node.material.Material? && node.material.emissive.Some?
    then node.(material := node.material.(emissive := Some(value)))
    else node
  }

  /**
   * `h` is `g` with the emissive colour of the objects marked by `inside` set
   * to `value`, and every other object as it was.
   */
  predicate EmissiveUpdated(g: Graph, h: Graph, value: int, inside: set<NodeId>) {
    SameStructure(g, h) &&
    forall x :: x in g.nodes ==>
      h.nodes[x] == if x in inside then WithEmissive(g.nodes[x], value) else g.nodes[x]
  }

  /** The objects of the subtree of `root`. */
  function Subtree(g: Graph, root: NodeId): set<NodeId>
    requires Wf(g)
  {
    set x | x in g.nodes && IsAncestorOrSelf(g, root, x)
  }

  /** The root and the subtrees of its first `i` children: what the loop has visited. */
  function Visited(g: Graph, root: NodeId, i: nat): set<NodeId>
    requires Wf(g) && root in g.nodes && i <= |g.nodes[root].children|
  {
    {root} + set x | x in ChildrenPreorder(g, root, i)
  }

  /** Changing anything but the links keeps every subtree. */
  lemma SubtreeSame(g: Graph, h: Graph, c: NodeId)
    requires Wf(g) && Wf(h) && SameStructure(g, h)
    ensures Subtree(h, c) == Subtree(g, c)
  {
    forall x | x in g.nodes
      ensures IsAncestorOrSelf(h, c, x) == IsAncestorOrSelf(g, c, x)
    {
      SameStructureAncestor(g, h, c, x);
    }
  }

  /** Visiting one more child adds its subtree, which nothing visited before belongs to. */
  lemma VisitedStep(g: Graph, root: NodeId, i: nat)
    requires Wf(g) && root in g.nodes && i < |g.nodes[root].children|
    ensures Visited(g, root, i + 1) == Visited(g, root, i) + Subtree(g, g.nodes[root].children[i])
    ensures Visited(g, root, i) !! Subtree(g, g.nodes[root].children[i])
  {
    assert NodeWf(g, root);
    var c := g.nodes[root].children[i];
    assert ChildOk(g, root, c);
    assert ChildrenPreorder(g, root, i + 1) == ChildrenPreorder(g, root, i) + Preorder(g, c);
    forall x
      ensures x in Preorder(g, c) <==> x in Subtree(g, c)
      ensures x in Subtree(g, c) ==> x != root && x !in ChildrenPreorder(g, root, i)
    {
      PreorderMembers(g, c, x);
      if x in Preorder(g, c) {
        AncestorBound(g, c, x);
        ChildrenPreorderDisjoint(g, root, i, x);
      }
    }
  }

  lemma {:induction false} EmissiveStep(g: Graph, h: Graph, h': Graph, root: NodeId, i: nat, value: int)
    requires Wf(g) && root in g.nodes && i < |g.nodes[root].children|
    requires EmissiveUpdated(g, h, value, Visited(g, root, i))
    requires Wf(h)
    requires EmissiveUpdated(h, h', value, Subtree(h, g.nodes[root].children[i]))
    ensures EmissiveUpdated(g, h', value, Visited(g, root, i + 1))
  {
    var c := g.nodes[root].children[i];
    SubtreeSame(g, h, c);
    VisitedStep(g, root, i);
  }

  lemma EmissiveStart(g: Graph, root: NodeId, value: int)
    requires Wf(g) && root in g.nodes
    ensures EmissiveUpdated(g, g.(nodes := g.nodes[root := WithEmissive(g.nodes[root], value)]), value, Visited(g, root, 0))
  {
    assert Visited(g, root, 0) == {root};
  }

  lemma VisitedAll(g: Graph, root: NodeId)
    requires Wf(g) && root in g.nodes
    ensures Visited(g, root, |g.nodes[root].children|) == Subtree(g, root)
  {
    forall x ensures x in Visited(g, root, |g.nodes[root].children|) <==> x in Subtree(g, root) {
      PreorderMembers(g, root, x);
    }
  }

  /**
   * `setEmissiveAllChildren(root, value)`: every object of the subtree whose
   * material has an emissive colour gets `value`; nothing else changes.
   */
  method SetEmissiveAllChildren(g: Graph, root: NodeId, value: int) returns (h: Graph)
    requires Wf(g) && root in g.nodes
    ensures EmissiveUpdated(g, h, value, Subtree(g, root))
    decreases root
  {
    h := g.(nodes := g.nodes[root := WithEmissive(g.nodes[root], value)]);
    var ch := g.nodes[root].children;
    assert NodeWf(g, root);
    EmissiveStart(g, root, value);
    for i := 0 to |ch|
      invariant EmissiveUpdated(g, h, value, Visited(g, root, i))
    {
      SameStructureWf(g, h);
      var h' := SetEmissiveAllChildren(h, ch[i], value);
      EmissiveStep(g, h, h', root, i, value);
      h := h';
    }
    VisitedAll(g, root);
  }

  // ---------------------------------------------------------------------------
  // getColourFromURL and constructLink
  // ---------------------------------------------------------------------------

  /** `[0-9A-F]` under the `i` flag. */
  predicate IsHexDigit(c: char) {
    ('0' <= c <= '9') || ('A' <= c <= 'F') || ('a' <= c <= 'f')
  }

  /** `/^[0-9A-F]{6}$/i`. */
  predicate IsHexColour(s: string) {
    |s| == 6 && forall i :: 0 <= i < |s| ==> IsHexDigit(s[i])
  }

  /** An array converted to a string: its elements joined by commas. */
  function Join(cs: seq<string>): string {
    if cs == [] then "" else if |cs| == 1 then cs[0] else Join(cs[..|cs| - 1]) + "," + cs[|cs| - 1]
  }

  const DefaultColour := "#8C5D41"

  /**
   * `getColourFromURL()`, given every value of the `c` query parameter: the
   * values are joined by commas both for the test and for the result.
   */
  function ColourFromURL(cs: seq<string>): (colour: string)
    ensures |colour| == 7 && colour[0] == '#' && IsHexColour(colour[1..])
  {
    if IsHexColour(Join(cs)) then "#" + Join(cs) else DefaultColour
  }

  /** Two or more values always put a comma into the joined string. */
  lemma {:induction false} JoinComma(cs: seq<string>)
    requires |cs| >= 2
    ensures ',' in Join(cs)
  {
    var j := Join(cs);
    assert j == Join(cs[..|cs| - 1]) + "," + cs[|cs| - 1];
    assert j[|Join(cs[..|cs| - 1])|] == ',';
  }

  /** The URL's colour is used exactly when the parameter is given once and is six hex digits. */
  lemma ColourFromURLValid(cs: seq<string>)
    ensures IsHexColour(Join(cs)) <==> |cs| == 1 && IsHexColour(cs[0])
  {
    if |cs| >= 2 {
      JoinComma(cs);
    }
  }

  /** `constructLink(stickColour)`: the origin, `?c=`, and the colour without its first `#`. */
  function ConstructLink(origin: string, colour: string): (link: string)
    ensures '#' in colour ==> |link| == |origin| + 3 + |colour| - 1
    ensures '#' in colour ==>
      var i := IndexOf(colour, '#');
      && colour[i] == '#' && '#' !in colour[..i]
      && link == origin + "?c=" + colour[..i] + colour[i + 1..]
    ensures '#' !in colour ==> link == origin + "?c=" + colour
  {
    var i := IndexOf(colour, '#');
    if i == -1 then origin + "?c=" + colour
    else origin + "?c=" + colour[..i] + colour[i + 1..]
  }

  /**
   * Any six-hex-digit colour survives a link: the link carries the digits
   * without the `#`, and reading them back as the only `c` value gives the
   * same colour.
   */
  lemma {:induction false} HexColourLinkRoundTrip(origin: string, h: string)
    requires IsHexColour(h)
    ensures ConstructLink(origin, "#" + h) == origin + "?c=" + h
    ensures ColourFromURL([h]) == "#" + h
  {
    var colour := "#" + h;
    assert IndexOf(colour, '#') == 0;
    assert colour[1..] == h;
    assert Join([h]) == h;
  }

  /**
   * A colour read from the URL survives a link: the link carries its six hex
   * digits, and reading them back as the only `c` value gives the same colour.
   */
  lemma {:induction false} ColourLinkRoundTrip(origin: string, cs: seq<string>)
    ensures var colour := ColourFromURL(cs);
      && ConstructLink(origin, colour) == origin + "?c=" + colour[1..]
      && ColourFromURL([colour[1..]]) == colour
  {
    var colour := ColourFromURL(cs);
    assert colour == "#" + colour[1..];
    HexColourLinkRoundTrip(origin, colour[1..]);
  }
}
