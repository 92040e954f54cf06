/**
 * The application context of the sticks demo (source/js/App.js): the scene,
 * the pool `sticksInScene` of sticks that can be dragged and selected, the
 * number of sticks a bundle holds, and the candidate places where new sticks
 * appear. Rendering and page updates are not part of this model.
 */
module AppContext {
  import opened Wrappers
  import opened Geometry
  import opened Lists
  import opened SceneGraph
  import opened Utils
  import BundleLookup

  // ---------------------------------------------------------------------------
  // increaseSticksInABundle / decreaseSticksInABundle
  // ---------------------------------------------------------------------------

  /** `Math.min(v + 1, 12)`. */
  function IncreasedSize(v: int): (r: int)
    ensures r <= BundleLookup.MaxBundleSize
    ensures v < BundleLookup.MaxBundleSize ==> r == v + 1
    ensures v >= BundleLookup.MaxBundleSize ==> r == BundleLookup.MaxBundleSize
  {
    if v + 1 < BundleLookup.MaxBundleSize then v + 1 else BundleLookup.MaxBundleSize
  }

  /** `Math.max(v - 1, 2)`. */
  function DecreasedSize(v: int): (r: int)
    ensures r >= BundleLookup.MinBundleSize
    ensures v > BundleLookup.MinBundleSize ==> r == v - 1
    ensures v <= BundleLookup.MinBundleSize ==> r == BundleLookup.MinBundleSize
  {
    if v - 1 > BundleLookup.MinBundleSize then v - 1 else BundleLookup.MinBundleSize
  }

  predicate InSizeRange(v: int) {
    BundleLookup.MinBundleSize <= v <= BundleLookup.MaxBundleSize
  }

  /** Both buttons keep a size inside 2..12, and one step up is undone by one step down away from the ends. */
  lemma SizeSteps(v: int)
    ensures InSizeRange(v) ==> InSizeRange(IncreasedSize(v)) && InSizeRange(DecreasedSize(v))
    ensures InSizeRange(v) && v < BundleLookup.MaxBundleSize ==> DecreasedSize(IncreasedSize(v)) == v
    ensures InSizeRange(v) && v > BundleLookup.MinBundleSize ==> IncreasedSize(DecreasedSize(v)) == v
  {
  }

  // ---------------------------------------------------------------------------
  // calculatePossibleStickPositions
  // ---------------------------------------------------------------------------

  /** Where the walk over candidate places starts. */
  const SlotStart := Vec3(-0.4, 0.3, 0.7)

  /**
   * One step of the walk: the next place and the row it is in. Rows 1 and 2
   * wrap to the next row once past x = 2.4; row 3 jumps once to (0.2, -0.62)
   * once past x = 1.4 while z is still above 0.1; otherwise the place moves
   * along the sloping row.
   */
  function NextSlot(pos: Vec3, row: int): (Vec3, int) {
    if row < 3 && pos.x > 2.4 then
      (Vec3(pos.x - 3.0 + row as real * 0.2, pos.y, pos.z - 1.08 + row as real * 0.04), row + 1)
    else if row == 3 && pos.x > 1.4 && pos.z > 0.1 then
      (Vec3(0.2, pos.y, -0.62), row)
    else
      (Vec3(pos.x + 0.2, pos.y, pos.z + 0.04), row)
  }

  /** The next `k` places of the walk from `pos` in row `row`. */
  function Slots(pos: Vec3, row: int, k: nat): seq<Vec3>
    decreases k
  {
    if k == 0 then []
    else
      var (p, r) := NextSlot(pos, row);
      [p] + Slots(p, r, k - 1)
  }

  /** The walk stays in rows 1 to 3. */
  lemma NextSlotRow(pos: Vec3, row: int)
    requires 1 <= row <= 3
    ensures 1 <= NextSlot(pos, row).1 <= 3
    ensures row <= NextSlot(pos, row).1
  {
  }

  /** The walk yields `k` places, all at the height of its start. */
  lemma {:induction false} SlotsShape(pos: Vec3, row: int, k: nat)
    ensures |Slots(pos, row, k)| == k
    ensures forall i :: 0 <= i < k ==> Slots(pos, row, k)[i].y == pos.y
    decreases k
  {
    if k > 0 {
      var (p, r) := NextSlot(pos, row);
      SlotsShape(p, r, k - 1);
    }
  }

  /** Continuing the walk for one more place appends the next place. */
  lemma {:induction false} SlotsSnoc(pos: Vec3, row: int, k: nat, last: Vec3, lastRow: int)
    requires k > 0 ==> (last, lastRow) == LastSlot(pos, row, k)
    requires k == 0 ==> last == pos && lastRow == row
    ensures Slots(pos, row, k + 1) == Slots(pos, row, k) + [NextSlot(last, lastRow).0]
    ensures LastSlot(pos, row, k + 1) == NextSlot(last, lastRow)
    decreases k
  {
    if k > 0 {
      var (p, r) := NextSlot(pos, row);
      if k == 1 {
        SlotsSnoc(p, r, 0, last, lastRow);
      } else {
        SlotsSnoc(p, r, k - 1, last, lastRow);
      }
    }
  }

  /** The place and row after `k > 0` steps of the walk. */
  function LastSlot(pos: Vec3, row: int, k: nat): (Vec3, int)
    requires k > 0
    decreases k
  {
    var (p, r) := NextSlot(pos, row);
    if k == 1 then (p, r) else LastSlot(p, r, k - 1)
  }

  /** The number of places `calculatePossibleStickPositions(n)` yields: `for (i = 0; i <= n; i++)`. */
  function AsWrittenSlotCount(n: int): nat {
    if n >= 0 then n + 1 else 0
  }

  /** The number of places documented for `calculatePossibleStickPositions(n)`: `n`. */
  function IntendedSlotCount(n: int): nat {
    if n >= 0 then n else 0
  }

  /** The loop bound `i <= n` gives one place more than asked for, for every `n >= 0`. */
  lemma SlotCountOffByOne(n: int)
    requires n >= 0
    ensures |Slots(SlotStart, 1, AsWrittenSlotCount(n))| == n + 1
    ensures |Slots(SlotStart, 1, AsWrittenSlotCount(n))| != IntendedSlotCount(n)
  {
    SlotsShape(SlotStart, 1, AsWrittenSlotCount(n));
  }

  /**
   * `calculatePossibleStickPositions(n)` as written: the walk runs for `i = 0 .. n`
   * inclusive, so it yields `n + 1` places.
   */
  method CalculatePossibleStickPositions(n: int) returns (positions: seq<Vec3>)
    ensures positions == Slots(SlotStart, 1, AsWrittenSlotCount(n))
    ensures |positions| == AsWrittenSlotCount(n)
    ensures forall i :: 0 <= i < |positions| ==> positions[i].y == 0.3
  {
    positions := WalkSlots(AsWrittenSlotCount(n));
  }

  /** The corrected `calculatePossibleStickPositions(n)`: exactly `n` places. */
  method CalculatePossibleStickPositionsFixed(n: int) returns (positions: seq<Vec3>)
    ensures positions == Slots(SlotStart, 1, IntendedSlotCount(n))
    ensures |positions| == IntendedSlotCount(n)
    ensures forall i :: 0 <= i < |positions| ==> positions[i].y == 0.3
  {
    positions := WalkSlots(IntendedSlotCount(n));
  }

  /** The loop of `calculatePossibleStickPositions`, run `count` times. */
  method WalkSlots(count: nat) returns (positions: seq<Vec3>)
    ensures positions == Slots(SlotStart, 1, count)
    ensures |positions| == count
    ensures forall i :: 0 <= i < |positions| ==> positions[i].y == 0.3
  {
    var currentPos := SlotStart;
    var rowCount := 1;
    positions := [];
    for i := 0 to count
      invariant 1 <= rowCount <= 3
      invariant positions == Slots(SlotStart, 1, i)
      invariant i == 0 ==> currentPos == SlotStart && rowCount == 1
      invariant i > 0 ==> (currentPos, rowCount) == LastSlot(SlotStart, 1, i)
    {
      SlotsSnoc(SlotStart, 1, i, currentPos, rowCount);
      NextSlotRow(currentPos, rowCount);
      if rowCount < 3 && currentPos.x > 2.4 {
        currentPos := Vec3(currentPos.x - 3.0 + rowCount as real * 0.2, currentPos.y, currentPos.z - 1.08 + rowCount as real * 0.04);
        rowCount := rowCount + 1;
      } else if rowCount == 3 && currentPos.x > 1.4 && currentPos.z > 0.1 {
        currentPos := Vec3(0.2, currentPos.y, -0.62);
      } else {
        currentPos := Vec3(currentPos.x + 0.2, currentPos.y, currentPos.z + 0.04);
      }
      positions := positions + [currentPos];
    }
    SlotsShape(SlotStart, 1, count);
  }

  // ---------------------------------------------------------------------------
  // spawnStick: first-fit placement
  // ---------------------------------------------------------------------------

  /**
   * A stick placed at `p` overlaps none of the sticks of `pool`, by their
   * world positions; `overlaps` stands for the `Box3` intersection test.
   */
  predicate Free(g: Graph, pool: seq<NodeId>, p: Vec3, overlaps: (Vec3, Vec3) -> bool)
    requires Wf(g) && forall x :: x in pool ==> x in g.nodes
  {
    forall j :: 0 <= j < |pool| ==> !overlaps(p, WorldPosition(g, pool[j]))
  }

  /** The index of the first free candidate from `k` on, or -1 when none is. */
  function FirstFree(g: Graph, pool: seq<NodeId>, cands: seq<Vec3>, overlaps: (Vec3, Vec3) -> bool, k: nat): (i: int)
    requires Wf(g) && (forall x :: x in pool ==> x in g.nodes) && k <= |cands|
    ensures i == -1 || k <= i < |cands|
    ensures i >= 0 ==> Free(g, pool, cands[i], overlaps)
    ensures forall j :: k <= j < |cands| && (i == -1 || j < i) ==> !Free(g, pool, cands[j], overlaps)
    decreases |cands| - k
  {
    if k == |cands| then -1
    else if Free(g, pool, cands[k], overlaps) then k
    else FirstFree(g, pool, cands, overlaps, k + 1)
  }

  /**
   * Where `spawnStick` puts the new stick: the first free candidate; when no
   * candidate is free, the candidate `choice` (modulo their number) moved by
   * `jitter` flattened to y = 0; with no candidates at all, where the spawner
   * left it.
   */
  function SpawnPlace(g: Graph, pool: seq<NodeId>, cands: seq<Vec3>, overlaps: (Vec3, Vec3) -> bool,
                      spawnerPos: Vec3, choice: nat, jitter: Vec3): (p: Vec3)
    requires Wf(g) && forall x :: x in pool ==> x in g.nodes
  {
    var i := FirstFree(g, pool, cands, overlaps, 0);
    if cands == [] then spawnerPos
    else if i >= 0 then cands[i]
    else cands[choice % |cands|].Plus(jitter.(y := 0.0))
  }

  /** The placement is first fit: when some candidate is free, the stick goes to a free one with every earlier candidate taken. */
  lemma SpawnPlaceFirstFit(g: Graph, pool: seq<NodeId>, cands: seq<Vec3>, overlaps: (Vec3, Vec3) -> bool,
                           spawnerPos: Vec3, choice: nat, jitter: Vec3, k: nat)
    requires Wf(g) && (forall x :: x in pool ==> x in g.nodes)
    requires k < |cands| && Free(g, pool, cands[k], overlaps)
    ensures exists i :: (0 <= i <= k && SpawnPlace(g, pool, cands, overlaps, spawnerPos, choice, jitter) == cands[i]
      && Free(g, pool, cands[i], overlaps)
      && forall j :: 0 <= j < i ==> !Free(g, pool, cands[j], overlaps))
  {
    var i := FirstFree(g, pool, cands, overlaps, 0);
    assert i >= 0;
  }

  /** The stick `stickSpawner.spawn()` makes, with the order and radius `spawnStick` then gives it. */
  function NewStick(spawnerPos: Vec3, radius: real, colour: int): Node {
    Node(Mesh, Cylinder, Detached, [], 0, radius, spawnerPos, None, Material(colour, Some(0)))
  }

  /** Every stick of the pool is a childless cylinder of the scene graph. */
  predicate PoolOk(g: Graph, pool: seq<NodeId>) {
    forall x :: x in pool ==> IsStick(g, x)
  }

  /** Only groups have children: sticks and rings are always leaves. */
  predicate ShapesOk(g: Graph) {
    forall x :: x in g.nodes ==> ShapeOk(g.nodes[x])
  }

  predicate ShapeOk(n: Node) {
    && (n.children != [] ==> n.kind == Group && n.shape == NoGeometry)
    && (n.shape == Cylinder ==> n.kind == Mesh)
  }

  /** The pool holds exactly the sticks hanging off the scene. */
  predicate ExactPool(g: Graph, pool: seq<NodeId>)
    requires Wf(g)
  {
    forall x :: x in g.nodes ==> (x in pool <==> IsStick(g, x) && Attached(g, x))
  }

  /** The objects whose outermost group is a `Group`: the sticks in a bundle. */
  predicate InBundle(g: Graph, x: NodeId)
    requires Wf(g)
  {
    x in g.nodes && g.nodes[LargestGroup(g, x)].kind == Group
  }

  /** The application context. */
  class App {
    var scene: Graph
    var sticksInScene: seq<NodeId>
    var sticksInABundle: int
    var possibleStickPositions: seq<Vec3>
    var spawnerPosition: Vec3   // `stickSpawner.position`
    var stickRadius: real       // `stickSpawner.stickParameters.radius`
    var stickColour: int        // `stickSpawner.stickParameters.color`

    /**
     * The scene graph is well formed and only its groups have children, the
     * bundle size is in 2..12, and the pool is a list of distinct sticks.
     */
    predicate Valid()
      reads this
    {
      && Wf(scene)
      && ShapesOk(scene)
      && InSizeRange(sticksInABundle)
      && NoDups(sticksInScene)
      && PoolOk(scene, sticksInScene)
    }

    /** The pool holds exactly the sticks hanging off the scene. */
    predicate PoolExact()
      reads this
      requires Valid()
    {
      ExactPool(scene, sticksInScene)
    }

    /**
     * A fresh context: an empty scene and pool, the given bundle size and
     * spawner, and 45 candidate places.
     */
    constructor(bundleSize: int, spawnerPos: Vec3, colour: int)
      requires InSizeRange(bundleSize)
      ensures Valid() && PoolExact()
      ensures scene == Graph(map[], 0) && sticksInScene == []
      ensures sticksInABundle == bundleSize
      ensures possibleStickPositions == Slots(SlotStart, 1, 45)
      ensures spawnerPosition == spawnerPos && stickRadius == 0.03 && stickColour == colour
    {
      var cands := CalculatePossibleStickPositionsFixed(45);
      scene := Graph(map[], 0);
      sticksInScene := [];
      sticksInABundle := bundleSize;
      possibleStickPositions := cands;
      spawnerPosition := spawnerPos;
      stickRadius := 0.03;
      stickColour := colour;
    }

    /** `increaseSticksInABundle`. */
    method IncreaseSticksInABundle()
      requires Valid()
      modifies this
      ensures Valid()
      ensures sticksInABundle == IncreasedSize(old(sticksInABundle))
      ensures scene == old(scene) && sticksInScene == old(sticksInScene)
      ensures possibleStickPositions == old(possibleStickPositions)
      ensures spawnerPosition == old(spawnerPosition) && stickRadius == old(stickRadius) && stickColour == old(stickColour)
    {
      SizeSteps(sticksInABundle);
      sticksInABundle := if sticksInABundle + 1 < 12 then sticksInABundle + 1 else 12;
    }

    /** `decreaseSticksInABundle`. */
    method DecreaseSticksInABundle()
      requires Valid()
      modifies this
      ensures Valid()
      ensures sticksInABundle == DecreasedSize(old(sticksInABundle))
      ensures scene == old(scene) && sticksInScene == old(sticksInScene)
      ensures possibleStickPositions == old(possibleStickPositions)
      ensures spawnerPosition == old(spawnerPosition) && stickRadius == old(stickRadius) && stickColour == old(stickColour)
    {
      SizeSteps(sticksInABundle);
      sticksInABundle := if sticksInABundle - 1 > 2 then sticksInABundle - 1 else 2;
    }

    /** `areThereBundles`: some stick of the pool sits in a bundle. */
    method AreThereBundles() returns (b: bool)
      requires Valid()
      ensures b <==> exists x :: x in sticksInScene && InBundle(scene, x)
    {
      for i := 0 to |sticksInScene|
        invariant forall j :: 0 <= j < i ==> !InBundle(scene, sticksInScene[j])
      {
        var stick := sticksInScene[i];
        assert IsStick(scene, stick);
        var top := LargestGroup(scene, stick);
        if scene.nodes[top].kind == Group {
          assert InBundle(scene, stick);
          return true;
        }
      }
      return false;
    }

    /**
     * The inner loop of `spawnStick`: a stick at `pos` overlaps no other stick
     * of the pool than `stick` itself, by the `Box3` test `overlaps`.
     */
    method StickFits(stick: NodeId, pos: Vec3, overlaps: (Vec3, Vec3) -> bool) returns (fits: bool)
      requires Wf(scene) && forall j :: 0 <= j < |sticksInScene| && sticksInScene[j] != stick ==> sticksInScene[j] in scene.nodes
      ensures fits <==> forall j :: 0 <= j < |sticksInScene| && sticksInScene[j] != stick ==>
        !overlaps(pos, WorldPosition(scene, sticksInScene[j]))
    {
      fits := true;
      for j := 0 to |sticksInScene|
        invariant fits
        invariant forall j' :: 0 <= j' < j && sticksInScene[j'] != stick ==> !overlaps(pos, WorldPosition(scene, sticksInScene[j']))
      {
        var other := sticksInScene[j];
        if other != stick && overlaps(pos, WorldPosition(scene, other)) {
          fits := false;
          break;
        }
      }
    }

    /**
     * The search of `spawnStick`, run once the new stick is in the scene and
     * the pool: the first candidate where it fits, otherwise the fallback.
     * `g0` and `pool0` are the scene and pool before the stick was spawned.
     */
    method ChooseSpawnPlace(stick: NodeId, overlaps: (Vec3, Vec3) -> bool, choice: nat, jitter: Vec3,
                            ghost g0: Graph, ghost pool0: seq<NodeId>) returns (pos: Vec3)
      requires Wf(g0) && PoolOk(g0, pool0) && Wf(scene)
      requires sticksInScene == pool0 + [stick] && stick !in pool0
      requires SamePlaces(g0, scene, pool0)
      ensures pos == SpawnPlace(g0, pool0, possibleStickPositions, overlaps, spawnerPosition, choice, jitter)
    {
      var cands := possibleStickPositions;
      pos := spawnerPosition;
      var foundPos := true;
      for k := 0 to |cands|
        invariant foundPos ==> k == 0 && pos == spawnerPosition
        invariant !foundPos ==> k > 0 && forall j :: 0 <= j < k ==> !Free(g0, pool0, cands[j], overlaps)
      {
        pos := cands[k];
        FitsIsFree(g0, scene, pool0, stick, pos, overlaps);
        foundPos := StickFits(stick, pos, overlaps);
        if foundPos {
          FirstFreeIs(g0, pool0, cands, overlaps, k);
          break;
        }
      }
      if !foundPos {
        FirstFreeNone(g0, pool0, cands, overlaps);
        pos := cands[choice % |cands|].Plus(jitter.(y := 0.0));
      }
    }

    /**
     * The first half of `spawnStick`: the new stick, at the spawner, hangs
     * off the scene and joins the end of the pool.
     */
    method JoinScene(node: Node) returns (stick: NodeId)
      requires Valid() && node == NewStick(spawnerPosition, stickRadius, stickColour)
      modifies this
      ensures Valid()
      ensures stick == old(scene.nextId) && stick !in old(scene.nodes) && stick !in old(sticksInScene)
      ensures scene == Spawn(old(scene), node).0 && sticksInScene == old(sticksInScene) + [stick]
      ensures SamePlaces(old(scene), scene, old(sticksInScene))
      ensures old(PoolExact()) ==> PoolExact()
      ensures sticksInABundle == old(sticksInABundle) && possibleStickPositions == old(possibleStickPositions)
      ensures spawnerPosition == old(spawnerPosition) && stickRadius == old(stickRadius) && stickColour == old(stickColour)
    {
      ghost var g0, pool0 := scene, sticksInScene;
      var r := Spawn(scene, node);
      scene, stick := r.0, r.1;
      sticksInScene := sticksInScene + [stick];
      SpawnOthers(g0, node, pool0);
      SpawnKeeps(g0, node);
      StickJoinsPool(g0, scene, pool0, stick);
    }

    /** `stick.position.copy(pos)` for a stick of the pool: nothing else moves. */
    method MoveStick(stick: NodeId, pos: Vec3)
      requires Valid() && stick in sticksInScene
      modifies this
      ensures Valid()
      ensures scene == SetPosition(old(scene), stick, pos) && sticksInScene == old(sticksInScene)
      ensures old(PoolExact()) ==> PoolExact()
      ensures sticksInABundle == old(sticksInABundle) && possibleStickPositions == old(possibleStickPositions)
      ensures spawnerPosition == old(spawnerPosition) && stickRadius == old(stickRadius) && stickColour == old(stickColour)
    {
      ghost var g0 := scene;
      scene := SetPosition(scene, stick, pos);
      MovedStickPool(g0, sticksInScene, stick, pos);
    }

    /**
     * `spawnStick`: a new stick joins the scene and the end of the pool, with
     * order 0 and the spawner's radius, at the place `SpawnPlace` chooses.
     * `overlaps` stands for the `Box3` test, `choice` and `jitter` for the
     * random candidate and offset of the fallback.
     */
    method SpawnStick(overlaps: (Vec3, Vec3) -> bool, choice: nat, jitter: Vec3) returns (stick: NodeId)
      requires Valid()
      modifies this
      ensures Valid()
      ensures stick == old(scene.nextId) && stick !in old(scene.nodes) && scene.nextId == old(scene.nextId) + 1
      ensures sticksInScene == old(sticksInScene) + [stick]
      ensures scene == SetPosition(Spawn(old(scene), NewStick(old(spawnerPosition), old(stickRadius), old(stickColour))).0, stick,
        SpawnPlace(old(scene), old(sticksInScene), old(possibleStickPositions), overlaps, old(spawnerPosition), choice, jitter))
      ensures IsStick(scene, stick) && scene.nodes[stick].parent == InScene
      ensures scene.nodes[stick].order == 0 && scene.nodes[stick].radius == old(stickRadius)
      ensures scene.nodes.Keys == old(scene.nodes.Keys) + {stick} && Keeps(old(scene), scene)
      ensures old(PoolExact()) ==> PoolExact()
      ensures sticksInABundle == old(sticksInABundle) && possibleStickPositions == old(possibleStickPositions)
      ensures spawnerPosition == old(spawnerPosition) && stickRadius == old(stickRadius) && stickColour == old(stickColour)
    {
      ghost var g0, pool0, cands0, at0 := scene, sticksInScene, possibleStickPositions, spawnerPosition;
      var node := NewStick(spawnerPosition, stickRadius, stickColour);
      stick := JoinScene(node);
      var pos := ChooseSpawnPlace(stick, overlaps, choice, jitter, g0, pool0);
      assert pos == SpawnPlace(g0, pool0, cands0, overlaps, at0, choice, jitter);
      MoveStick(stick, pos);
      SpawnPlacedGraph(g0, node, pos);
    }

        /**
     * `spawnSticks(n)`: `spawnStick` run `n` times; the `i`-th run falls back
     * on `choice(i)` and `jitter(i)`. The new sticks are returned in order and
     * join the end of the pool.
     */
    method SpawnSticks(n: int, overlaps: (Vec3, Vec3) -> bool, choice: nat -> nat, jitter: nat -> Vec3)
      returns (sticks: seq<NodeId>)
      requires Valid()
      modifies this
      ensures Valid()
      ensures |sticks| == if n > 0 then n else 0
      ensures Grown(old(scene), old(sticksInScene), scene, sticksInScene, sticks)
      ensures old(PoolExact()) ==> PoolExact()
      ensures sticksInABundle == old(sticksInABundle) && possibleStickPositions == old(possibleStickPositions)
      ensures spawnerPosition == old(spawnerPosition) && stickRadius == old(stickRadius) && stickColour == old(stickColour)
    {
      sticks := [];
      var count := if n > 0 then n else 0;
      for i := 0 to count
        invariant Valid()
        invariant |sticks| == i
        invariant Grown(old(scene), old(sticksInScene), scene, sticksInScene, sticks)
        invariant old(PoolExact()) ==> PoolExact()
        invariant sticksInABundle == old(sticksInABundle) && possibleStickPositions == old(possibleStickPositions)
        invariant spawnerPosition == old(spawnerPosition) && stickRadius == old(stickRadius) && stickColour == old(stickColour)
      {
        ghost var before, beforePool := scene, sticksInScene;
        var stick := SpawnStick(overlaps, choice(i), jitter(i));
        GrownStep(old(scene), old(sticksInScene), before, beforePool, sticks, scene, stick);
        sticks := sticks + [stick];
      }
    }
  }

  /**
   * `g` and `pool` arise from `g0` and `pool0` by spawning `sticks`, in order:
   * fresh consecutive ids, sticks hanging off the scene that join the end of
   * the pool, and every old object kept as it was.
   */
  ghost predicate Grown(g0: Graph, pool0: seq<NodeId>, g: Graph, pool: seq<NodeId>, sticks: seq<NodeId>) {
    && pool == pool0 + sticks
    && g.nextId == g0.nextId + |sticks|
    && (forall i :: 0 <= i < |sticks| ==> sticks[i] == g0.nextId + i)
    && (forall x :: x in sticks ==> IsStick(g, x) && g.nodes[x].parent == InScene && g.nodes[x].order == 0)
    && (forall x :: x in g.nodes <==> x in g0.nodes || x in sticks)
    && Keeps(g0, g)
  }

  /** One more spawn extends the relation. */
  lemma GrownStep(g0: Graph, pool0: seq<NodeId>, g: Graph, pool: seq<NodeId>, sticks: seq<NodeId>, h: Graph, stick: NodeId)
    requires Grown(g0, pool0, g, pool, sticks)
    requires stick == g.nextId && h.nextId == g.nextId + 1
    requires Keeps(g, h) && h.nodes.Keys == g.nodes.Keys + {stick}
    requires IsStick(h, stick) && h.nodes[stick].parent == InScene && h.nodes[stick].order == 0
    ensures Grown(g0, pool0, h, pool + [stick], sticks + [stick])
  {
    var s' := sticks + [stick];
    forall x | x in s'
      ensures IsStick(h, x) && h.nodes[x].parent == InScene && h.nodes[x].order == 0
    {
      if x != stick {
        assert x in sticks && x in g.nodes;
      }
    }
  }

  /** Spawning keeps the world positions of the old pool, and the new id is not one of them. */
  lemma SpawnOthers(g: Graph, node: Node, pool: seq<NodeId>)
    requires Wf(g) && node.parent == Detached && node.children == [] && PoolOk(g, pool)
    ensures Wf(Spawn(g, node).0) && g.nextId !in g.nodes
    ensures g.nextId !in pool && SamePlaces(g, Spawn(g, node).0, pool)
  {
    SpawnKeeps(g, node);
    forall j | 0 <= j < |pool|
      ensures pool[j] in g.nodes
    {
      assert pool[j] in pool;
    }
    forall j | 0 <= j < |pool|
      ensures WorldPosition(Spawn(g, node).0, pool[j]) == WorldPosition(g, pool[j])
    {
      KeepsChain(g, Spawn(g, node).0, pool[j]);
    }
  }

  /** The sticks of `pool` are objects of both graphs, at the same world positions. */
  predicate SamePlaces(g: Graph, h: Graph, pool: seq<NodeId>)
    requires Wf(g) && Wf(h)
  {
    forall j :: 0 <= j < |pool| ==>
      pool[j] in g.nodes && pool[j] in h.nodes && WorldPosition(h, pool[j]) == WorldPosition(g, pool[j])
  }

  /** Once the new stick is in the pool, the inner test of `spawnStick` is `Free` over the old pool. */
  lemma FitsIsFree(g: Graph, h: Graph, pool: seq<NodeId>, stick: NodeId, pos: Vec3, overlaps: (Vec3, Vec3) -> bool)
    requires Wf(g) && Wf(h) && PoolOk(g, pool) && SamePlaces(g, h, pool) && stick !in pool
    ensures var p := pool + [stick];
      (forall j :: 0 <= j < |p| && p[j] != stick ==> p[j] in h.nodes)
      && ((forall j :: 0 <= j < |p| && p[j] != stick ==> !overlaps(pos, WorldPosition(h, p[j])))
          <==> Free(g, pool, pos, overlaps))
  {
    var p := pool + [stick];
    forall j | 0 <= j < |p| && p[j] != stick
      ensures j < |pool| && p[j] == pool[j]
    {
    }
    if forall j :: 0 <= j < |p| && p[j] != stick ==> !overlaps(pos, WorldPosition(h, p[j])) {
      forall j | 0 <= j < |pool|
        ensures !overlaps(pos, WorldPosition(g, pool[j]))
      {
        assert p[j] == pool[j] && p[j] != stick;
      }
    }
  }

  lemma FirstFreeIs(g: Graph, pool: seq<NodeId>, cands: seq<Vec3>, overlaps: (Vec3, Vec3) -> bool, k: nat)
    requires Wf(g) && (forall x :: x in pool ==> x in g.nodes) && k < |cands|
    requires Free(g, pool, cands[k], overlaps)
    requires forall j :: 0 <= j < k ==> !Free(g, pool, cands[j], overlaps)
    ensures FirstFree(g, pool, cands, overlaps, 0) == k
  {
  }

  lemma FirstFreeNone(g: Graph, pool: seq<NodeId>, cands: seq<Vec3>, overlaps: (Vec3, Vec3) -> bool)
    requires Wf(g) && (forall x :: x in pool ==> x in g.nodes)
    requires forall j :: 0 <= j < |cands| ==> !Free(g, pool, cands[j], overlaps)
    ensures FirstFree(g, pool, cands, overlaps, 0) == -1
  {
  }

  /** A new stick joining the pool keeps it a list of distinct sticks, and exact when it hangs off the scene. */
  lemma StickJoinsPool(g: Graph, h: Graph, pool: seq<NodeId>, id: NodeId)
    requires Wf(g) && Wf(h) && Keeps(g, h) && h.nodes.Keys == g.nodes.Keys + {id} && id !in g.nodes
    requires IsStick(h, id) && h.nodes[id].parent == InScene && h.nodes[id].kind == Mesh
    requires NoDups(pool) && PoolOk(g, pool)
    ensures NoDups(pool + [id]) && PoolOk(h, pool + [id])
    ensures ExactPool(g, pool) ==> ExactPool(h, pool + [id])
    ensures ShapesOk(g) ==> ShapesOk(h)
  {
    NoDupsAppend(pool, [id]);
    if ExactPool(g, pool) {
      AddedStickExact(g, h, pool, id);
    }
  }

  /** Moving a stick of the pool keeps the graph, the pool and its exactness as they were. */
  lemma MovedStickPool(g: Graph, pool: seq<NodeId>, stick: NodeId, pos: Vec3)
    requires Wf(g) && ShapesOk(g) && PoolOk(g, pool) && stick in pool
    ensures Wf(SetPosition(g, stick, pos)) && ShapesOk(SetPosition(g, stick, pos))
    ensures PoolOk(SetPosition(g, stick, pos), pool)
    ensures ExactPool(g, pool) ==> ExactPool(SetPosition(g, stick, pos), pool)
  {
    var h := SetPosition(g, stick, pos);
    SameStructureWf(g, h);
    assert ShapeOk(h.nodes[stick]);
    forall x | x in g.nodes
      ensures Attached(h, x) == Attached(g, x)
    {
      SameStructureAttached(g, h, x);
    }
  }

  /** After the new stick is placed, the old objects are as they were and the new one is a stick in the scene. */
  lemma SpawnPlacedGraph(g: Graph, node: Node, pos: Vec3)
    requires Wf(g) && node.parent == Detached && node.children == [] && node.shape == Cylinder
    ensures Wf(Spawn(g, node).0) && g.nextId !in g.nodes
    ensures var h := SetPosition(Spawn(g, node).0, g.nextId, pos);
      && Wf(h) && Keeps(g, h) && h.nodes.Keys == g.nodes.Keys + {g.nextId}
      && IsStick(h, g.nextId) && h.nodes[g.nextId].parent == InScene
  {
    var k := Spawn(g, node).0;
    var h := SetPosition(k, g.nextId, pos);
    SpawnKeeps(g, node);
    SameStructureWf(k, h);
  }

  /** A new stick hanging off the scene that joins the pool keeps the pool exact. */
  lemma AddedStickExact(g: Graph, h: Graph, pool: seq<NodeId>, id: NodeId)
    requires Wf(g) && Wf(h) && Keeps(g, h) && h.nodes.Keys == g.nodes.Keys + {id} && id !in g.nodes
    requires IsStick(h, id) && h.nodes[id].parent == InScene
    requires ExactPool(g, pool) && (forall x :: x in pool ==> x in g.nodes)
    ensures ExactPool(h, pool + [id])
  {
    forall x | x in h.nodes
      ensures x in pool + [id] <==> IsStick(h, x) && Attached(h, x)
    {
      if x != id {
        KeepsChain(g, h, x);
      }
    }
  }
}
