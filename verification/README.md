# Sticks: a model of the bundling engine and the pointer controls

The sticks demo is a three.js scene for counting with bundles of sticks. The
user spawns sticks, selects some, and gathers them into a bundle: a `Group`
holding the sticks and a coloured ring. Bundles can in turn be bundled, and
any bundle can be unbundled back into loose sticks. This project models the
parts of the demo that decide what happens:

- **Bundle geometry tables** (`bundle_lookup.dfy`, `early_bundle_lookup.dfy`). These give where each member goes, the bundle's radius and its centre, for bundles of 2 to 12 sticks (and of 2 to 9 in the older tables). Trigonometry, square roots and π are the fields of a `MathLib` value.
- **The scene graph** (`scene_graph.dfy`). Objects are numbered nodes with a parent, ordered children, a kind (`Mesh`, `Group`, `Object3D`), a geometry (cylinder or torus), an order, a radius, a position relative to the parent and a desired position. Objects are numbered so that a child always has a smaller id than its parent. The three.js operations the demo uses are functions on it: `attach`, which keeps the world position, `scene.add`, `scene.remove` and spawning.
- **The bundling engine** (`bundle_utils.dfy`, `bundle_err.dfy`, `utils.dfy`, `lists.dfy`). This covers `canBundle`'s ordered checks, `bundleSticks`, `removeSticks`, `unbundleSticks` and the tree helpers they use.
- **The application context** (`app.dfy`). `App` is a class with the scene, the pool `sticksInScene`, the bundle size, the candidate spawn places, and the spawner's position, radius and colour. Its methods model bundle-size clamping, first-fit spawning, bundle detection and `unbundleExistingBundles`. The pool invariant kept throughout is that the pool is exactly the list of sticks hanging off the scene, each once.
- **The pointer controls** (`pointer.dfy`, `selection_controls.dfy`, `drag_controls.dfy`, and the older copies in `early_selection.dfy`, `early_drag.dfy`, `prototype_drag.dfy`, `early_utils.dfy`). Each control is a class whose fields are the source's fields. The callbacks it fires are recorded in a `fired` trace.
  - A raycast is an input: the first object hit, and where the ray meets a given plane.
  - The drag controls' `setTimeout` hold check is a separate event, `OnHoldTimer`.
  - The main invariant is that hover callbacks pair up: every `onHover` is closed by an `onUnhover` of the same object before the next `onHover`. Also, a held object is always the hovered one.

## Model

| member | source | states |
|---|---|---|
| BundleLookup.Positions | source/js/BundleLookup.js:8-106 | `positionLookup[n]` is defined exactly for n in 2..12 and then holds n − 1 places |
| BundleLookup.Radius | source/js/BundleLookup.js:112-124 | `radiusLookup[n]` is defined exactly for n in 2..12 |
| BundleLookup.Center | source/js/BundleLookup.js:129-141 | `centerLookup[n]` is defined exactly for n in 2..12 |
| BundleLookup.Places | source/js/BundleLookup.js:9-106 | the anchor followed by the table's places: n places in all, the first one the anchor |
| BundleLookup.PositionsTranslate | source/js/BundleLookup.js:9-106 | moving the anchor by (dx, dy) moves every place of every table by (dx, dy) |
| BundleLookup.CenterTranslate | source/js/BundleLookup.js:129-141 | moving the anchor by (dx, dy) moves every centre by (dx, dy) |
| BundleLookup.PairExact | source/js/BundleLookup.js:9-11 | two sticks: the places are the anchor and (x0 + 2r, y0), and the centre (x0 + r, y0) is their midpoint |
| BundleLookup.SquareExact | source/js/BundleLookup.js:16-20 | four sticks form a square of side 2r with diagonals of squared length 8r², centred at (x0 + r, y0 + r), their centroid |
| BundleLookup.HexagonExact | source/js/BundleLookup.js:34-41 | seven sticks: when √3·√3 = 3, the centre is the anchor and the six other places are at distance 2r from it |
| BundleLookup.RadiusExact | source/js/BundleLookup.js:113-118 | the radius is 2r for two sticks and 3r for both six and seven |
| BundleLookup.GridRadius | source/js/BundleLookup.js:120 | the radius of nine sticks is √8·r + r |
| BundleLookup.GridExact | source/js/BundleLookup.js:51-60 | nine sticks form a 3×3 grid of pitch 2r starting at the anchor |
| BundleLookup.GridCenter | source/js/BundleLookup.js:137 | the centre of nine sticks is the middle grid point (x0 + 2r, y0 + 2r), the centroid of the nine places |
| Geometry.ToRad | source/js/BundleLookup.js:148-150 | degrees d become radians d·π/180 |
| Geometry.ToRadLinear | source/js/BundleLookup.js:148-150 | conversion is additive, and 180 degrees is π |
| EarlyBundleLookup.Positions | js/BundleLookup.js:5-57 | the older `positionLookup[n]` is defined exactly for n in 2..9 and then holds n − 1 places |
| EarlyBundleLookup.Radius | js/BundleLookup.js:60-69 | the older `radiusLookup[n]` is defined exactly for n in 2..9 |
| EarlyBundleLookup.Center | js/BundleLookup.js:71-80 | the older `centerLookup[n]` is defined exactly for n in 2..9 |
| EarlyBundleLookup.Places | js/BundleLookup.js:6-57 | the anchor followed by the older table's places: n places, the first the anchor |
| EarlyBundleLookup.AgreesWithCurrent | js/BundleLookup.js:60-69 | every older radius equals the current one, and every older place list and centre except those for six sticks too; sizes 10 to 12 are absent |
| EarlyBundleLookup.Translate | js/BundleLookup.js:5-80 | moving the anchor moves the older places and centres by the same amount |
| EarlyBundleLookup.LatticeExact | js/BundleLookup.js:24-30 | when cos 60° = 1/2, the six places of the older table are six points of a triangular lattice |
| EarlyBundleLookup.LatticePitch | js/BundleLookup.js:24-30 | neighbouring lattice points are 2r apart when sin² 60° = 3/4 |
| EarlyBundleLookup.LatticeCenter | js/BundleLookup.js:76 | given the trigonometric identities, the older centre for six sticks is the centroid of the six places |
| BundleErr.Message | source/js/BundleErrType.js:6-13 | each of the four values carries a non-empty message |
| BundleErr.LengthOfMessage | source/js/BundleErrType.js:6-9 | the four messages have lengths 64, 36, 34 and 44 |
| BundleErr.MessagesDistinct | source/js/BundleErrType.js:6-9 | two values share a message exactly when they are the same value |
| Lists.IndexOf | source/js/Utils.js:67 | `indexOf` is -1 exactly when the element is absent, otherwise the index of its first occurrence |
| Lists.RemoveFirstMultiset | source/js/Utils.js:66-71 | `indexOf` then `splice` removes one copy of the element when there is one and changes nothing otherwise |
| Lists.RemoveFirstNoDups | source/js/Utils.js:66-71 | removing from a list without duplicates keeps it so and leaves exactly the other elements |
| Lists.RemoveEachMultiset | source/js/Utils.js:78-86 | removing each element of a list in turn takes away one copy of each, as far as there is one |
| Lists.RemoveEachNoDups | source/js/Utils.js:78-86 | removing from a list without duplicates leaves exactly the elements not removed, still without duplicates |
| SceneGraph.SetPosition | source/js/App.js:108 | `position.copy` changes no link of the graph |
| SceneGraph.Attach | source/js/BundleUtils.js:76 | `attach` keeps the set of objects and the next id |
| SceneGraph.AttachAt | source/js/BundleUtils.js:76 | `attach` changes only the child's parent and local position and the child lists of its old and new parents; the child joins the end of the new parent's children |
| SceneGraph.AttachChain | source/js/BundleUtils.js:85-87 | `attach` keeps the graph well formed and every world position; the moved subtree is attached exactly when its new parent is |
| SceneGraph.AddToScene | source/js/BundleUtils.js:89 | `scene.add` keeps the set of objects and the next id |
| SceneGraph.AddToSceneChain | source/js/BundleUtils.js:89 | after `scene.add` the object's subtree is attached and nothing else changes attachment; world positions stay when the object had no parent object |
| SceneGraph.RemoveFromScene | source/js/BundleUtils.js:103 | `scene.remove` detaches an object hanging off the scene and leaves any other object, and every other object, as it was |
| SceneGraph.RemoveFromSceneChain | source/js/BundleUtils.js:103 | after `scene.remove` exactly the subtree of an object that hung off the scene is detached; world positions stay |
| SceneGraph.Spawn | source/js/App.js:99 | spawning adds exactly one object, with the next id |
| SceneGraph.SpawnKeeps | source/js/App.js:99 | the spawned object hangs off the scene, and every old object is kept as it was |
| Utils.LargestGroup | source/js/Utils.js:33-41 | the climb ends at an ancestor-or-self of the object whose parent is not an `Object3D` or `Group` |
| Utils.LargestGroupIdempotent | source/js/Utils.js:35-40 | climbing from the result finds the result again |
| Utils.GetLargestGroup | source/js/Utils.js:33-41 | `null` gives `null`; an object gives its outermost group (the older copy at source/js/utils.js:106-114 is the same code) |
| Utils.FlattenObject | source/js/Utils.js:116-122 | the list starts with the object and holds every object of its subtree exactly once |
| Utils.PreorderMembers | source/js/Utils.js:116-122 | the pre-order holds exactly the objects with the object on their parent chain |
| Utils.PreorderNoDups | source/js/Utils.js:116-122 | the pre-order has no duplicates |
| Utils.FlattenBundle | source/js/Utils.js:94-108 | the result holds exactly the cylinder leaves of the subtree, each once, in pre-order; the ring is left out |
| Utils.SticksMembers | source/js/Utils.js:94-108 | the sticks of a list are exactly its members that are childless cylinders |
| Utils.RemoveFromList | source/js/Utils.js:66-71 | only the first occurrence is removed; an absent element leaves the list unchanged; a present one shortens it by one |
| Utils.RemoveAllChildrenFromList | source/js/Utils.js:78-86 | the first occurrence of each leaf of the subtree is removed, leaf by leaf in pre-order |
| Utils.InteriorKept | source/js/Utils.js:78-86 | an object that is not a leaf of the subtree keeps every occurrence in the list |
| Utils.LeafRemovedOnce | source/js/Utils.js:78-86 | a leaf of the subtree loses exactly one occurrence if it has one |
| Utils.SetEmissiveAllChildren | source/js/Utils.js:50-59 | every object of the subtree whose material has an emissive colour gets the value; nothing else changes (the older copy at source/js/utils.js:119-128 is the same code) |
| Utils.ColourFromURL | source/js/Utils.js:8-15 | the result is always a usable colour: `#` followed by six hex digits |
| Utils.ColourFromURLValid | source/js/Utils.js:10 | the URL's colour is used exactly when the `c` parameter is given once and is six hex digits, in either case |
| Utils.ConstructLink | source/js/Utils.js:22-24 | the link is the origin, `?c=` and the colour with its first `#` cut out: the text before that `#` holds no `#`, and the text after it is kept whole; a colour without `#` is copied unchanged |
| Utils.HexColourLinkRoundTrip | source/js/Utils.js:8-24 | for any `#` and six hex digits, the link carries exactly the six digits, and reading them back as the only `c` value gives the same colour |
| Utils.ColourLinkRoundTrip | source/js/Utils.js:8-24 | a colour read from the URL survives a link: the link carries its six digits, and reading them back gives the same colour |
| BundleUtils.CanBundle | source/js/BundleUtils.js:17-32 | `null` exactly for a non-empty list of one order whose length is the bundle size; otherwise NONE_SELECTED for an empty list, DIFF_TYPES for mixed orders before any count check, then TOO_MANY or TOO_FEW |
| BundleUtils.RingColour | source/js/BundleUtils.js:69-70 | the ring of a bundle of order k ≥ 1 takes colour number (k − 1) mod 3 |
| BundleUtils.RingColourCycle | source/js/BundleUtils.js:69-70 | ring colours repeat every three orders, are always one of the three colours, and order 1 is yellow |
| BundleUtils.NewBundle | source/js/BundleUtils.js:45-76 | making the bundle allocates exactly two objects: the ring, then the group |
| BundleUtils.NewBundleShape | source/js/BundleUtils.js:47-76 | the group is one order above the first member, with the looked-up radius and centre at the first member's height, and holds only its ring, which sits at the group's centre |
| BundleUtils.SetDesiredPlaces | source/js/BundleUtils.js:79-82 | member i is sent to place i, relative to the bundle's centre; only desired positions of members change |
| BundleUtils.AttachMembers | source/js/BundleUtils.js:85-87 | every member is attached to the group in turn and ends up after its existing children, in order |
| BundleUtils.PrepareBundle | source/js/BundleUtils.js:45-82 | the group and ring are made, nothing old moves, and the members are sent to their places |
| BundleUtils.BundleScene | source/js/BundleUtils.js:45-89 | the new group hangs off the scene holding its ring and the members; each member keeps its world position; no other object changes except by losing children |
| BundleUtils.BundleSticks | source/js/BundleUtils.js:41-92 | an empty list gives `null` and changes nothing; otherwise the new group is returned and the scene is bundled as above; the pool is unchanged, and stays exact when every member was attached |
| BundleUtils.BundleOrderAbove | source/js/BundleUtils.js:47-49 | for an accepted selection the group is one order above every member, with the radius the table gives for the first member |
| BundleUtils.AsWrittenPlace | source/js/BundleUtils.js:79-81 | as written, member i reads entry i of `positionLookup`, which is missing past the table's n − 1 entries |
| BundleUtils.AsWrittenPlaceMissing | source/js/BundleUtils.js:79-81 | as written, the last member of every accepted selection has no place |
| BundleUtils.PlacesCover | source/js/BundleUtils.js:79-81 | with the first member kept at the anchor, every member of an accepted selection has a place; member i > 0 takes table entry i − 1 |
| BundleUtils.RemoveSticks | source/js/BundleUtils.js:100-106 | each object in turn leaves the scene and the leaves under it leave the pool; the pool stays exact when every object hung off the scene |
| BundleUtils.RemoveObject | source/js/BundleUtils.js:102-103 | for one object, the leaves of its subtree leave the pool and the object leaves the scene |
| BundleUtils.RemovedLeavesGone | source/js/BundleUtils.js:100-106 | what is left of a pool without duplicates is exactly every object except the leaves under the removed objects |
| BundleUtils.RemovedAttached | source/js/BundleUtils.js:103 | after the removals an object is attached exactly when it was and none of the removed objects is on its parent chain |
| BundleUtils.RemovedExactPool | source/js/BundleUtils.js:100-106 | the sticks under the removed objects leave the pool as they leave the scene, so an exact pool stays exact |
| BundleUtils.PlaceNewSticks | source/js/BundleUtils.js:121-124 | as intended: new stick i is put at the world position of old stick i, and will move back to where it spawned; nothing else changes |
| BundleUtils.SpawnAndPlace | source/js/BundleUtils.js:117-124 | one new stick per old stick joins the pool and is placed as above; the pool stays exact |
| BundleUtils.UnbundleOne | source/js/BundleUtils.js:116-126 | the old sticks are exactly the sticks of the subtree; as many new sticks are spawned and placed, then the object leaves the scene; the pool stays exact and keeps its length |
| BundleUtils.UnbundledLength | source/js/BundleUtils.js:114-129 | unbundling a bundle hanging off the scene removes from an exact pool exactly as many sticks as it spawned |
| BundleUtils.AsWrittenTargets | source/js/BundleUtils.js:123 | as written, the bundle's own position accumulates, so each new stick goes to the previous target moved by the next local position |
| BundleUtils.AsWrittenTargetsSum | source/js/BundleUtils.js:123 | as written, the `i`-th new stick goes to the bundle's position moved by the sum of the first `i + 1` local positions |
| BundleUtils.AsWrittenTargetsDrift | source/js/BundleUtils.js:123 | as written, every later new stick lands where its old stick is exactly when the local positions before it sum to zero; otherwise it is off by that sum |
| BundleUtils.UnbundleSticks | source/js/BundleUtils.js:114-129 | every `Group` of the list is unbundled and anything else is skipped; a list without groups changes nothing; with distinct groups off the scene, an exact pool stays exact and keeps its length |
| BundleUtils.CollectBundles | source/js/App.js:197-203 | the outermost group of every pool stick that has one is collected, each once, and nothing else is |
| BundleUtils.TopInScene | source/js/App.js:199 | where only groups have children, the outermost group of an attached object hangs directly off the scene |
| BundleUtils.NoBundlesLeft | source/js/App.js:196-206 | after unbundling every collected group of an exact pool, no stick of the new pool is in a bundle |
| BundleUtils.UnbundleExistingBundles | source/js/App.js:196-206 | with an exact pool, the pool stays exact, keeps its length, and no stick is left in a bundle |
| AppContext.IncreasedSize | source/js/App.js:184-186 | one more, but never above 12 |
| AppContext.DecreasedSize | source/js/App.js:192-194 | one fewer, but never below 2 |
| AppContext.SizeSteps | source/js/App.js:184-194 | both buttons keep the size in 2..12, and a step away from either end is undone by the opposite step |
| AppContext.NextSlotRow | source/js/App.js:144-158 | the row count stays in 1..3 and never decreases |
| AppContext.SlotsShape | source/js/App.js:139-162 | the walk yields as many places as it takes steps, all at the height of its start |
| AppContext.SlotCountOffByOne | source/js/App.js:143 | the bound `i <= n` yields n + 1 places, not n |
| AppContext.CalculatePossibleStickPositions | source/js/App.js:138-163 | as written: the walk's first n + 1 places, all at y = 0.3 |
| AppContext.CalculatePossibleStickPositionsFixed | source/js/App.js:138-163 | corrected: exactly n places of the same walk, all at y = 0.3 |
| AppContext.FirstFree | source/js/App.js:106-120 | the first candidate from k on where the new stick overlaps no pool stick, with every earlier candidate taken, or −1 when none is free |
| AppContext.SpawnPlaceFirstFit | source/js/App.js:105-127 | when some candidate is free, the stick goes to a free candidate and every earlier candidate is taken |
| AppContext.App.constructor | source/js/App.js:28-41 | an empty scene and pool with an exact pool, the given size and spawner, and 45 candidate places |
| AppContext.App.IncreaseSticksInABundle | source/js/App.js:184-186 | the size becomes `IncreasedSize` of the old size; nothing else changes |
| AppContext.App.DecreaseSticksInABundle | source/js/App.js:192-194 | the size becomes `DecreasedSize` of the old size; nothing else changes |
| AppContext.App.AreThereBundles | source/js/App.js:208-215 | true exactly when some stick of the pool is in a bundle |
| AppContext.App.StickFits | source/js/App.js:111-117 | true exactly when a stick at the place overlaps no other stick of the pool |
| AppContext.App.ChooseSpawnPlace | source/js/App.js:105-127 | the place chosen is the first free candidate, else the fallback, judged against the pool before the spawn |
| AppContext.App.JoinScene | source/js/App.js:99-100 | the new stick has a fresh id, hangs off the scene and joins the end of the pool; the pool stays exact |
| AppContext.App.MoveStick | source/js/App.js:108 | only the stick's position changes; the pool stays exact |
| AppContext.App.SpawnStick | source/js/App.js:97-130 | one new stick with order 0 and the spawner's radius joins the end of the pool, hanging off the scene at the chosen place; every old object is kept; the pool stays exact |
| AppContext.App.SpawnSticks | source/js/App.js:172-178 | n new sticks (none for n ≤ 0), in order, with fresh ids, all joining the end of the pool; the pool stays exact |
| AppContext.StickJoinsPool | source/js/App.js:100 | a new stick joining the pool keeps it a list of distinct sticks, and exact when the stick hangs off the scene |
| AppContext.MovedStickPool | source/js/App.js:108 | moving a stick of the pool keeps the graph well formed and the pool exact |
| AppContext.AddedStickExact | source/js/App.js:99-100 | a new stick hanging off the scene that joins the pool keeps the pool exact |
| Pointer.RelativeMousePosition | source/js/RelativeDragControls.js:75-80 | x + 1 is twice the offset from the left edge over the width; 1 − y is twice the offset from the top over the height (the selection controls at source/js/SelectionControls.js:58-63 and the older drag controls at js/RelativeDragControls.js:69-74 normalise the same way) |
| Pointer.RelativeRoundTrip | source/js/RelativeDragControls.js:75-80 | normalising and mapping back to client coordinates are inverses, both ways |
| Pointer.RelativeCorners | source/js/RelativeDragControls.js:75-80 | the top-left corner maps to (−1, 1), the centre to (0, 0), the bottom-right corner to (1, −1) |
| Pointer.RelativeInRange | source/js/RelativeDragControls.js:75-80 | a pointer over the canvas normalises into [−1, 1] in both directions |
| Pointer.Target | source/js/SelectionControls.js:87-89 | there is a target exactly when the ray hits something; it is an ancestor-or-self of the hit that climbs no further |
| Selection.Deselected | source/js/SelectionControls.js:118-121 | a present object is removed (its first occurrence); for an absent one `splice(-1, 1)` drops the last element |
| Selection.ClickToggles | source/js/SelectionControls.js:91-98 | a click toggles the target's membership and no other object's, keeps the list free of duplicates, and fires `onSelect` or `onDeselect` to match |
| Selection.ClickTwice | source/js/SelectionControls.js:91-98 | clicking an unselected target twice restores the list, firing one select then one deselect; a selected target moves to the end |
| Selection.SelectionControls.constructor | source/js/SelectionControls.js:9-15 | nothing selected, no callbacks fired |
| Selection.SelectionControls.OnMouseDown | source/js/SelectionControls.js:70-72 | the time stamp is recorded and nothing else changes |
| Selection.SelectionControls.OnMouseUp | source/js/SelectionControls.js:81-101 | after more than 200 ms, or with no hit, nothing changes; otherwise the outermost group of the hit is toggled with its callback; the list stays free of duplicates |
| Selection.SelectionControls.Select | source/js/SelectionControls.js:108-111 | the object is appended, then `onSelect` fires |
| Selection.SelectionControls.Deselect | source/js/SelectionControls.js:118-121 | the object is removed as `Deselected` says, then `onDeselect` fires |
| EarlySelection.SelectionControls.constructor | js/SelectionControls.js:9-15 | nothing selected, no callbacks fired |
| EarlySelection.SelectionControls.OnMouseDown | js/SelectionControls.js:70-72 | the time stamp is recorded and nothing else changes |
| EarlySelection.SelectionControls.OnMouseUp | js/SelectionControls.js:81-103 | the inline toggle has the same effect and callbacks as the current controls' click, and keeps the list free of duplicates |
| RelativeDrag.Rehover | source/js/RelativeDragControls.js:105-119 | the hover becomes the target; callbacks fire exactly when the target differs from the hover, at most an unhover and a hover |
| RelativeDrag.RehoverPaired | source/js/RelativeDragControls.js:105-119 | re-hovering keeps hover callbacks paired: an open hover of the old object becomes an open hover of the target |
| RelativeDrag.DragCallbackPaired | source/js/RelativeDragControls.js:99-103 | drag callbacks leave the hover pairing as it was |
| RelativeDrag.MovedPaired | source/js/RelativeDragControls.js:93-120 | a move keeps the controls paired; the hover follows the target only while nothing is held; nothing fires exactly when nothing is held and the target is already hovered |
| RelativeDrag.HoldCheckedPaired | source/js/RelativeDragControls.js:136-146 | the hold check keeps the controls paired; afterwards something is held exactly when it was, or something is hovered and the pointer is still down |
| RelativeDrag.PressReleasePaired | source/js/RelativeDragControls.js:133-165 | press and release keep the controls paired; release clears the button and the held object, firing `onDragEnd` exactly when something was held |
| RelativeDrag.ReleaseBeforeHoldCheck | source/js/RelativeDragControls.js:136-165 | a release before the hold check fires means no drag starts and nothing fires |
| RelativeDrag.HoldDoesNotJump | source/js/RelativeDragControls.js:136-146 | the offset recorded at the hold check makes the next drag update leave the object where it was |
| RelativeDrag.RelativeDragControls.constructor | source/js/RelativeDragControls.js:31-37 | nothing hovered or held, zero offset, button up, no checks pending, nothing fired |
| RelativeDrag.RelativeDragControls.DragRelativeTo | source/js/RelativeDragControls.js:64-66 | only the movement plane changes |
| RelativeDrag.RelativeDragControls.OnMouseMove | source/js/RelativeDragControls.js:93-120 | a held object moves to the intersection plus the offset and fires one `onDragUpdate`; otherwise the hover follows the target's outermost group; the pairing invariant is kept |
| RelativeDrag.RelativeDragControls.OnMouseDown | source/js/RelativeDragControls.js:133-150 | the button goes down, and a hold check is scheduled exactly when something is hovered |
| RelativeDrag.RelativeDragControls.OnHoldTimer | source/js/RelativeDragControls.js:136-146 | a hovered object is held when the button is still down, with the offset from the intersection to its position, and `onDragStart` fires |
| RelativeDrag.RelativeDragControls.OnMouseUp | source/js/RelativeDragControls.js:159-165 | the button goes up; a held object is released with `onDragEnd` |
| EarlyDrag.RelativeDragControls.constructor | js/RelativeDragControls.js:25-31 | nothing hovered or held, zero offset, nothing fired |
| EarlyDrag.RelativeDragControls.DragRelativeTo | js/RelativeDragControls.js:58-60 | only the movement plane changes |
| EarlyDrag.RelativeDragControls.OnMouseMove | js/RelativeDragControls.js:87-111 | a held object moves to the intersection plus the offset with one `onDragUpdate`; otherwise the hover becomes the raw first hit with paired callbacks |
| EarlyDrag.RelativeDragControls.OnMouseDown | js/RelativeDragControls.js:121-133 | a hovered object is held at once, with an offset that puts it back at its position, and `onDragStart` fires; otherwise nothing changes |
| EarlyDrag.RelativeDragControls.OnMouseUp | js/RelativeDragControls.js:140-145 | the held object is released with `onDragEnd`; nothing is held afterwards |
| PrototypeDrag.RelativeDragControls.constructor | RelativeDragControls.js:18-24 | nothing hovered or held |
| PrototypeDrag.RelativeDragControls.DragRelativeTo | RelativeDragControls.js:51-53 | only the movement plane changes |
| PrototypeDrag.RelativeDragControls.OnMouseMove | RelativeDragControls.js:55-75 | a held object moves to the plane intersection with no offset; otherwise the hover becomes the first hit or nothing |
| PrototypeDrag.RelativeDragControls.OnMouseDown | RelativeDragControls.js:77-82 | the hovered object, if any, becomes held; otherwise the held object stays |
| PrototypeDrag.RelativeDragControls.OnMouseUp | RelativeDragControls.js:83-86 | nothing is held afterwards, unconditionally |
| EarlyUtils.RemoveObjects | source/js/utils.js:147-158 | the first occurrence of every leaf of the subtree is removed from the list, leaf by leaf in pre-order |
| EarlyUtils.NoLeafLeavesList | source/js/utils.js:147-158 | a list holding no leaf of the subtree is left unchanged |
| EarlyUtils.ShouldUnbundleButtonShow | source/js/utils.js:160-168 | `block` exactly when some selected object is a `Group`, `none` otherwise |

## Left out

- Rendering and DOM glue is not modelled: source/js/Setup.js, both main.js files, js/utils.js, and the DOM methods of App.js (`resizeCanvas`, `setStickColour`, `setSticksInABundle`, the display updates, `showOrHideButtons`, number-to-words). Setup.js also has defects of its own: the "fewer" button raises the size when bundles exist, and `deselectAll` is never defined. The model does not absorb them.
- `changeDimension` in source/js/utils.js is a debug camera helper and is not modelled.
- StickSpawner.js (both copies) is not part of this model. `spawn` is `SceneGraph.Spawn`: a fresh childless cylinder at the spawner, hanging off the scene.
- `Box3.setFromObject` and `intersectsBox` become the `overlaps` parameter, applied to world positions.
- `Raycaster.intersectObjects` and `Ray.intersectPlane` become the `Raycast` input. A ray that misses the plane leaves the intersection at the origin, as the fresh `Vector3` does.
- Randomness becomes parameters. `randomElementFromArray` is the `choice` index and `randomVector` is the `jitter` vector; `randomVector`'s `Math.random - 0.5` slip and its NaN are not modelled. `vecsNearlyEqual` is not modelled.
- Floating point: the model computes over `real`. `Math.sin`, `cos`, `tan`, `sqrt` and π are uninterpreted fields of `MathLib`, and packing or non-overlap for the trigonometric tables is not proved.
- Timing: `HOLD_TIME` is not modelled. Only the order of the pointer events and the hold-check event matters.
- `console.log` calls and the test files are not modelled.
- Aliasing: the handlers that move an object take the scene graph and return a new one rather than mutating a shared three.js scene. `App` owns its scene as a field.
- `Utils.FlattenBundle`: a childless object with no geometry throws a TypeError in the source; the model returns the empty list for it.
- `Pointer.RelativeMousePosition`: requires a canvas with non-zero width and height; the source then divides by zero and yields Infinity or NaN.
- `BundleUtils.BundleSticks`: requires at most `sticksInABundle` members; the source's `undefined` list is not modelled. Past the table the source throws anyway (see Findings).
- `BundleUtils.BundleSticks`: models line 81 as corrected (member 0 at the anchor, member i at table entry i − 1); `BundleUtils.AsWrittenPlace` models it as written.
- `BundleUtils.UnbundleOne`: models line 123 as corrected. The unbundled object's own position is not mutated, and each new stick goes to its old stick's world position. `BundleUtils.AsWrittenTargets` models it as written.
- `BundleUtils.UnbundleOne`: returns the flattened list and the new sticks, which the source keeps local. It states only that each new stick has a desired position, not which one; `BundleUtils.PlaceNewSticks` states that it is the stick's spawn place.
- `AppContext.App.constructor`: builds its candidate places with the corrected `calculatePossibleStickPositions`, so there are 45 of them, not the 46 that line 41 of source/js/App.js gets as written. The function's own test (test/test_app.js:89-94) expects `n` places for `n`, so the model follows the intended count (see Findings).
- `RelativeDrag.RelativeDragControls.OnHoldTimer`: the ray it is given is any ray. In the source it is cast from the pointer-down event's coordinates at the moment the delay ends, and the model does not tie it to that event.
- `RelativeDrag.RelativeDragControls.OnHoldTimer`: each pointer-down on a hovered object schedules its own check. Two pointer-downs before a release (multi-touch) can fire `onDragStart` twice for the same hold. The model keeps the count of pending checks, but states no invariant against this.
- `Selection.Deselected`: an absent object drops the last element (`splice(-1, 1)`), as written. No click reaches this case, since a click deselects only a selected object.

## Findings

| source | as written | input that shows it | evidently intended | confidence | as-written member | corrected member |
|---|---|---|---|---|---|---|
| source/js/App.js:143 | `for (let i = 0; i <= n; i++)` yields n + 1 places | n = 45 gives 46 places; test/test_app.js:90-94 expects n | exactly n places (`i < n`) | not executed | AppContext.SlotCountOffByOne | AppContext.CalculatePossibleStickPositionsFixed |
| source/js/BundleUtils.js:79-81 | member i reads `positions[i]`, but the table for n sticks has n − 1 entries | any selection `canBundle` accepts, e.g. two sticks of order 0 with size 2: `positions[1]` is undefined and `.x` throws | member 0 stays at the anchor, member i > 0 takes `positions[i − 1]` | not executed | BundleUtils.AsWrittenPlaceMissing | BundleUtils.PlacesCover |
| source/js/BundleUtils.js:123 | `object.position.add(child.position)` moves the bundle itself each round, so targets accumulate | a bundle at the origin with sticks at (1, 0, 0) and (−1, 0, 0): the second new stick goes to the origin | each new stick goes to its old stick's world position | not executed | BundleUtils.AsWrittenTargetsDrift | BundleUtils.PlaceNewSticks |
