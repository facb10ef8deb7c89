# Road placement and item editing, modelled in Dafny

This project models the engine-independent core of a Unity traffic-scene builder. It has three parts.

- **The road placement session** (`PlacementManager`, `RoadPiece`, `SnapPoint`).
  - A preview road follows the cursor.
  - On every cursor update it snaps to a grid. It can also snap onto the nearest free connection marker ("snap point") of a road placed earlier.
  - When the cursor is released, the preview is committed to `placedRoads`, or discarded if it overlaps a placed road.
  - Committing occupies both ends of every linked marker on the piece.
- **The confirm/edit panel** (`ConfirmBuildPanel`, `BuildItem`).
  - It shows the edit panels that belong to an item's kind.
  - It builds a road as a group of `max(1, round(length))` segments, 5 units apart.
  - It applies edits. A road is grown or shrunk while its prefix is kept; every other kind gets its parsed settings, with a failed parse storing 0.
- **The edit state of a selected item** (`SelectableItemController` and the dragging flag of its `ItemDragger`).
  - The state covers selection, move mode, the pose and the last applied pose.
  - It also covers the transparent materials swapped in while the item is selected.

## How the model is built

- **Component references.** A reference to a component is a handle into a store (a `map`). A handle that is not in the store is Unity's `null`, and this includes destroyed objects.
- **Engine services are inputs:**
  - the instantiated preview (`Placement.Spawn`);
  - the ground ray hit;
  - the world frames of the snap markers (`SnapPoints.Frames`);
  - the physics and collider readings (`Placement.Probe`);
  - the camera spawn position and new handles of a built road;
  - the results of `float.TryParse` / `int.TryParse` (`None` for a failed parse).
- **Distances and rotations.**
  - Positions are triples of reals.
  - `Vector3.Distance(a, b) < r` is compared as `DistSq(a, b) < SqLimit(r)` (see `Geometry.SquaredComparison`).
  - Rotations during placement are symbolic terms: `Aligned(from, to, base)` for `FromToRotation(from, to) * base`, and `LocalYaw(deg, base)` for `Rotate(up, deg)`.
  - A selected item's rotation is a yaw in `[0, 360)` about world up.
- **Rounding.** `Mathf.Round` and `Mathf.RoundToInt` round half to even (`Numerics.RoundHalfEven`).
- **Exceptions.** A null dereference that escapes is a `Completion.Threw` carrying the state as it was at the throw.
- **Nearest-point search.** Both nearest-point loops use a strict `<` against a running best, which starts at the distance limit. They share one model, `FirstMin.Scan`. Its answer is characterised independently by `FirstMin.IsFirstMin`: the first accepted element of minimal distance.

The placement code sets `firstFrameAfterSpawn` at every start and never clears it. So once any session has started, `TrySnapOrGrid` only grid-snaps, and the connection-matching branch is never taken again (`Placement.SnapBranchUnreachableAfterStart`). The pair selection is still modelled and proved as a standalone function (`Placement.SelectPair` over `Placement.CandidatePairs`).

Nothing in the modelled code assigns `SnapPoint.connectedTo`, so the commit loop only occupies markers whose links were set elsewhere (in the editor). `Release` leaves the link in place.

## Model

| member | source | states |
|---|---|---|
| Numerics.RoundHalfEven | Assets/Scripts/PlacementManager.cs:211-212 | the result is within one half of the argument, and an exact half goes to the even neighbour |
| Numerics.RoundIsNearest | Assets/Scripts/PlacementManager.cs:211-212 | no integer is nearer to the argument than its half-to-even rounding |
| Numerics.RoundHalfEvenUnique | Assets/Scripts/PlacementManager.cs:211-212 | exactly one integer is the half-to-even rounding of a real |
| Numerics.Max | Assets/Scripts/Scriptables/ConfirmBuildPanel.cs:215 | the larger of two integers is at least both and is one of them |
| Numerics.Clamp | Assets/Scripts/SelectableItemController.cs:68 | for `min <= max` the result lies in `[min, max]`; a value already in range is returned as it is |
| Numerics.WrapDegrees | Assets/Scripts/SelectableItemController.cs:80-81 | an angle is reduced to `[0, 360)`, and angles already in range are unchanged |
| Numerics.WrapOfSum | Assets/Scripts/SelectableItemController.cs:80-81 | turning a wrapped angle is turning the angle: wrapping commutes with adding a turn |
| Numerics.WrapWholeTurns | Assets/Scripts/SelectableItemController.cs:80-81 | adding whole turns does not change a wrapped angle |
| Geometry.SquaredComparison | Assets/Scripts/PlacementManager.cs:180-181 | a non-negative distance is below a limit exactly when its square is below the squared limit (zero for a non-positive limit) |
| Geometry.ShrunkBoxWithin | Assets/Scripts/PlacementManager.cs:238-239 | a box whose extents are scaled by a factor in [0, 1] keeps non-negative extents and lies inside the original box |
| Geometry.WithinIntersects | Assets/Scripts/PlacementManager.cs:250 | a box that touches another keeps touching it when it is replaced by a box containing it |
| Geometry.ShrunkBoxTouchesLess | Assets/Scripts/PlacementManager.cs:238-250 | with `overlapShrink` in [0, 1], the shrunk preview bounds touch a collider only when the full bounds do, so shrinking never adds an overlap |
| Geometry.IntersectsSymmetric | Assets/Scripts/PlacementManager.cs:250 | box intersection does not depend on argument order |
| FirstMin.ScanFromCorrect | Assets/Scripts/RoadPiece.cs:59-71 | the strict-`<` running-best loop keeps its invariant, so it answers none exactly when nothing is accepted, and otherwise the first accepted index of minimal key |
| FirstMin.Scan | Assets/Scripts/RoadPiece.cs:59-72 | none iff no element passes the filter strictly within the limit; otherwise an index that is accepted, no farther than any accepted element, and strictly nearer than every accepted element before it |
| FirstMin.ScanIsFirstMin | Assets/Scripts/PlacementManager.cs:168-192 | the scan returns index `k` exactly when `k` is the first accepted index of minimal key |
| SnapPoints.Fresh | Assets/Scripts/SnapPoint.cs:7-10 | a new marker is unoccupied, unlinked and has no owner |
| SnapPoints.Awake | Assets/Scripts/SnapPoint.cs:12-15 | `parentRoad` becomes the enclosing road piece; occupancy and link are kept |
| SnapPoints.Occupy | Assets/Scripts/SnapPoint.cs:17-20 | the marker is occupied; link and owner are unchanged |
| SnapPoints.Release | Assets/Scripts/SnapPoint.cs:22-25 | the marker is free; link and owner are unchanged (the link is not cleared) |
| SnapPoints.OccupyIdempotent | Assets/Scripts/SnapPoint.cs:17-20 | occupying twice is occupying once |
| SnapPoints.OccupyReleaseRoundTrip | Assets/Scripts/SnapPoint.cs:17-25 | releasing undoes occupying a marker that was free |
| SnapPoints.FreshOccupyRelease | Assets/Scripts/SnapPoint.cs:7-25 | a fresh marker, occupied and released, is fresh again |
| SnapPoints.OccupyAt | Assets/Scripts/PlacementManager.cs:108-112 | occupying through a handle changes only that marker, and only if it is live |
| RoadPieces.Default | Assets/Scripts/RoadPiece.cs:14-24 | a new piece is `Straight`, 1 lane, snap size 1, rotation step 90, with no markers |
| RoadPieces.SetParents | Assets/Scripts/RoadPiece.cs:41-44 | every live collected marker gets the piece as owner; every other marker is untouched |
| RoadPieces.AutoCollect | Assets/Scripts/RoadPiece.cs:37-45 | the array becomes the markers found among the children, each live one is owned by the piece, and nothing else changes |
| RoadPieces.Awake | Assets/Scripts/RoadPiece.cs:31-35 | markers are collected only when the array is empty; a filled array is kept as it is |
| RoadPieces.GetClosestSnapPoint | Assets/Scripts/RoadPiece.cs:55-73 | null for an empty array; null iff no live marker lies strictly within `maxDist`; otherwise the first live marker of minimal distance |
| RoadPieces.ClosestIsWithinRange | Assets/Scripts/RoadPiece.cs:59-68 | a returned marker is live, is in the array, and is strictly closer than `maxDist` |
| Placement.Initial | Assets/Scripts/PlacementManager.cs:9-29 | a fresh manager is not placing, has no preview or piece, and has placed nothing |
| Placement.GridRoundIsRoundedMultiple | Assets/Scripts/PlacementManager.cs:211-212 | a grid-rounded coordinate is `n * snapSize`, with `n` the half-to-even rounding of `v / snapSize` |
| Placement.GridRoundIsNearest | Assets/Scripts/PlacementManager.cs:211-212 | no multiple of the snap size is nearer to the coordinate than the rounded one |
| Placement.GridRoundOfMultiple | Assets/Scripts/PlacementManager.cs:211-212 | a coordinate on the grid is left where it is |
| Placement.SnapToGrid | Assets/Scripts/PlacementManager.cs:208-215 | with no current piece the point is returned unchanged; otherwise `y` is 0 and `x`, `z` are grid-rounded |
| Placement.SnapToGridIdempotent | Assets/Scripts/PlacementManager.cs:208-215 | snapping a snapped point again changes nothing |
| Placement.PairsWith | Assets/Scripts/PlacementManager.cs:176-179 | the inner loop visits exactly the live markers of the preview |
| Placement.PairsOfRoad | Assets/Scripts/PlacementManager.cs:172-174 | the middle loop visits exactly the live, unoccupied markers of a road, each against every live preview marker |
| Placement.CandidatePairs | Assets/Scripts/PlacementManager.cs:168-192 | the visited pairs are exactly the pairs of a free marker on a live placed road and a live preview marker, with their reported frames |
| Placement.SelectPair | Assets/Scripts/PlacementManager.cs:158-192 | none iff no facing pair is strictly within `snapRange`; otherwise the first facing pair of minimal distance |
| Placement.SelectedPairQualifies | Assets/Scripts/PlacementManager.cs:168-192 | a selected pair has a free marker of a placed road, is strictly closer than `snapRange`, and has a forward dot product of at most 0.9 |
| Placement.SelectedPairIsNearest | Assets/Scripts/PlacementManager.cs:168-192 | no qualifying pair is closer than the selected one |
| Placement.TiesGoToTheEarlierPair | Assets/Scripts/PlacementManager.cs:181 | of two facing pairs at equal distance, the later one is never chosen |
| Placement.SnapTranslation | Assets/Scripts/PlacementManager.cs:356-357 | the piece moves so that its marker, carried with it before the turn that follows, lands on the target |
| Placement.AlignToSnapPoint | Assets/Scripts/PlacementManager.cs:352-361 | a no-op when any argument is null; otherwise the marker, carried with the piece before the turn, lands on the target, and the rotation turns the marker against the target's forward |
| Placement.TrySnapOrGrid | Assets/Scripts/PlacementManager.cs:151-206 | a no-op without preview or piece; otherwise only the preview's pose changes. On the first frame, or with no qualifying pair, it is the grid-snapped hit with the rotation kept; with a selected pair it is `AlignToSnapPoint` onto that pair |
| Placement.AnyBlockingHit | Assets/Scripts/PlacementManager.cs:229-235 | true iff some reported collider is outside the preview and belongs to a road |
| Placement.AnyObstructing | Assets/Scripts/PlacementManager.cs:244-252 | true iff some collider of the road is enabled, outside the preview, and intersects the box |
| Placement.AnyRoadObstructs | Assets/Scripts/PlacementManager.cs:240-253 | true iff some live placed road has such a collider |
| Placement.IsOverlapping | Assets/Scripts/PlacementManager.cs:218-256 | false with no preview, no placed road or no preview collider; otherwise true iff a blocking physics hit exists or a placed road's collider obstructs the shrunk box |
| Placement.DestroyPreview | Assets/Scripts/PlacementManager.cs:333-349 | the preview, piece and preview materials are gone and placing stops; placed roads and markers are untouched |
| Placement.StartPlacingRoad | Assets/Scripts/PlacementManager.cs:60-84 | any previous preview is replaced; the new one is at the snapped ground hit (the origin on a miss); placing and the first-frame flag are set; every live road and marker keeps its handle and value, and the only new markers are the spawned ones. The spawned handles must be fresh, as `Instantiate` guarantees |
| Placement.LinkEndsOnlyReadsLinks | Assets/Scripts/PlacementManager.cs:106-113 | which ends the commit loop occupies depends only on the markers' links, not on their occupancy |
| Placement.OccupyLinks | Assets/Scripts/PlacementManager.cs:106-113 | both ends of every live link on the piece become occupied, and no other marker changes |
| Placement.FinishPlacingRoad | Assets/Scripts/PlacementManager.cs:86-124 | a no-op unless placing with a preview; an overlap discards the preview; without a piece it throws after releasing the materials; otherwise it appends exactly the piece, occupies the linked ends, and resets the session; the settings are kept |
| Placement.RotatePreview | Assets/Scripts/PlacementManager.cs:49-50 | Q / E turn the preview by minus / plus the piece's rotation step about its up axis, keeping its position; it throws with no piece |
| Placement.FinishCommitsOnce | Assets/Scripts/PlacementManager.cs:86-121 | a commit grows `placedRoads` by one, and a second finish right after it changes nothing |
| Placement.DiscardLeavesNoResidue | Assets/Scripts/PlacementManager.cs:91-96 | discarding an overlapping preview keeps placed roads and markers and ends the session |
| Placement.CommitOccupiesLinkedEnds | Assets/Scripts/PlacementManager.cs:106-113 | after a commit, each linked live marker of the piece and its partner are occupied |
| Placement.FirstFrameFlagSticks | Assets/Scripts/PlacementManager.cs:58-84 | no operation clears `firstFrameAfterSpawn` once it is set |
| Placement.SnapBranchUnreachableAfterStart | Assets/Scripts/PlacementManager.cs:162-166 | after any start, every later cursor update only grid-snaps and keeps the rotation, whatever operations come in between |
| BuildItems.Fresh | Assets/Scripts/Scriptables/BuildItem.cs:7-35 | a new item has `length` 1, no segments, no data, and zero settings |
| BuildItems.Initialize | Assets/Scripts/Scriptables/BuildItem.cs:37-42 | links the data, snapshots its name and image, and changes no other field |
| BuildItems.InitializeIdempotent | Assets/Scripts/Scriptables/BuildItem.cs:37-42 | initialising twice with the same data is initialising once |
| BuildItems.UntouchedIsEquality | Assets/Scripts/Scriptables/BuildItem.cs:7-35 | the field groups cover the record: agreeing on every group and on the snapshot is equality |
| ConfirmBuild.PanelsAreTheOwnersPanels | Assets/Scripts/Scriptables/ConfirmBuildPanel.cs:132-180 | a panel is shown exactly when it belongs to the item's type (and, for rules, its rule type) |
| ConfirmBuild.PanelCounts | Assets/Scripts/Scriptables/ConfirmBuildPanel.cs:132-180 | roads, vehicles, pedestrians and signs get one panel, traffic lights five, spawners two |
| ConfirmBuild.Initial | Assets/Scripts/Scriptables/ConfirmBuildPanel.cs:75-86 | the panel starts closed, with nothing being edited and the build listener bound |
| ConfirmBuild.Show | Assets/Scripts/Scriptables/ConfirmBuildPanel.cs:116-181 | forgets the edited item, opens with the build listener, and shows exactly the panels of the data's kind; null data throws |
| ConfirmBuild.EditItem | Assets/Scripts/Scriptables/ConfirmBuildPanel.cs:249-316 | a null item changes nothing; otherwise the panels of the item's kind are shown and confirm applies to it; an item without data throws with all panels hidden and the old listener kept |
| ConfirmBuild.ShowAndEditAgree | Assets/Scripts/Scriptables/ConfirmBuildPanel.cs:257-307 | building and later editing an item show the same panels, whatever was shown before |
| ConfirmBuild.Cancel | Assets/Scripts/Scriptables/ConfirmBuildPanel.cs:80-84 | the panel closes and forgets the edited item |
| ConfirmBuild.SegmentCount | Assets/Scripts/Scriptables/ConfirmBuildPanel.cs:215 | the segment count is at least 1 |
| ConfirmBuild.SegmentCountIsNearest | Assets/Scripts/Scriptables/ConfirmBuildPanel.cs:215 | no count of at least 1 is nearer to the requested length than the segment count |
| ConfirmBuild.SegmentPosition | Assets/Scripts/Scriptables/ConfirmBuildPanel.cs:223-224 | segment `i` sits `5 * i` along `z` from the origin |
| ConfirmBuild.Row | Assets/Scripts/Scriptables/ConfirmBuildPanel.cs:221-233 | a row has `n` segments, segment `i` at its position and owned by the group |
| ConfirmBuild.Resized | Assets/Scripts/Scriptables/ConfirmBuildPanel.cs:332-359 | resizing gives exactly `n` segments and keeps the common prefix |
| ConfirmBuild.Reversed | Assets/Scripts/Scriptables/ConfirmBuildPanel.cs:353-358 | the shrink loop destroys the tail last-first |
| ConfirmBuild.ResizedRowIsRow | Assets/Scripts/Scriptables/ConfirmBuildPanel.cs:332-359 | resizing a row whose first segment has not moved gives the same row as building afresh with the new count |
| ConfirmBuild.GrowThenShrink | Assets/Scripts/Scriptables/ConfirmBuildPanel.cs:332-359 | growing and then shrinking back gives back the old list |
| ConfirmBuild.Grow | Assets/Scripts/Scriptables/ConfirmBuildPanel.cs:332-349 | existing segments are kept and segment `i` is appended at the first segment's position plus `5 * i` along `z`, for each `i` in `[old, new)` |
| ConfirmBuild.Shrink | Assets/Scripts/Scriptables/ConfirmBuildPanel.cs:351-359 | exactly the prefix of `n` segments is kept, and kept plus destroyed (in reverse) is the old list |
| ConfirmBuild.BuildRoad | Assets/Scripts/Scriptables/ConfirmBuildPanel.cs:203-236 | the group is initialised from the data, its `length` is the segment count (at least 1), and its segments form the row from the spawn position, owned by the group |
| ConfirmBuild.ApplyEdits | Assets/Scripts/Scriptables/ConfirmBuildPanel.cs:318-392 | only the item's own kind of settings changes. A road's count and `length` become the count of the parsed length (the old `length` on a failed parse), and growing an empty list throws. A failed parse of any other field stores 0; missing data throws |
| ConfirmBuild.ReapplySameLength | Assets/Scripts/Scriptables/ConfirmBuildPanel.cs:325-361 | confirming a road edit at its current length changes nothing and destroys nothing |
| ConfirmBuild.OnConfirmBuild | Assets/Scripts/Scriptables/ConfirmBuildPanel.cs:183-201 | nothing happens without data. A road is built from the parsed length (`roadLength` on failure), any other kind becomes an initialised item, other items are untouched, and the panel closes |
| ConfirmBuild.ConfirmEdits | Assets/Scripts/Scriptables/ConfirmBuildPanel.cs:309-315 | the edits reach only the captured item; the panel closes and forgets it unless applying throws |
| ConfirmBuild.Confirm | Assets/Scripts/Scriptables/ConfirmBuildPanel.cs:309-315 | after a confirm click the panel is closed, unless it threw or there was nothing to build |
| SelectableItems.AllTransparent | Assets/Scripts/SelectableItemController.cs:64-70 | every slot of every renderer shows the transparent material, and the shape is kept |
| SelectableItems.Restore | Assets/Scripts/SelectableItemController.cs:60-71 | (corrected) each renderer takes back its own run of the cache, and the shape is kept |
| SelectableItems.RestoreFlatten | Assets/Scripts/SelectableItemController.cs:32-43 | restoring from the cache `CacheOriginalMaterials` builds gives back exactly the cached renderers |
| SelectableItems.CacheIndexInBounds | Assets/Scripts/SelectableItemController.cs:68 | the clamped index is in bounds whenever the cache is non-empty, and is -1 when it is empty |
| SelectableItems.RestoreAsWritten | Assets/Scripts/SelectableItemController.cs:60-71 | (as written) slot `i` of every renderer gets cache entry `Clamp(i, 0, len - 1)`; it throws exactly when the cache is empty and some renderer has a slot |
| SelectableItems.AsWrittenRestoreLosesMaterials | Assets/Scripts/SelectableItemController.cs:64-70 | as written, two one-slot renderers `a`, `b` come back as `a`, `a` |
| SelectableItems.RestoreKeepsMaterials | Assets/Scripts/SelectableItemController.cs:64-70 | the corrected restore gives the same example back as `a`, `b` |
| SelectableItems.Awake | Assets/Scripts/SelectableItemController.cs:19-30 | the current pose is the last applied pose; the cache is the renderers' materials in order; not selected, not moving, not dragging |
| SelectableItems.SetTransparentMaterial | Assets/Scripts/SelectableItemController.cs:60-71 | (corrected) a no-op without renderers or transparent material; only the renderers change and keep their shape; disabling restores the cache |
| SelectableItems.SetTransparentMaterialAsWritten | Assets/Scripts/SelectableItemController.cs:60-71 | (as written) enabling is the corrected operation; disabling throws, leaving the controller unchanged, exactly when the cache is empty and some renderer has a slot; otherwise slot `i` of every renderer gets cache entry `Clamp(i, 0, len - 1)`, and only the renderers change |
| SelectableItems.DeselectAsWritten | Assets/Scripts/SelectableItemController.cs:52-58 | (as written) the item is not selected and its poses are kept; when the restore throws, dragging and move mode stay as they were; otherwise both are off |
| SelectableItems.ApplyAsWritten | Assets/Scripts/SelectableItemController.cs:89-94 | (as written) the current pose becomes the last applied one and the item is not selected; dragging and move mode are off unless the restore throws |
| SelectableItems.SingleRendererDeselectAgrees | Assets/Scripts/SelectableItemController.cs:52-70 | with at most one renderer, the deselect as written and the corrected one agree |
| SelectableItems.AsWrittenDeselectLosesMaterials | Assets/Scripts/SelectableItemController.cs:46-70 | selecting, then deselecting as written, brings two one-slot renderers `a`, `b` back as `a`, `a`; the corrected deselect brings them back as `a`, `b` |
| SelectableItems.Select | Assets/Scripts/SelectableItemController.cs:46-50 | the item is selected; move mode, dragging and poses are kept; the state invariant is kept |
| SelectableItems.Deselect | Assets/Scripts/SelectableItemController.cs:52-58 | (corrected) not selected, move mode and dragging off, poses kept, cached materials restored |
| SelectableItems.SelectDeselectRestoresMaterials | Assets/Scripts/SelectableItemController.cs:46-58 | selecting and deselecting an unselected item gives back its renderers exactly |
| SelectableItems.ToggleMove | Assets/Scripts/SelectableItemController.cs:74-78 | move mode flips and dragging follows it; nothing else changes |
| SelectableItems.ToggleMoveTwice | Assets/Scripts/SelectableItemController.cs:74-78 | two toggles restore the controller when dragging followed move mode |
| SelectableItems.RotateLeft | Assets/Scripts/SelectableItemController.cs:80 | the yaw decreases by 90 degrees modulo 360; nothing else changes |
| SelectableItems.RotateRight | Assets/Scripts/SelectableItemController.cs:81 | the yaw increases by 90 degrees modulo 360; nothing else changes |
| SelectableItems.RotationsCancel | Assets/Scripts/SelectableItemController.cs:80-81 | a left turn undoes a right turn and vice versa |
| SelectableItems.FourRightsAreWhole | Assets/Scripts/SelectableItemController.cs:81 | four right turns restore the controller |
| SelectableItems.Revert | Assets/Scripts/SelectableItemController.cs:83-87 | the pose becomes the last applied one and nothing else changes |
| SelectableItems.Apply | Assets/Scripts/SelectableItemController.cs:89-94 | (corrected) the current pose becomes the last applied one and the item is deselected |
| SelectableItems.RevertAfterApply | Assets/Scripts/SelectableItemController.cs:83-94 | reverting right after applying changes nothing |
| SelectableItems.RevertUndoesEdits | Assets/Scripts/SelectableItemController.cs:83-94 | after an apply, any drags, turns and toggles are undone by a revert, back to the applied pose |
| SelectableItems.RunEditsKeepsApplied | Assets/Scripts/SelectableItemController.cs:74-87 | moving, turning and toggling never change the last applied pose |
| SelectableItems.EditsKeepWf | Assets/Scripts/SelectableItemController.cs:74-87 | drags, turns, toggles and reverts keep the controller's state invariant |
| SelectableItems.DragUpdate | Assets/Scripts/Scriptables/ItemDragger.cs:19-41 | while dragging with the button held, a ground hit moves the item to the hit raised by `dragHeightOffset`; otherwise nothing changes |

## Left out

- Preview material handling (`PlacementManager.cs` lines 259-331): creating, colouring and destroying material instances is rendering. The model tracks only the set of owned instances.
- The per-frame colour update of the preview (lines 52-54), and the `isTrigger` switches on the preview collider (lines 69-70 and 99-100). These are physics and rendering flags.
- Input dispatch (`Update`, `HandleMouse`, `HandleTouch`). The operations they call are explicit: `TrySnapOrGrid`, `FinishPlacingRoad`, and `RotatePreview` for the Q / E keys.
- Physics: `Physics.Raycast`, `Physics.OverlapBox` and collider bounds are readings passed in (`Probe`, the ground hit). Snap markers' world frames are passed in (`Frames`), not derived from the transform hierarchy.
- Quaternion arithmetic: rotations during placement are symbolic terms, so nothing is proved about the angle `FromToRotation` produces.
- Placement.SnapToGrid: 32-bit float arithmetic, overflow and NaN are not modelled; coordinates are exact reals. A `snapSize` of 0 is excluded by its type (`RoadPieces.Quantum`), because `SnapToGrid` then divides by zero.
- ConfirmBuild.SegmentCount: `Mathf.RoundToInt` on a float outside the 32-bit range is not modelled.
- Objects destroyed by `DestroyPreviewImmediate` stay in the handle stores. They are not in `placedRoads`, so no later operation reads them.
- `RoadPiece.Reset` and `RoadPiece.OnPlaced` (an editor hook and a log line), and `SnapPoint.OnDrawGizmos`.
- `ConfirmBuildPanel`:
  - The singleton check in `Awake`, the description toggle, and the text, sprite and toggle pre-fill of the input fields are UI only. Inputs arrive as parse results.
  - The object names, the `BoxCollider` added to each segment, and `Debug.Log` are not modelled.
  - `BuildGenericItem` is modelled only as the initialised `BuildItem` it adds; the instantiated prefab is not.
- The camera position and the ground ray that choose a new road group's spawn position: `spawnPos` is an input.
- Segments destroyed outside the panel are not modelled. Segments are values, so a destroyed entry still in `roadSegments` cannot be represented.
- `SelectableItemController.Remove` (destroys the object), and `SelectableItem.OnClicked`, which forwards a click to `ConfirmBuild.EditItem`.
- SelectableItems.Deselect: requires the material cache to hold one entry per renderer slot. `Awake` establishes this and no operation changes it. The corrected restore reads the cache in runs, so it needs that length.
- SelectableItems.Apply: requires the same cache condition, because it deselects.
- SelectableItems.SetTransparentMaterial: the controller's `Deselect` and `Apply` use the corrected restore, not the clamped read of line 68. The as-written behaviour is modelled separately by `SetTransparentMaterialAsWritten`, `DeselectAsWritten` and `ApplyAsWritten`, and the two are compared by `SingleRendererDeselectAgrees` and `AsWrittenDeselectLosesMaterials`.
- Placement.AlignToSnapPoint: the piece's position is chosen so that the marker reaches the target before the rotation is set (lines 205 and 360). After the turn, the marker sits at the target plus the turned offset minus the offset. Rotations are symbolic, so the model does not compute where the turned marker ends up. It coincides with the target only when the turn leaves the marker's offset unchanged.
- Placement.StartPlacingRoad: requires the spawned piece and markers to use handles no live road or marker holds (`FreshSpawn`), as `Instantiate` guarantees. `Step` treats a spawn that reuses a live handle as no step.
- `ItemDragger.dragHeightOffset` is 0.05, its inspector default. The touch and mouse handlers are both `DragUpdate`.
- Camera scripts, item-list UI, layout, and editor scripts are outside this model.

## Findings

| source | as written | input that shows it | evidently intended | confidence | as-written member | corrected member |
|---|---|---|---|---|---|---|
| Assets/Scripts/SelectableItemController.cs:68 | on deselect, slot `i` of every renderer is restored from `originalMaterials[Clamp(i, 0, len - 1)]`, so every renderer restarts at the beginning of the flattened cache | two renderers with one slot each, materials `a` and `b` with `a != b`: after `Select` then `Deselect`, both show `a` | each renderer gets back its own materials, read from the cache in the order `CacheOriginalMaterials` stored them | high, not executed | SelectableItems.RestoreAsWritten and SelectableItems.DeselectAsWritten, shown by SelectableItems.AsWrittenRestoreLosesMaterials and SelectableItems.AsWrittenDeselectLosesMaterials | SelectableItems.Restore, proved by SelectableItems.RestoreFlatten and SelectableItems.SelectDeselectRestoresMaterials |
