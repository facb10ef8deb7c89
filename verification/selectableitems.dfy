/** The edit state of a selected item (`SelectableItemController`, with the `isDragging` flag
    of its `ItemDragger`): selection, move mode, the pose and the last applied pose, and the
    materials swapped in while the item is selected.

    A pose is a position and a yaw about world up, in degrees in `[0, 360)`, taken relative
    to the item's rest orientation: the controller only ever turns the item about world up,
    and a quaternion does not tell whole turns apart. */
module SelectableItems {
  import opened Wrappers
  import opened Numerics
  import opened Geometry

  datatype Material = Material(n: nat)

  type Degrees = r: real | 0.0 <= r < 360.0

  datatype Pose = Pose(position: Vec3, yaw: Degrees)

  // ---------------------------------------------------------------------------------------
  // Material slots
  // ---------------------------------------------------------------------------------------

  /** The slots of all renderers, renderer by renderer: the order `CacheOriginalMaterials`
      fills `originalMaterials` in. */
  function Flatten<M>(rs: seq<seq<M>>): seq<M> {
    if rs == [] then [] else rs[0] + Flatten(rs[1..])
  }

  /** The total number of material slots. */
  function TotalLen<M>(rs: seq<seq<M>>): nat {
    |Flatten(rs)|
  }

  /** Same number of renderers, each with the same number of slots. */
  predicate SameShape<M>(a: seq<seq<M>>, b: seq<seq<M>>) {
    |a| == |b| && forall k :: 0 <= k < |a| ==> |a[k]| == |b[k]|
  }

  /** Two lists of the same shape have the same number of slots. */
  lemma {:induction false} SameShapeSameTotal<M>(a: seq<seq<M>>, b: seq<seq<M>>)
    requires SameShape(a, b)
    ensures TotalLen(a) == TotalLen(b)
    decreases |a|
  {
    if a != [] {
      assert SameShape(a[1..], b[1..]) by {
        assert forall k :: 0 <= k < |a[1..]| ==> a[1..][k] == a[k + 1] && b[1..][k] == b[k + 1];
      }
      SameShapeSameTotal(a[1..], b[1..]);
    }
  }

  /** `SetTransparentMaterial(true)` on the renderer list: every slot gets `t`. */
  function AllTransparent<M>(rs: seq<seq<M>>, t: M): (r: seq<seq<M>>)
    ensures SameShape(r, rs)
    ensures forall k, i :: 0 <= k < |r| && 0 <= i < |r[k]| ==> r[k][i] == t
  {
    if rs == [] then [] else [seq(|rs[0]|, _ => t)] + AllTransparent(rs[1..], t)
  }

  /** The restore `SetTransparentMaterial(false)` evidently intends: each renderer takes back
      its own cached materials, the next `|rs[k]|` entries of the cache. */
  function Restore<M>(rs: seq<seq<M>>, cache: seq<M>): (r: seq<seq<M>>)
    requires TotalLen(rs) <= |cache|
    ensures SameShape(r, rs)
    ensures Flatten(r) == cache[..TotalLen(rs)]
    decreases |rs|
  {
    if rs == [] then []
    else
      var n := |rs[0]|;
      assert Flatten(rs) == rs[0] + Flatten(rs[1..]);
      var rest := Restore(rs[1..], cache[n..]);
      var r := [cache[..n]] + rest;
      assert r[1..] == rest;
      assert cache[..TotalLen(rs)] == cache[..n] + cache[n..][..TotalLen(rs[1..])];
      assert SameShape(r, rs) by {
        forall k | 0 <= k < |r| ensures |r[k]| == |rs[k]| {
          if k > 0 { assert r[k] == rest[k - 1] && rs[k] == rs[1..][k - 1]; }
        }
      }
      r
  }

  /** Restoring a list of the same shape from the cache of `rs0` gives back `rs0`. */
  lemma {:induction false} RestoreFlatten<M>(rs: seq<seq<M>>, rs0: seq<seq<M>>)
    requires SameShape(rs, rs0)
    ensures TotalLen(rs) == |Flatten(rs0)|
    ensures Restore(rs, Flatten(rs0)) == rs0
    decreases |rs|
  {
    SameShapeSameTotal(rs, rs0);
    if rs != [] {
      assert SameShape(rs[1..], rs0[1..]) by {
        assert forall k :: 0 <= k < |rs[1..]| ==> rs[1..][k] == rs[k + 1] && rs0[1..][k] == rs0[k + 1];
      }
      RestoreFlatten(rs[1..], rs0[1..]);
      var cache := Flatten(rs0);
      assert cache == rs0[0] + Flatten(rs0[1..]);
      assert cache[..|rs[0]|] == rs0[0];
      assert cache[|rs[0]|..] == Flatten(rs0[1..]);
      assert rs0 == [rs0[0]] + rs0[1..];
    }
  }

  /** The cache index line 68 of the controller reads for slot `i`:
      `Mathf.Clamp(i, 0, originalMaterials.Length - 1)`. */
  function CacheIndexAsWritten(i: nat, cacheLen: nat): int {
    Clamp(i, 0, cacheLen - 1)
  }

  /** With a non-empty cache the clamped index is always in bounds; with an empty one it is
      `-1`. */
  lemma CacheIndexInBounds(i: nat, cacheLen: nat)
    ensures cacheLen > 0 ==> 0 <= CacheIndexAsWritten(i, cacheLen) < cacheLen
    ensures cacheLen == 0 ==> CacheIndexAsWritten(i, cacheLen) == -1
  {
  }

  /** `SetTransparentMaterial(false)` as written: every renderer restarts at the beginning of
      the cache, slot `i` taking entry `Clamp(i, 0, len - 1)`. With an empty cache and a
      renderer that has a slot, the read at index `-1` throws (`None`). */
  function RestoreAsWritten<M>(rs: seq<seq<M>>, cache: seq<M>): (r: Option<seq<seq<M>>>)
    ensures r.None? <==> |cache| == 0 && exists k :: 0 <= k < |rs| && |rs[k]| > 0
    ensures r.Some? ==> SameShape(r.value, rs)
    ensures r.Some? && |cache| > 0 ==>
              forall k, i :: 0 <= k < |rs| && 0 <= i < |rs[k]| ==>
                r.value[k][i] == cache[Clamp(i, 0, |cache| - 1)]
  {
    if |cache| == 0 then
      if exists k :: 0 <= k < |rs| && |rs[k]| > 0 then None
      else
        Some(seq(|rs|, k requires 0 <= k < |rs| => []))
    else
      Some(seq(|rs|, k requires 0 <= k < |rs| =>
        seq(|rs[k]|, i requires 0 <= i < |rs[k]| => cache[CacheIndexAsWritten(i, |cache|)])))
  }

  /** The restore as written loses the second renderer's material: an item with two
      single-slot renderers of different materials comes back with the first material on
      both. */
  lemma AsWrittenRestoreLosesMaterials(a: Material, b: Material, t: Material)
    requires a != b
    ensures RestoreAsWritten(AllTransparent([[a], [b]], t), Flatten([[a], [b]])) == Some([[a], [a]])
    ensures RestoreAsWritten(AllTransparent([[a], [b]], t), Flatten([[a], [b]])) != Some([[a], [b]])
  {
    var rs0: seq<seq<Material>> := [[a], [b]];
    assert Flatten(rs0) == [a, b] by {
      assert rs0[1..] == [[b]];
      assert Flatten(rs0[1..]) == [b] + Flatten([]);
    }
    var shown := AllTransparent(rs0, t);
    assert |shown| == 2 && |shown[0]| == 1 && |shown[1]| == 1;
    var r := RestoreAsWritten(shown, [a, b]);
    assert r.value[0][0] == a && r.value[1][0] == a;
    assert r.value[0] == [a] && r.value[1] == [a];
    assert r.value == [[a], [a]];
  }

  /** The corrected restore gives the same example back unchanged. */
  lemma RestoreKeepsMaterials(a: Material, b: Material, t: Material)
    ensures TotalLen(AllTransparent([[a], [b]], t)) == |Flatten([[a], [b]])|
            && Restore(AllTransparent([[a], [b]], t), Flatten([[a], [b]])) == [[a], [b]]
  {
    RestoreFlatten(AllTransparent([[a], [b]], t), [[a], [b]]);
  }

  // ---------------------------------------------------------------------------------------
  // The controller
  // ---------------------------------------------------------------------------------------

  /** The controller's fields and its dragger's `isDragging`. `renderers` holds each
      renderer's `sharedMaterials`; `None` is a null array. */
  datatype Controller = Controller(
    transparentMaterial: Option<Material>,
    renderers: Option<seq<seq<Material>>>,
    originalMaterials: seq<Material>,
    isSelected: bool,
    isMoveMode: bool,
    dragging: bool,
    pose: Pose,
    lastApplied: Pose,
    dragHeightOffset: real)

  /** What holds of every controller after `Awake`: the dragger's flag follows move mode, the
      cache has one entry per slot, and the renderers show the cached materials unless the
      item is selected with a transparent material to show. */
  predicate Wf(c: Controller) {
    && c.dragging == c.isMoveMode
    && CacheMatches(c)
    && (c.renderers.Some? && (!c.isSelected || c.transparentMaterial.None?) ==>
          Flatten(c.renderers.value) == c.originalMaterials)
  }

  /** The cache has one entry per material slot of the renderers. */
  predicate CacheMatches(c: Controller) {
    c.renderers.Some? ==> TotalLen(c.renderers.value) == |c.originalMaterials|
  }

  /** `Awake`: finds or adds the dragger (not dragging), collects the renderers, caches their
      materials in order and records the current pose as the last applied one. */
  function Awake(pose: Pose, renderers: seq<seq<Material>>, transparent: Option<Material>): (c: Controller)
    ensures Wf(c)
    ensures c.lastApplied == c.pose == pose
    ensures !c.isSelected && !c.isMoveMode && !c.dragging
    ensures c.renderers == Some(renderers) && c.originalMaterials == Flatten(renderers)
  {
    Controller(transparent, Some(renderers), Flatten(renderers), false, false, false, pose, pose, 0.05)
  }

  /** `SetTransparentMaterial(enable)` with the corrected restore. Nothing happens without
      renderers or without a transparent material. */
  function SetTransparentMaterial(c: Controller, enable: bool): (r: Controller)
    requires !enable ==> CacheMatches(c)
    ensures r == c.(renderers := r.renderers)
    ensures c.renderers.None? || c.transparentMaterial.None? ==> r == c
    ensures r.renderers.Some? <==> c.renderers.Some?
    ensures r.renderers.Some? ==> SameShape(r.renderers.value, c.renderers.value)
    ensures c.renderers.Some? && c.transparentMaterial.Some? && !enable ==>
              Flatten(r.renderers.value) == c.originalMaterials
  {
    if c.renderers.None? || c.transparentMaterial.None? then c
    else
      var rs := c.renderers.value;
      if enable then c.(renderers := Some(AllTransparent(rs, c.transparentMaterial.value)))
      else c.(renderers := Some(Restore(rs, c.originalMaterials)))
  }

  /** `Select`: selected, renderers made transparent. */
  function Select(c: Controller): (r: Controller)
    ensures Wf(c) ==> Wf(r)
    ensures r.isSelected
    ensures r.isMoveMode == c.isMoveMode && r.dragging == c.dragging
    ensures r.pose == c.pose && r.lastApplied == c.lastApplied
  {
    var r := SetTransparentMaterial(c.(isSelected := true), true);
    assert r.renderers.Some? ==> TotalLen(r.renderers.value) == TotalLen(c.renderers.value) by {
      if r.renderers.Some? { SameShapeSameTotal(r.renderers.value, c.renderers.value); }
    }
    r
  }

  /** `Deselect`: not selected, materials restored, dragging off, move mode off. */
  function Deselect(c: Controller): (r: Controller)
    requires CacheMatches(c)
    ensures Wf(c) ==> Wf(r)
    ensures !r.isSelected && !r.isMoveMode && !r.dragging
    ensures r.pose == c.pose && r.lastApplied == c.lastApplied
    ensures c.renderers.Some? && c.transparentMaterial.Some? ==>
              r.renderers.Some? && Flatten(r.renderers.value) == c.originalMaterials
    ensures c.renderers.None? || c.transparentMaterial.None? ==> r.renderers == c.renderers
  {
    var r := SetTransparentMaterial(c.(isSelected := false), false).(dragging := false, isMoveMode := false);
    assert r.renderers.Some? ==> TotalLen(r.renderers.value) == TotalLen(c.renderers.value) by {
      if r.renderers.Some? { SameShapeSameTotal(r.renderers.value, c.renderers.value); }
    }
    r
  }

  /** Selecting an unselected item and deselecting it again gives back the renderers'
      materials exactly. */
  lemma SelectDeselectRestoresMaterials(c: Controller)
    requires Wf(c) && !c.isSelected
    ensures Deselect(Select(c)).renderers == c.renderers
  {
    if c.renderers.Some? && c.transparentMaterial.Some? {
      var rs := c.renderers.value;
      var shown := AllTransparent(rs, c.transparentMaterial.value);
      RestoreFlatten(shown, rs);
    }
  }

  /** `SetTransparentMaterial(enable)` as written: disabling restores every renderer through
      line 68's clamped read (`RestoreAsWritten`). With an empty cache and a renderer that has
      a slot the read throws; the renderers before it had no slots, so the state at the throw
      is the controller as it was. */
  function SetTransparentMaterialAsWritten(c: Controller, enable: bool): (r: Completion<Controller>)
    ensures enable ==> r == Normal(SetTransparentMaterial(c, true))
    ensures r.Threw? <==>
              && !enable && c.renderers.Some? && c.transparentMaterial.Some? && |c.originalMaterials| == 0
              && exists k :: 0 <= k < |c.renderers.value| && |c.renderers.value[k]| > 0
    ensures r.Threw? ==> r.state == c
    ensures r.state == c.(renderers := r.state.renderers)
    ensures c.renderers.None? || c.transparentMaterial.None? ==> r == Normal(c)
    ensures r.Normal? && c.renderers.Some? ==>
              r.state.renderers.Some? && SameShape(r.state.renderers.value, c.renderers.value)
    ensures r.Normal? && c.renderers.Some? && c.transparentMaterial.Some? && !enable
            && |c.originalMaterials| > 0 ==>
              forall k, i :: 0 <= k < |c.renderers.value| && 0 <= i < |c.renderers.value[k]| ==>
                r.state.renderers.value[k][i] == c.originalMaterials[Clamp(i, 0, |c.originalMaterials| - 1)]
  {
    if c.renderers.None? || c.transparentMaterial.None? then Normal(c)
    else if enable then Normal(SetTransparentMaterial(c, true))
    else
      match RestoreAsWritten(c.renderers.value, c.originalMaterials)
      case None => Threw(c)
      case Some(rs) => Normal(c.(renderers := Some(rs)))
  }

  /** `Deselect` as written: the flag is cleared, the materials go back through line 68's
      clamped read, and only then are dragging and move mode switched off, so a throw leaves
      them as they were. */
  function DeselectAsWritten(c: Controller): (r: Completion<Controller>)
    ensures !r.state.isSelected
    ensures r.state.pose == c.pose && r.state.lastApplied == c.lastApplied
    ensures r.Normal? ==> !r.state.isMoveMode && !r.state.dragging
    ensures r.Threw? ==> r.state == c.(isSelected := false)
    ensures r.Threw? <==>
              && c.renderers.Some? && c.transparentMaterial.Some? && |c.originalMaterials| == 0
              && exists k :: 0 <= k < |c.renderers.value| && |c.renderers.value[k]| > 0
  {
    match SetTransparentMaterialAsWritten(c.(isSelected := false), false)
    case Threw(s) => Threw(s)
    case Normal(s) => Normal(s.(dragging := false, isMoveMode := false))
  }

  /** `Apply` as written: the pose is recorded, then `DeselectAsWritten` runs. */
  function ApplyAsWritten(c: Controller): (r: Completion<Controller>)
    ensures r.state.lastApplied == r.state.pose == c.pose
    ensures !r.state.isSelected
    ensures r.Normal? ==> !r.state.isMoveMode && !r.state.dragging
  {
    DeselectAsWritten(c.(lastApplied := c.pose))
  }

  /** With a single renderer the clamped read is the right one: the as-written deselect
      agrees with the corrected one whenever the cache has one entry per slot. */
  lemma SingleRendererDeselectAgrees(c: Controller)
    requires CacheMatches(c)
    requires c.renderers.Some? ==> |c.renderers.value| <= 1
    ensures DeselectAsWritten(c) == Normal(Deselect(c))
  {
    if c.renderers.Some? && c.transparentMaterial.Some? {
      var rs := c.renderers.value;
      if |rs| == 1 {
        assert Flatten(rs) == rs[0] + Flatten(rs[1..]);
        SingleRendererRestores(rs[0], c.originalMaterials);
        SingleRendererRestoresAsWritten(rs[0], c.originalMaterials);
        assert rs == [rs[0]];
        var back := c.(isSelected := false, renderers := Some([c.originalMaterials]));
        assert SetTransparentMaterial(c.(isSelected := false), false) == back;
        assert SetTransparentMaterialAsWritten(c.(isSelected := false), false) == Normal(back);
      }
    }
  }

  /** For one renderer whose slot count is the cache's length, the restore gives back the
      cache. */
  lemma SingleRendererRestores(slots: seq<Material>, cache: seq<Material>)
    requires |slots| == |cache|
    ensures TotalLen([slots]) == |cache|
    ensures Restore([slots], cache) == [cache]
  {
    assert Flatten([slots]) == slots + Flatten([slots][1..]);
    assert Flatten([slots][1..]) == [];
    var fixed := Restore([slots], cache);
    assert |fixed| == 1;
    assert Flatten(fixed) == fixed[0] + Flatten(fixed[1..]);
    assert Flatten(fixed[1..]) == [];
    assert cache[..TotalLen([slots])] == cache;
    assert fixed == [fixed[0]];
  }

  /** For one renderer whose slot count is the cache's length, the restore as written also
      gives back the cache: the clamp never bites. */
  lemma SingleRendererRestoresAsWritten(slots: seq<Material>, cache: seq<Material>)
    requires |slots| == |cache|
    ensures RestoreAsWritten([slots], cache) == Some([cache])
  {
    var r := RestoreAsWritten([slots], cache);
    if |cache| > 0 {
      assert |r.value[0]| == |cache|;
      forall i | 0 <= i < |cache|
        ensures r.value[0][i] == cache[i]
      {
        assert Clamp(i, 0, |cache| - 1) == i;
      }
      assert r.value[0] == cache;
    } else {
      assert !exists k :: 0 <= k < |[slots]| && |[slots][k]| > 0;
      assert r.value[0] == [];
    }
    assert r.value == [r.value[0]];
  }

  /** Selecting and deselecting as written loses the second renderer's material: an item with
      two single-slot renderers `a` and `b` comes back showing `a` on both. */
  lemma AsWrittenDeselectLosesMaterials(pose: Pose, a: Material, b: Material, t: Material)
    requires a != b
    ensures DeselectAsWritten(Select(Awake(pose, [[a], [b]], Some(t)))).Normal?
    ensures DeselectAsWritten(Select(Awake(pose, [[a], [b]], Some(t)))).state.renderers == Some([[a], [a]])
    ensures Deselect(Select(Awake(pose, [[a], [b]], Some(t)))).renderers == Some([[a], [b]])
  {
    var c := Awake(pose, [[a], [b]], Some(t));
    AsWrittenRestoreLosesMaterials(a, b, t);
    SelectDeselectRestoresMaterials(c);
  }

  /** `ToggleMove`: flips move mode and turns dragging on or off with it. */
  function ToggleMove(c: Controller): (r: Controller)
    ensures r.isMoveMode == !c.isMoveMode && r.dragging == r.isMoveMode
    ensures r == c.(isMoveMode := r.isMoveMode, dragging := r.dragging)
  {
    var mode := !c.isMoveMode;
    c.(isMoveMode := mode, dragging := mode)
  }

  /** Toggling twice restores the controller whenever dragging followed move mode. */
  lemma ToggleMoveTwice(c: Controller)
    requires c.dragging == c.isMoveMode
    ensures ToggleMove(ToggleMove(c)) == c
  {
  }

  /** `RotateLeft`: a quarter turn about world up, counter-clockwise seen from above. */
  function RotateLeft(c: Controller): (r: Controller)
    ensures r == c.(pose := r.pose) && r.pose.position == c.pose.position
    ensures r.pose.yaw == WrapDegrees(c.pose.yaw - 90.0)
  {
    c.(pose := c.pose.(yaw := WrapDegrees(c.pose.yaw - 90.0)))
  }

  /** `RotateRight`: a quarter turn about world up, clockwise seen from above. */
  function RotateRight(c: Controller): (r: Controller)
    ensures r == c.(pose := r.pose) && r.pose.position == c.pose.position
    ensures r.pose.yaw == WrapDegrees(c.pose.yaw + 90.0)
  {
    c.(pose := c.pose.(yaw := WrapDegrees(c.pose.yaw + 90.0)))
  }

  /** Each quarter turn undoes the other. */
  lemma RotationsCancel(c: Controller)
    ensures RotateLeft(RotateRight(c)) == c
    ensures RotateRight(RotateLeft(c)) == c
  {
    WrapOfSum(c.pose.yaw + 90.0, -90.0);
    WrapOfSum(c.pose.yaw - 90.0, 90.0);
    assert c.pose.yaw + 90.0 + -90.0 == c.pose.yaw;
    assert c.pose.yaw - 90.0 + 90.0 == c.pose.yaw;
  }

  /** Four quarter turns the same way are a whole turn. */
  lemma FourRightsAreWhole(c: Controller)
    ensures RotateRight(RotateRight(RotateRight(RotateRight(c)))) == c
  {
    var y: real := c.pose.yaw;
    WrapOfSum(y + 90.0, 90.0);
    WrapOfSum(y + 180.0, 90.0);
    WrapOfSum(y + 270.0, 90.0);
    WrapWholeTurns(y, 1);
  }

  /** `Revert`: the pose goes back to the last applied one; nothing else changes. */
  function Revert(c: Controller): (r: Controller)
    ensures r.pose == c.lastApplied
    ensures r == c.(pose := r.pose)
  {
    c.(pose := c.lastApplied)
  }

  /** `Apply`: the current pose becomes the last applied one, then the item is deselected. */
  function Apply(c: Controller): (r: Controller)
    requires CacheMatches(c)
    ensures Wf(c) ==> Wf(r)
    ensures r.lastApplied == r.pose == c.pose
    ensures !r.isSelected && !r.isMoveMode && !r.dragging
  {
    Deselect(c.(lastApplied := c.pose))
  }

  /** Reverting right after applying leaves the item where it is. */
  lemma RevertAfterApply(c: Controller)
    requires CacheMatches(c)
    ensures Revert(Apply(c)) == Apply(c)
    ensures Revert(Apply(c)).pose == c.pose
  {
  }

  /** Whatever moves and turns happen after an apply, reverting brings back the applied pose. */
  lemma RevertUndoesEdits(c: Controller, ops: seq<Edit>)
    requires CacheMatches(c)
    ensures Revert(RunEdits(Apply(c), ops)).pose == c.pose
  {
    RunEditsKeepsApplied(Apply(c), ops);
  }

  /** The dragger's `Update` with the mouse (or a single touch) down: while dragging, a ground
      hit moves the item to `dragHeightOffset` above it. */
  function DragUpdate(c: Controller, pressed: bool, groundHit: Option<Vec3>): (r: Controller)
    ensures !c.dragging || !pressed || groundHit.None? ==> r == c
    ensures c.dragging && pressed && groundHit.Some? ==>
              && r == c.(pose := r.pose)
              && r.pose.yaw == c.pose.yaw
              && r.pose.position == Add(groundHit.value, Vec3(0.0, c.dragHeightOffset, 0.0))
  {
    if c.dragging && pressed && groundHit.Some? then
      c.(pose := c.pose.(position := Add(groundHit.value, Vec3(0.0, c.dragHeightOffset, 0.0))))
    else c
  }

  /** The edits a selected item receives between applies. */
  datatype Edit = Drag(pressed: bool, groundHit: Option<Vec3>) | TurnLeft | TurnRight | Toggle

  function EditStep(c: Controller, e: Edit): Controller {
    match e
    case Drag(pressed, hit) => DragUpdate(c, pressed, hit)
    case TurnLeft => RotateLeft(c)
    case TurnRight => RotateRight(c)
    case Toggle => ToggleMove(c)
  }

  function RunEdits(c: Controller, ops: seq<Edit>): Controller
    decreases |ops|
  {
    if ops == [] then c else RunEdits(EditStep(c, ops[0]), ops[1..])
  }

  /** Moving, turning and toggling never touch the last applied pose. */
  lemma {:induction false} RunEditsKeepsApplied(c: Controller, ops: seq<Edit>)
    ensures RunEdits(c, ops).lastApplied == c.lastApplied
    decreases |ops|
  {
    if ops != [] {
      RunEditsKeepsApplied(EditStep(c, ops[0]), ops[1..]);
    }
  }

  /** Every controller operation keeps the reachable-state invariant. */
  lemma EditsKeepWf(c: Controller, e: Edit)
    requires Wf(c)
    ensures Wf(EditStep(c, e))
    ensures Wf(Revert(c))
  {
  }
}
