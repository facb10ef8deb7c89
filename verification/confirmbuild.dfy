/** The confirm/edit panel (`ConfirmBuildPanel`): which edit panels it shows for an item, how
    it builds a road group of segments, and how it applies edits to an existing item.

    Text fields are modelled by what `float.TryParse` / `int.TryParse` make of them: `None`
    for a failed parse. Engine calls (`Instantiate`, `Destroy`, the camera ray that places a
    new road group) are inputs and outputs: the spawn position and new handles come in, the
    destroyed segments go out in destruction order. */
module ConfirmBuild {
  import opened Wrappers
  import opened Numerics
  import opened Geometry
  import opened BuildItems

  // ---------------------------------------------------------------------------------------
  // Panel selection
  // ---------------------------------------------------------------------------------------

  /** The eleven grouped edit panels. */
  datatype EditPanel =
    | RoadPanel | VehiclePanel | PedestrianPanel
    | LightStopPanel | LightSlowdownPanel | LightGoPanel | LightHazardPanel | LightFlashingPanel
    | SignPanel
    | SpawnerMaxPanel | SpawnerIntervalPanel

  /** The panels the `switch` in `Show` and `EditItem` enables after hiding all of them. */
  function PanelsFor(t: ItemType, rule: TrafficRuleType): (r: set<EditPanel>) {
    match t
    case Roads => {RoadPanel}
    case Vehicles => {VehiclePanel}
    case Pedestrians => {PedestrianPanel}
    case Rules =>
      if rule == TrafficLight
      then {LightStopPanel, LightSlowdownPanel, LightGoPanel, LightHazardPanel, LightFlashingPanel}
      else {SignPanel}
    case Spawner => {SpawnerMaxPanel, SpawnerIntervalPanel}
  }

  /** The kind of item an edit panel belongs to: its item type, and for rule panels the rule
      type as well. */
  function PanelOwner(p: EditPanel): (ItemType, Option<TrafficRuleType>) {
    match p
    case RoadPanel => (Roads, None)
    case VehiclePanel => (Vehicles, None)
    case PedestrianPanel => (Pedestrians, None)
    case LightStopPanel => (Rules, Some(TrafficLight))
    case LightSlowdownPanel => (Rules, Some(TrafficLight))
    case LightGoPanel => (Rules, Some(TrafficLight))
    case LightHazardPanel => (Rules, Some(TrafficLight))
    case LightFlashingPanel => (Rules, Some(TrafficLight))
    case SignPanel => (Rules, Some(TrafficSign))
    case SpawnerMaxPanel => (Spawner, None)
    case SpawnerIntervalPanel => (Spawner, None)
  }

  /** A panel is shown exactly when it belongs to the item's kind; the rule type only matters
      for rules. */
  lemma PanelsAreTheOwnersPanels(t: ItemType, rule: TrafficRuleType, p: EditPanel)
    ensures p in PanelsFor(t, rule) <==>
              PanelOwner(p).0 == t && (t == Rules ==> PanelOwner(p).1 == Some(rule))
  {
  }

  /** How many panels each kind of item gets: one for roads, vehicles, pedestrians and signs,
      five for traffic lights, two for spawners. */
  lemma PanelCounts(rule: TrafficRuleType)
    ensures |PanelsFor(Roads, rule)| == 1
    ensures |PanelsFor(Vehicles, rule)| == 1
    ensures |PanelsFor(Pedestrians, rule)| == 1
    ensures |PanelsFor(Rules, TrafficLight)| == 5
    ensures |PanelsFor(Rules, TrafficSign)| == 1
    ensures |PanelsFor(Spawner, rule)| == 2
  {
    LightPanelCount();
    assert |{SpawnerMaxPanel, SpawnerIntervalPanel}| == 2 by {
      assert {SpawnerMaxPanel, SpawnerIntervalPanel} == {SpawnerMaxPanel} + {SpawnerIntervalPanel};
    }
  }

  /** The five traffic-light panels are distinct. */
  lemma LightPanelCount()
    ensures |{LightStopPanel, LightSlowdownPanel, LightGoPanel, LightHazardPanel, LightFlashingPanel}| == 5
  {
    var s2 := {LightStopPanel} + {LightSlowdownPanel};
    assert |s2| == 2;
    var s3 := s2 + {LightGoPanel};
    assert LightGoPanel !in s2 && |s3| == 3;
    var s4 := s3 + {LightHazardPanel};
    assert LightHazardPanel !in s3 && |s4| == 4;
    var s5 := s4 + {LightFlashingPanel};
    assert LightFlashingPanel !in s4 && |s5| == 5;
    assert s5 == {LightStopPanel, LightSlowdownPanel, LightGoPanel, LightHazardPanel, LightFlashingPanel};
  }

  /** What the confirm button does: build from `currentData`, or apply the edits to the item
      `EditItem` captured in its listener. */
  datatype ConfirmAction = BuildNew | ApplyTo(target: BuildRef)

  /** The panel's own state: whether it is open, which edit panels are active, the item data
      and edited item it refers to, and the current confirm listener. */
  datatype PanelState = PanelState(
    active: bool,
    visible: set<EditPanel>,
    currentData: Option<ItemData>,
    editing: Option<BuildRef>,
    confirm: ConfirmAction)

  /** After `Start`: closed, nothing selected, the confirm button builds. */
  function Initial(): (ps: PanelState)
    ensures !ps.active && ps.currentData.None? && ps.editing.None? && ps.confirm == BuildNew
  {
    PanelState(false, {}, None, None, BuildNew)
  }

  /** `Show(data)`: forgets any edited item, opens the panel with the build listener, then
      shows exactly the panels for the data's kind. A null `data` throws at `data.type`, after
      the panel has been opened. */
  function Show(ps: PanelState, data: Option<ItemData>): (r: Completion<PanelState>)
    ensures r.state.active && r.state.editing.None? && r.state.confirm == BuildNew
    ensures r.state.currentData == data
    ensures r.Threw? <==> data.None?
    ensures r.Normal? ==> forall p :: p in r.state.visible <==>
              PanelOwner(p).0 == data.value.itemType &&
              (data.value.itemType == Rules ==> PanelOwner(p).1 == Some(data.value.trafficRuleType))
  {
    var shown := ps.(editing := None, currentData := data, active := true, confirm := BuildNew);
    match data
    case None => Threw(shown)
    case Some(d) =>
      var r := shown.(visible := PanelsFor(d.itemType, d.trafficRuleType));
      assert forall p :: p in r.visible <==>
          PanelOwner(p).0 == d.itemType && (d.itemType == Rules ==> PanelOwner(p).1 == Some(d.trafficRuleType)) by {
        forall p ensures p in r.visible <==>
            PanelOwner(p).0 == d.itemType && (d.itemType == Rules ==> PanelOwner(p).1 == Some(d.trafficRuleType)) {
          PanelsAreTheOwnersPanels(d.itemType, d.trafficRuleType, p);
        }
      }
      Normal(r)
  }

  /** `EditItem(buildItem)`: a null item changes nothing. Otherwise the panel opens on the
      item and its data, all edit panels are hidden, and (when the item has data) the panels
      for its kind are shown and the confirm button is rebound to apply the edits to it. An
      item without data throws at `currentData.type`, with every panel hidden and the old
      confirm listener still bound. */
  function EditItem(ps: PanelState, items: map<BuildRef, BuildItem>, target: BuildRef)
    : (r: Completion<PanelState>)
    ensures target !in items ==> r == Normal(ps)
    ensures target in items ==>
              && r.state.active && r.state.editing == Some(target)
              && r.state.currentData == items[target].data
    ensures target in items && items[target].data.None? ==>
              r.Threw? && r.state.visible == {} && r.state.confirm == ps.confirm
    ensures target in items && items[target].data.Some? ==>
              && r.Normal? && r.state.confirm == ApplyTo(target)
              && (forall p :: p in r.state.visible <==>
                    var d := items[target].data.value;
                    PanelOwner(p).0 == d.itemType && (d.itemType == Rules ==> PanelOwner(p).1 == Some(d.trafficRuleType)))
  {
    if target !in items then Normal(ps)
    else
      var b := items[target];
      var hidden := ps.(editing := Some(target), currentData := b.data, active := true, visible := {});
      match b.data
      case None => Threw(hidden)
      case Some(d) =>
        var r := hidden.(visible := PanelsFor(d.itemType, d.trafficRuleType), confirm := ApplyTo(target));
        assert forall p :: p in r.visible <==>
            PanelOwner(p).0 == d.itemType && (d.itemType == Rules ==> PanelOwner(p).1 == Some(d.trafficRuleType)) by {
          forall p ensures p in r.visible <==>
              PanelOwner(p).0 == d.itemType && (d.itemType == Rules ==> PanelOwner(p).1 == Some(d.trafficRuleType)) {
            PanelsAreTheOwnersPanels(d.itemType, d.trafficRuleType, p);
          }
        }
        Normal(r)
  }

  /** Building an item and later editing it show the same panels, whatever was shown before. */
  lemma ShowAndEditAgree(ps1: PanelState, ps2: PanelState, items: map<BuildRef, BuildItem>,
                         target: BuildRef, d: ItemData)
    requires target in items && items[target].data == Some(d)
    ensures Show(ps1, Some(d)).state.visible == EditItem(ps2, items, target).state.visible
  {
    var v1 := Show(ps1, Some(d)).state.visible;
    var v2 := EditItem(ps2, items, target).state.visible;
    forall p ensures p in v1 <==> p in v2 {
    }
  }

  /** The cancel button's listener: closes the panel and forgets the edited item. */
  function Cancel(ps: PanelState): (r: PanelState)
    ensures !r.active && r.editing.None?
    ensures r.visible == ps.visible && r.currentData == ps.currentData && r.confirm == ps.confirm
  {
    ps.(active := false, editing := None)
  }

  // ---------------------------------------------------------------------------------------
  // Segment rows
  // ---------------------------------------------------------------------------------------

  /** `Mathf.Max(1, Mathf.RoundToInt(len))`: the number of segments a length asks for. */
  function SegmentCount(len: real): (n: int)
    ensures n >= 1
  {
    Max(1, RoundHalfEven(len))
  }

  /** The segment count is the whole number of at least one nearest to the requested length
      (a tie between two of them goes to the even one, as `RoundToInt` does). */
  lemma SegmentCountIsNearest(len: real, m: int)
    requires m >= 1
    ensures Abs(len - SegmentCount(len) as real) <= Abs(len - m as real)
  {
    var k := RoundHalfEven(len);
    RoundIsNearest(len, m);
    if k < 1 {
      assert SegmentCount(len) == 1;
      assert len <= k as real + 0.5;
    }
  }

  /** `Vector3.forward * i * 5f` added to `origin`: where segment `i` of a row starting at
      `origin` goes. */
  function SegmentPosition(origin: Vec3, i: int): (p: Vec3)
    ensures p.x == origin.x && p.y == origin.y
    ensures p.z - origin.z == 5.0 * i as real
  {
    Add(origin, Vec3(0.0, 0.0, 5.0 * i as real))
  }

  /** The reference row: `n` segments, segment `i` at `SegmentPosition(origin, i)`, every one
      pointing back to the group `owner`. */
  function Row(origin: Vec3, owner: BuildRef, n: nat): (r: seq<Segment>)
    ensures |r| == n
    ensures forall i :: 0 <= i < n ==> r[i] == Segment(SegmentPosition(origin, i), owner)
  {
    seq(n, i requires 0 <= i => Segment(SegmentPosition(origin, i), owner))
  }

  /** The resize the road branch of `ApplyEdits` performs, as a value: the prefix of the
      first `n` segments, or the list extended with row segments positioned from the current
      first segment. */
  function Resized(segs: seq<Segment>, n: nat, owner: BuildRef): (r: seq<Segment>)
    requires n > |segs| ==> |segs| > 0
    ensures |r| == n
    ensures forall i :: 0 <= i < n && i < |segs| ==> r[i] == segs[i]
  {
    if n <= |segs| then segs[..n]
    else segs + seq(n - |segs|, k requires 0 <= k => Segment(SegmentPosition(segs[0].position, |segs| + k), owner))
  }

  /** A segment list in reverse order. */
  function Reversed<T>(s: seq<T>): (r: seq<T>)
    ensures |r| == |s|
    ensures forall i :: 0 <= i < |s| ==> r[i] == s[|s| - 1 - i]
  {
    if s == [] then [] else Reversed(s[1..]) + [s[0]]
  }

  /** Shrinking and growing a row whose first segment has not moved gives the row that
      building with the new count gives. */
  lemma ResizedRowIsRow(origin: Vec3, owner: BuildRef, n: nat, m: nat)
    requires n > 0
    ensures Resized(Row(origin, owner, n), m, owner) == Row(origin, owner, m)
  {
    var r := Resized(Row(origin, owner, n), m, owner);
    var row := Row(origin, owner, m);
    assert forall i :: 0 <= i < m ==> r[i] == row[i] by {
      forall i | 0 <= i < m ensures r[i] == row[i] {
        if i >= n {
          assert Row(origin, owner, n)[0].position == origin by {
            assert SegmentPosition(origin, 0) == origin;
          }
        }
      }
    }
  }

  /** Growing and then shrinking back to the old count gives back the old list. */
  lemma GrowThenShrink(segs: seq<Segment>, n: nat, owner: BuildRef)
    requires 0 < |segs| < n
    ensures Resized(Resized(segs, n, owner), |segs|, owner) == segs
  {
    assert Resized(segs, n, owner)[..|segs|] == segs;
  }

  /** Appending the segments for indices `[|segs|, n)` one by one, each placed relative to the
      list's first segment, as the grow loop of `ApplyEdits` does. */
  method Grow(segs: seq<Segment>, n: int, owner: BuildRef) returns (r: seq<Segment>)
    requires 0 < |segs| < n
    ensures |r| == n
    ensures r[..|segs|] == segs
    ensures forall i :: |segs| <= i < n ==> r[i] == Segment(SegmentPosition(segs[0].position, i), owner)
  {
    r := segs;
    var i := |segs|;
    while i < n
      invariant |segs| <= i <= n
      invariant |r| == i
      invariant r[..|segs|] == segs
      invariant forall j :: |segs| <= j < i ==> r[j] == Segment(SegmentPosition(segs[0].position, j), owner)
    {
      var seg := Segment(SegmentPosition(r[0].position, i), owner);
      r := r + [seg];
      i := i + 1;
    }
  }

  /** Removing the segments from the last down to index `n`, as the shrink loop of
      `ApplyEdits` does; `destroyed` lists them in the order they are destroyed. */
  method Shrink(segs: seq<Segment>, n: nat) returns (r: seq<Segment>, destroyed: seq<Segment>)
    requires n < |segs|
    ensures r == segs[..n]
    ensures destroyed == Reversed(segs[n..])
    ensures r + Reversed(destroyed) == segs
  {
    r := segs;
    destroyed := [];
    var i := |segs| - 1;
    while i >= n
      invariant n - 1 <= i < |segs|
      invariant r == segs[..i + 1]
      invariant destroyed == Reversed(segs[i + 1..])
    {
      var seg := r[i];
      ReversedStep(segs, i);
      r := r[..i];
      destroyed := destroyed + [seg];
      i := i - 1;
    }
    ReversedTwice(segs[n..]);
    assert segs[..n] + segs[n..] == segs;
  }

  /** Destroying one more segment from the back extends the reversed tail by it. */
  lemma ReversedStep<T>(s: seq<T>, i: nat)
    requires i < |s|
    ensures Reversed(s[i + 1..]) + [s[i]] == Reversed(s[i..])
  {
    assert s[i..][1..] == s[i + 1..];
  }

  /** Reversing twice is the identity. */
  lemma {:induction false} ReversedTwice<T>(s: seq<T>)
    ensures Reversed(Reversed(s)) == s
  {
    var r := Reversed(Reversed(s));
    assert forall i :: 0 <= i < |s| ==> r[i] == s[i];
  }

  // ---------------------------------------------------------------------------------------
  // Building and editing
  // ---------------------------------------------------------------------------------------

  /** `BuildRoad(data, inputLength)`: a new group `BuildItem` (handle `owner`, at `spawnPos`),
      initialised from `data`, whose `length` is the segment count and whose segments form the
      row from `spawnPos`, in index order. */
  method BuildRoad(data: ItemData, inputLength: real, spawnPos: Vec3, owner: BuildRef)
    returns (item: BuildItem)
    ensures item.length == SegmentCount(inputLength) && item.length >= 1
    ensures |item.roadSegments| == item.length
    ensures forall i :: 0 <= i < |item.roadSegments| ==>
              item.roadSegments[i].position == SegmentPosition(spawnPos, i)
              && item.roadSegments[i].parentBuild == owner
    ensures item.roadSegments == Row(spawnPos, owner, item.length)
    ensures OnlyTouches(Initialize(Fresh(), data), item, RoadFields)
  {
    var segmentCount := SegmentCount(inputLength);
    item := Initialize(Fresh(), data);
    item := item.(length := segmentCount);
    var i := 0;
    while i < segmentCount
      invariant 0 <= i <= segmentCount
      invariant item == Initialize(Fresh(), data).(length := segmentCount, roadSegments := item.roadSegments)
      invariant |item.roadSegments| == i
      invariant forall j :: 0 <= j < i ==> item.roadSegments[j] == Segment(SegmentPosition(spawnPos, j), owner)
    {
      var seg := Segment(SegmentPosition(spawnPos, i), owner);
      item := item.(roadSegments := item.roadSegments + [seg]);
      i := i + 1;
    }
  }

  /** What the parse calls make of the edit panel's inputs: `None` is a failed parse. The two
      toggles are read directly. */
  datatype EditInputs = EditInputs(
    length: Option<real>,
    vehicleSpeed: Option<real>,
    pedestrianSpeed: Option<real>,
    stopTime: Option<real>,
    slowdownTime: Option<real>,
    goTime: Option<real>,
    hazard: bool,
    flashing: bool,
    signPriority: Option<int>,
    maxSpawn: Option<int>,
    spawnInterval: Option<real>)

  /** The field group the edit panel of this kind of item writes. */
  function GroupFor(d: ItemData): FieldGroup {
    match d.itemType
    case Roads => RoadFields
    case Vehicles => VehicleFields
    case Pedestrians => PedestrianFields
    case Rules => if d.trafficRuleType == TrafficLight then LightFields else SignFields
    case Spawner => SpawnerFields
  }

  /** `ApplyEdits(buildItem)` on a live item with handle `self`.
      An item without data throws before writing anything. For a road, the new count is the
      segment count of the parsed length (the current `length` when the parse fails); the
      list is grown or shrunk to it, and `length` becomes it. Growing an empty list throws at
      `roadSegments[0]` before anything is written. For the other kinds, each parsed field is
      stored, a failed parse storing 0. Only the fields of the item's own kind change. */
  method ApplyEdits(b: BuildItem, self: BuildRef, inputs: EditInputs)
    returns (r: Completion<BuildItem>, destroyed: seq<Segment>)
    ensures b.data.None? ==> r == Threw(b) && destroyed == []
    ensures r.Threw? ==> r.state == b && destroyed == []
    ensures r.Normal? ==> b.data.Some? && OnlyTouches(b, r.state, GroupFor(b.data.value))
    ensures b.data.Some? && b.data.value.itemType == Roads ==>
              var n := SegmentCount(inputs.length.GetOr(b.length as real));
              && (r.Threw? <==> |b.roadSegments| == 0)
              && (r.Normal? ==>
                    && r.state.length == n
                    && |r.state.roadSegments| == n
                    && r.state.roadSegments == Resized(b.roadSegments, n, self)
                    && destroyed == (if n < |b.roadSegments| then Reversed(b.roadSegments[n..]) else []))
    ensures b.data.Some? && b.data.value.itemType != Roads ==> r.Normal? && destroyed == []
    ensures r.Normal? && b.data.value.itemType == Vehicles ==>
              r.state.vehicleSpeed == inputs.vehicleSpeed.GetOr(0.0)
    ensures r.Normal? && b.data.value.itemType == Pedestrians ==>
              r.state.pedestrianSpeed == inputs.pedestrianSpeed.GetOr(0.0)
    ensures r.Normal? && GroupFor(b.data.value) == LightFields ==>
              && r.state.stopTime == inputs.stopTime.GetOr(0.0)
              && r.state.slowdownTime == inputs.slowdownTime.GetOr(0.0)
              && r.state.goTime == inputs.goTime.GetOr(0.0)
              && r.state.hazardMode == inputs.hazard && r.state.flashingMode == inputs.flashing
    ensures r.Normal? && GroupFor(b.data.value) == SignFields ==>
              r.state.signPriority == inputs.signPriority.GetOr(0)
    ensures r.Normal? && b.data.value.itemType == Spawner ==>
              && r.state.maxSpawnCount == inputs.maxSpawn.GetOr(0)
              && r.state.spawnInterval == inputs.spawnInterval.GetOr(0.0)
  {
    destroyed := [];
    if b.data.None? {
      return Threw(b), [];
    }
    var d := b.data.value;
    match d.itemType {
      case Roads =>
        var newLength := SegmentCount(inputs.length.GetOr(b.length as real));
        var current := |b.roadSegments|;
        var segs := b.roadSegments;
        if newLength > current {
          if current == 0 {
            return Threw(b), [];
          }
          segs := Grow(b.roadSegments, newLength, self);
          assert segs == Resized(b.roadSegments, newLength, self);
        } else if newLength < current {
          segs, destroyed := Shrink(b.roadSegments, newLength);
        } else {
          assert segs == b.roadSegments[..newLength];
        }
        r := Normal(b.(roadSegments := segs, length := newLength));
      case Vehicles =>
        r := Normal(b.(vehicleSpeed := inputs.vehicleSpeed.GetOr(0.0)));
      case Pedestrians =>
        r := Normal(b.(pedestrianSpeed := inputs.pedestrianSpeed.GetOr(0.0)));
      case Rules =>
        if d.trafficRuleType == TrafficLight {
          r := Normal(b.(stopTime := inputs.stopTime.GetOr(0.0),
                         slowdownTime := inputs.slowdownTime.GetOr(0.0),
                         goTime := inputs.goTime.GetOr(0.0),
                         hazardMode := inputs.hazard,
                         flashingMode := inputs.flashing));
        } else {
          r := Normal(b.(signPriority := inputs.signPriority.GetOr(0)));
        }
      case Spawner =>
        r := Normal(b.(maxSpawnCount := inputs.maxSpawn.GetOr(0),
                       spawnInterval := inputs.spawnInterval.GetOr(0.0)));
    }
  }

  /** Editing a road to the length it already has changes nothing and destroys nothing. */
  method ReapplySameLength(b: BuildItem, self: BuildRef, inputs: EditInputs)
    returns (r: Completion<BuildItem>, destroyed: seq<Segment>)
    requires b.data.Some? && b.data.value.itemType == Roads
    requires |b.roadSegments| == b.length >= 1
    requires inputs.length.None? || SegmentCount(inputs.length.value) == b.length
    ensures r == Normal(b) && destroyed == []
  {
    r, destroyed := ApplyEdits(b, self, inputs);
    assert r.Normal?;
    assert r.state.roadSegments == b.roadSegments[..b.length] == b.roadSegments;
    UntouchedIsEquality(b, r.state);
    assert Untouched(b, r.state) by {
      assert OnlyTouches(b, r.state, RoadFields);
      assert AgreeOn(b, r.state, RoadFields);
    }
  }

  /** The panel together with the `BuildItem` components it can reach. */
  datatype Editor = Editor(panel: PanelState, items: map<BuildRef, BuildItem>)

  /** `OnConfirmBuild`: with no `currentData` nothing happens. A road is built from the parsed
      length (the data's `roadLength` when the parse fails) under the new handle `group` at
      `spawnPos`; any other kind becomes a single item initialised from its data. Either way
      the panel closes. */
  method OnConfirmBuild(e: Editor, inputs: EditInputs, spawnPos: Vec3, group: BuildRef)
    returns (r: Editor)
    requires group !in e.items
    ensures e.panel.currentData.None? ==> r == e
    ensures e.panel.currentData.Some? ==>
              && !r.panel.active
              && r.panel == e.panel.(active := false)
              && r.items.Keys == e.items.Keys + {group}
              && (forall k :: k in e.items ==> r.items[k] == e.items[k])
              && r.items[group].data == e.panel.currentData
    ensures e.panel.currentData.Some? && e.panel.currentData.value.itemType == Roads ==>
              var len := inputs.length.GetOr(e.panel.currentData.value.roadLength);
              && r.items[group].length == SegmentCount(len)
              && r.items[group].roadSegments == Row(spawnPos, group, SegmentCount(len))
    ensures e.panel.currentData.Some? && e.panel.currentData.value.itemType != Roads ==>
              r.items[group] == Initialize(Fresh(), e.panel.currentData.value)
  {
    if e.panel.currentData.None? {
      return e;
    }
    var d := e.panel.currentData.value;
    var built: BuildItem;
    if d.itemType == Roads {
      var inputLength := inputs.length.GetOr(d.roadLength);
      built := BuildRoad(d, inputLength, spawnPos, group);
    } else {
      built := Initialize(Fresh(), d);
    }
    r := Editor(e.panel.(active := false), e.items[group := built]);
  }

  /** The confirm button's listener after `EditItem(target)`: apply the edits to the item if
      it is still alive, then close the panel and forget it. If applying throws, the panel
      stays open. */
  method ConfirmEdits(e: Editor, target: BuildRef, inputs: EditInputs)
    returns (r: Completion<Editor>, destroyed: seq<Segment>)
    ensures target !in e.items ==>
              r == Normal(e.(panel := e.panel.(active := false, editing := None))) && destroyed == []
    ensures r.state.items.Keys == e.items.Keys
    ensures forall k :: k in e.items && k != target ==> r.state.items[k] == e.items[k]
    ensures r.Threw? ==> r.state == e
    ensures r.Normal? ==> !r.state.panel.active && r.state.panel.editing.None?
  {
    if target !in e.items {
      return Normal(e.(panel := e.panel.(active := false, editing := None))), [];
    }
    var applied;
    applied, destroyed := ApplyEdits(e.items[target], target, inputs);
    if applied.Threw? {
      return Threw(e), destroyed;
    }
    var items := e.items[target := applied.state];
    r := Normal(Editor(e.panel.(active := false, editing := None), items));
  }

  /** A click on the confirm button: whichever listener is bound runs. */
  method Confirm(e: Editor, inputs: EditInputs, spawnPos: Vec3, group: BuildRef)
    returns (r: Completion<Editor>, destroyed: seq<Segment>)
    requires group !in e.items
    ensures !r.state.panel.active || r.Threw? || (e.panel.confirm == BuildNew && e.panel.currentData.None? && r == Normal(e))
    ensures e.items.Keys <= r.state.items.Keys
  {
    match e.panel.confirm {
      case BuildNew =>
        var built := OnConfirmBuild(e, inputs, spawnPos, group);
        r, destroyed := Normal(built), [];
      case ApplyTo(target) =>
        r, destroyed := ConfirmEdits(e, target, inputs);
    }
  }
}
