/** The item catalogue record (`ItemData`) and the `BuildItem` component that a built road
    group or item carries: a snapshot of its catalogue entry plus per-type settings. */
module BuildItems {
  import opened Wrappers
  import opened Geometry

  datatype ItemType = Roads | Spawner | Pedestrians | Rules | Vehicles
  datatype SpawnerType = Car | Pedestrian
  datatype VehicleType = Motorcycle | LightVehicle | HeavyVehicle
  datatype TrafficRuleType = TrafficSign | TrafficLight

  datatype SpriteId = SpriteId(n: nat)
  datatype PrefabId = PrefabId(n: nat)

  /** A handle to a `BuildItem` component. */
  datatype BuildRef = BuildRef(n: nat)

  /** A catalogue entry (`ItemData`). */
  datatype ItemData = ItemData(
    itemType: ItemType,
    itemName: string,
    description: string,
    previewImage: Option<SpriteId>,
    itemPrefab: PrefabId,
    roadLength: real,
    spawnerType: SpawnerType,
    maxSpawnCount: int,
    spawnInterval: real,
    pedestrianDefaultSpeed: real,
    trafficRuleType: TrafficRuleType,
    signPriority: int,
    stopTime: real,
    slowdownTime: real,
    goTime: real,
    hazardMode: bool,
    flashingMode: bool,
    vehicleType: VehicleType,
    vehicleDefaultSpeed: real)

  /** One road segment object: its current position (the transform the grow loop reads) and
      the `parentBuild` its `SelectableItem` points back to. */
  datatype Segment = Segment(position: Vec3, parentBuild: BuildRef)

  /** The `BuildItem` component's fields. `data` and `staticName` are null until
      `Initialize` runs. */
  datatype BuildItem = BuildItem(
    data: Option<ItemData>,
    staticName: Option<string>,
    staticImage: Option<SpriteId>,
    length: int,
    roadSegments: seq<Segment>,
    vehicleSpeed: real,
    pedestrianSpeed: real,
    stopTime: real,
    slowdownTime: real,
    goTime: real,
    hazardMode: bool,
    flashingMode: bool,
    signPriority: int,
    maxSpawnCount: int,
    spawnInterval: real)

  /** A newly added component: `length` 1, no segments, no data, every setting zero. */
  function Fresh(): (b: BuildItem)
    ensures b.length == 1 && b.roadSegments == []
    ensures b.data.None? && b.staticName.None? && b.staticImage.None?
    ensures b.vehicleSpeed == 0.0 && b.pedestrianSpeed == 0.0
    ensures b.stopTime == 0.0 && b.slowdownTime == 0.0 && b.goTime == 0.0
    ensures !b.hazardMode && !b.flashingMode
    ensures b.signPriority == 0 && b.maxSpawnCount == 0 && b.spawnInterval == 0.0
  {
    BuildItem(None, None, None, 1, [], 0.0, 0.0, 0.0, 0.0, 0.0, false, false, 0, 0, 0.0)
  }

  /** `Initialize(itemData)`: links the entry and snapshots its name and preview image;
      every other field keeps its value. */
  function Initialize(b: BuildItem, d: ItemData): (r: BuildItem)
    ensures r.data == Some(d)
    ensures r.staticName == Some(d.itemName) && r.staticImage == d.previewImage
    ensures r == b.(data := r.data, staticName := r.staticName, staticImage := r.staticImage)
  {
    b.(data := Some(d), staticName := Some(d.itemName), staticImage := d.previewImage)
  }

  /** Initialising twice with the same entry is initialising once. */
  lemma InitializeIdempotent(b: BuildItem, d: ItemData)
    ensures Initialize(Initialize(b, d), d) == Initialize(b, d)
  {
  }

  /** The settings one edit panel group writes. */
  datatype FieldGroup = RoadFields | VehicleFields | PedestrianFields | LightFields | SignFields | SpawnerFields

  /** `a` and `b` hold the same values in group `g`. */
  predicate AgreeOn(a: BuildItem, b: BuildItem, g: FieldGroup) {
    match g
    case RoadFields => a.length == b.length && a.roadSegments == b.roadSegments
    case VehicleFields => a.vehicleSpeed == b.vehicleSpeed
    case PedestrianFields => a.pedestrianSpeed == b.pedestrianSpeed
    case LightFields =>
      && a.stopTime == b.stopTime && a.slowdownTime == b.slowdownTime && a.goTime == b.goTime
      && a.hazardMode == b.hazardMode && a.flashingMode == b.flashingMode
    case SignFields => a.signPriority == b.signPriority
    case SpawnerFields => a.maxSpawnCount == b.maxSpawnCount && a.spawnInterval == b.spawnInterval
  }

  /** `b` differs from `a` at most in the fields of `g` (catalogue link and snapshot kept). */
  predicate OnlyTouches(a: BuildItem, b: BuildItem, g: FieldGroup) {
    && a.data == b.data && a.staticName == b.staticName && a.staticImage == b.staticImage
    && forall h: FieldGroup :: h != g ==> AgreeOn(a, b, h)
  }

  /** `b` is `a` with nothing changed. */
  predicate Untouched(a: BuildItem, b: BuildItem) {
    && a.data == b.data && a.staticName == b.staticName && a.staticImage == b.staticImage
    && forall h: FieldGroup :: AgreeOn(a, b, h)
  }

  /** Every field is in exactly one group, so agreeing on all of them is equality. */
  lemma UntouchedIsEquality(a: BuildItem, b: BuildItem)
    ensures Untouched(a, b) <==> a == b
  {
    if Untouched(a, b) {
      assert AgreeOn(a, b, RoadFields) && AgreeOn(a, b, VehicleFields) && AgreeOn(a, b, PedestrianFields);
      assert AgreeOn(a, b, LightFields) && AgreeOn(a, b, SignFields) && AgreeOn(a, b, SpawnerFields);
    }
  }
}
