/** Object handles and the `SnapPoint` component: a connection marker on a road piece with
    an occupancy flag and an optional link to another marker.

    A C# reference to a component is a handle into a store (a map). A handle that is not in
    the store is Unity's `null`, which includes destroyed objects, so every `x != null` test
    of the scripts becomes `x in store`. */
module SnapPoints {
  import opened Wrappers
  import opened Geometry

  datatype PointId = PointId(n: nat)
  datatype RoadId = RoadId(n: nat)

  /** The component's own fields. */
  datatype SnapPoint = SnapPoint(isOccupied: bool, connectedTo: Option<PointId>, parentRoad: Option<RoadId>)

  type Points = map<PointId, SnapPoint>

  /** The marker's world-space position and facing, as its transform reports them. The
      engine derives these from the transform hierarchy; the model receives them. */
  datatype Frame = Frame(position: Vec3, forward: Vec3)

  type Frames = PointId -> Frame

  /** A newly added component: its field initialisers. */
  function Fresh(): (p: SnapPoint)
    ensures !p.isOccupied && p.connectedTo.None? && p.parentRoad.None?
  {
    SnapPoint(false, None, None)
  }

  /** `Awake`: `parentRoad` becomes the `RoadPiece` found on the marker or its ancestors. */
  function Awake(p: SnapPoint, enclosing: Option<RoadId>): (r: SnapPoint)
    ensures r.parentRoad == enclosing
    ensures r.isOccupied == p.isOccupied && r.connectedTo == p.connectedTo
  {
    p.(parentRoad := enclosing)
  }

  /** `Occupy`: the marker is taken; its link and owner are left alone. */
  function Occupy(p: SnapPoint): (r: SnapPoint)
    ensures r.isOccupied
    ensures r.connectedTo == p.connectedTo && r.parentRoad == p.parentRoad
  {
    p.(isOccupied := true)
  }

  /** `Release`: the marker is free again. The link is NOT cleared. */
  function Release(p: SnapPoint): (r: SnapPoint)
    ensures !r.isOccupied
    ensures r.connectedTo == p.connectedTo && r.parentRoad == p.parentRoad
  {
    p.(isOccupied := false)
  }

  /** Occupying twice is occupying once. */
  lemma OccupyIdempotent(p: SnapPoint)
    ensures Occupy(Occupy(p)) == Occupy(p)
  {
  }

  /** Releasing a marker that was free before it was occupied gives back the marker. */
  lemma OccupyReleaseRoundTrip(p: SnapPoint)
    requires !p.isOccupied
    ensures Release(Occupy(p)) == p
  {
  }

  /** A fresh marker, occupied and then released, is fresh again. */
  lemma FreshOccupyRelease()
    ensures Release(Occupy(Fresh())) == Fresh()
  {
  }

  /** `Occupy` on a handle: a live marker is occupied, a null one is left alone (the
      scripts test for null before each call). */
  function OccupyAt(points: Points, id: PointId): (r: Points)
    ensures r.Keys == points.Keys
    ensures id in points ==> r[id] == Occupy(points[id])
    ensures forall q :: q in points && q != id ==> r[q] == points[q]
  {
    if id in points then points[id := Occupy(points[id])] else points
  }
}
