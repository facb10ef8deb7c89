/** The `RoadPiece` component: a placeable road with settings and an ordered array of
    snap-point handles, plus its nearest-snap-point query. */
module RoadPieces {
  import opened Wrappers
  import opened Geometry
  import opened SnapPoints
  import FirstMin

  datatype RoadType = Straight | Corner | Intersection

  /** A grid quantum the model can divide by. A zero `snapSize` makes `SnapToGrid` divide a
      float by zero, which has no counterpart among the reals. */
  type Quantum = r: real | r != 0.0 witness 1.0

  /** The component's fields. `snapPoints` is never null once `Awake` has run; an element
      whose handle is not in the point store is a null entry. */
  datatype RoadPiece = RoadPiece(
    roadType: RoadType,
    laneCount: int,
    snapSize: Quantum,
    rotationStep: real,
    snapPoints: seq<PointId>)

  type Roads = map<RoadId, RoadPiece>

  /** The field initialisers. */
  function Default(): (p: RoadPiece)
    ensures p.roadType == Straight && p.laneCount == 1
    ensures p.snapSize == 1.0 && p.rotationStep == 90.0
    ensures p.snapPoints == []
  {
    RoadPiece(Straight, 1, 1.0, 90.0, [])
  }

  /** Sets `parentRoad := owner` on every live marker among `children`, in order. */
  function SetParents(points: Points, children: seq<PointId>, owner: RoadId): (r: Points)
    ensures r.Keys == points.Keys
    ensures forall q :: q in points && q in children ==> r[q] == points[q].(parentRoad := Some(owner))
    ensures forall q :: q in points && q !in children ==> r[q] == points[q]
  {
    if children == [] then points
    else
      var sp := children[0];
      var next := if sp in points then points[sp := points[sp].(parentRoad := Some(owner))] else points;
      SetParents(next, children[1..], owner)
  }

  /** `AutoCollectSnapPoints`: the array becomes the markers found among the piece's
      children (`GetComponentsInChildren<SnapPoint>(true)`, supplied by the engine), and each
      of them is told which piece owns it. */
  function AutoCollect(piece: RoadPiece, self: RoadId, children: seq<PointId>, points: Points)
    : (r: (RoadPiece, Points))
    ensures r.0 == piece.(snapPoints := children)
    ensures r.1.Keys == points.Keys
    ensures forall q :: q in points && q in children ==> r.1[q].parentRoad == Some(self)
    ensures forall q :: q in points && q in children ==>
              r.1[q].isOccupied == points[q].isOccupied && r.1[q].connectedTo == points[q].connectedTo
    ensures forall q :: q in points && q !in children ==> r.1[q] == points[q]
  {
    (piece.(snapPoints := children), SetParents(points, children, self))
  }

  /** `Awake`: collects the markers only when the array is empty; an array filled in the
      inspector is kept as it is. */
  function Awake(piece: RoadPiece, self: RoadId, children: seq<PointId>, points: Points)
    : (r: (RoadPiece, Points))
    ensures |piece.snapPoints| > 0 ==> r == (piece, points)
    ensures |piece.snapPoints| == 0 ==> r == AutoCollect(piece, self, children, points)
  {
    if |piece.snapPoints| == 0 then AutoCollect(piece, self, children, points) else (piece, points)
  }

  /** Squared distance from `worldPos` to the marker behind handle `id`. */
  function DistTo(frames: Frames, worldPos: Vec3, id: PointId): real {
    DistSq(worldPos, frames(id).position)
  }

  /** `snapPoints[k]` is a live marker strictly within `maxDist` of `worldPos`, no live marker
      is closer, and every live marker before it is strictly farther. */
  ghost predicate IsClosest(sps: seq<PointId>, points: Points, frames: Frames, worldPos: Vec3,
                            maxDist: real, k: int) {
    && 0 <= k < |sps|
    && sps[k] in points
    && DistTo(frames, worldPos, sps[k]) < SqLimit(maxDist)
    && (forall j :: 0 <= j < |sps| && sps[j] in points ==>
          DistTo(frames, worldPos, sps[k]) <= DistTo(frames, worldPos, sps[j]))
    && (forall j :: 0 <= j < k && sps[j] in points ==>
          DistTo(frames, worldPos, sps[k]) < DistTo(frames, worldPos, sps[j]))
  }

  /** `GetClosestSnapPoint(worldPos, maxDist)`: the first live marker of minimal distance
      among those strictly within `maxDist`, or null when there is none. */
  function GetClosestSnapPoint(piece: RoadPiece, points: Points, frames: Frames,
                               worldPos: Vec3, maxDist: real): (r: Option<PointId>)
    ensures |piece.snapPoints| == 0 ==> r.None?
    ensures r.None? <==>
              forall j :: 0 <= j < |piece.snapPoints| && piece.snapPoints[j] in points ==>
                SqLimit(maxDist) <= DistTo(frames, worldPos, piece.snapPoints[j])
    ensures r.Some? ==>
              exists k :: IsClosest(piece.snapPoints, points, frames, worldPos, maxDist, k)
                          && piece.snapPoints[k] == r.value
  {
    var sps := piece.snapPoints;
    if |sps| == 0 then None
    else
      var key := (id: PointId) => DistTo(frames, worldPos, id);
      var live := (id: PointId) => id in points;
      var found := FirstMin.Scan(sps, key, live, SqLimit(maxDist));
      if found.Some? then
        assert IsClosest(sps, points, frames, worldPos, maxDist, found.value);
        Some(sps[found.value])
      else None
  }

  /** The closest marker is a live element of the array whose real distance `d` to
      `worldPos` (any non-negative `d` with `d * d` the squared distance) is below `maxDist`. */
  lemma ClosestIsWithinRange(piece: RoadPiece, points: Points, frames: Frames,
                             worldPos: Vec3, maxDist: real, closest: PointId, d: real)
    requires d >= 0.0 && d * d == DistTo(frames, worldPos, closest)
    ensures GetClosestSnapPoint(piece, points, frames, worldPos, maxDist) == Some(closest) ==>
              d < maxDist && closest in points && closest in piece.snapPoints
  {
    SquaredComparison(d, maxDist);
  }
}
