/** `PlacementManager`: the road-placement session. A preview road follows the cursor,
    snapping to a grid or to the nearest free connection marker of a placed road, and is
    then either committed to `placedRoads` or discarded when it overlaps one.

    Engine services are inputs: the instantiated preview (`Spawn`), the ground ray hit,
    the snap markers' world frames (`Frames`) and the physics and collider readings
    (`Probe`). Rotations are symbolic terms (`Geometry.Rotation`). */
module Placement {
  import opened Wrappers
  import opened Numerics
  import opened Geometry
  import opened SnapPoints
  import opened RoadPieces
  import FirstMin

  datatype ObjectId = ObjectId(n: nat)
  datatype MaterialId = MaterialId(n: nat)

  /** The preview GameObject's transform. */
  datatype Pose = Pose(position: Vec3, rotation: Rotation)

  /** `previewObject`: a handle and its transform. */
  datatype Preview = Preview(handle: ObjectId, pose: Pose)

  /** Inspector settings: `snapRange` (1.5) and `overlapShrink` (0.85). */
  datatype Settings = Settings(snapRange: real, overlapShrink: real)

  const DefaultSettings := Settings(1.5, 0.85)

  /** Markers whose forward vectors have a dot product above this face the same way and
      are never paired. */
  const FacingLimit: real := 0.9

  /** The manager's fields, together with the road and snap-point components it can reach.
      `previewMaterials` are the preview-only material instances it owns. */
  datatype Manager = Manager(
    preview: Option<Preview>,
    currentPiece: Option<RoadId>,
    isPlacing: bool,
    firstFrameAfterSpawn: bool,
    placedRoads: seq<RoadId>,
    previewMaterials: set<MaterialId>,
    roads: Roads,
    points: Points,
    settings: Settings)

  /** The manager as the scene starts it: nothing placed and nothing being placed. */
  function Initial(settings: Settings, roads: Roads, points: Points): (m: Manager)
    ensures !m.isPlacing && !m.firstFrameAfterSpawn
    ensures m.preview.None? && m.currentPiece.None?
    ensures m.placedRoads == [] && m.previewMaterials == {}
  {
    Manager(None, None, false, false, [], {}, roads, points, settings)
  }

  /** `currentPiece` when it is not null. */
  function Piece(m: Manager): (r: Option<RoadPiece>)
    ensures r.Some? <==> m.currentPiece.Some? && m.currentPiece.value in m.roads
    ensures r.Some? ==> r.value == m.roads[m.currentPiece.value]
  {
    if m.currentPiece.Some? && m.currentPiece.value in m.roads then Some(m.roads[m.currentPiece.value])
    else None
  }

  // ---------------------------------------------------------------- grid snapping

  /** One coordinate rounded to the nearest multiple of `grid`, ties to an even multiple. */
  function GridRound(v: real, grid: Quantum): real
  {
    var n := RoundHalfEven(v / grid);
    n as real * grid
  }

  /** The rounded coordinate is a whole multiple `n` of the grid, with `n` the half-to-even
      rounding of `v / grid`. */
  lemma GridRoundIsRoundedMultiple(v: real, grid: Quantum)
    ensures var n := (GridRound(v, grid) / grid).Floor;
            GridRound(v, grid) == n as real * grid && IsRoundHalfEven(v / grid, n)
  {
    var k := RoundHalfEven(v / grid);
    var r := k as real * grid;
    assert GridRound(v, grid) == r;
    assert r / grid == k as real;
    assert (r / grid).Floor == k;
  }

  /** `|g * a| == |g| * |a|`. */
  lemma AbsMul(g: real, a: real)
    ensures Abs(g * a) == Abs(g) * Abs(a)
  {
    if g >= 0.0 && a < 0.0 {
      assert g * a == -(g * -a);
    } else if g < 0.0 && a >= 0.0 {
      assert g * a == -(-g * a);
    } else if g < 0.0 && a < 0.0 {
      assert g * a == -g * -a;
    }
  }

  /** Multiplying by a non-negative factor keeps `<=`. */
  lemma MulMonotone(c: real, x: real, y: real)
    requires c >= 0.0 && x <= y
    ensures c * x <= c * y
  {
    var diff := y - x;
    assert c * diff >= 0.0;
    assert c * y - c * x == c * diff;
  }

  /** No multiple of the grid quantum is closer to `v` than the rounded one. */
  lemma GridRoundIsNearest(v: real, grid: Quantum, m: int)
    ensures Abs(v - GridRound(v, grid)) <= Abs(v - m as real * grid)
  {
    var n := RoundHalfEven(v / grid);
    assert GridRound(v, grid) == n as real * grid;
    RoundIsNearest(v / grid, m);
    ScaledNearer(v, grid, n, m);
  }

  /** Being nearer in grid units is being nearer in world units. */
  lemma ScaledNearer(v: real, grid: Quantum, n: int, m: int)
    requires Abs(v / grid - n as real) <= Abs(v / grid - m as real)
    ensures Abs(v - n as real * grid) <= Abs(v - m as real * grid)
  {
    var t := v / grid;
    DivMul(v, grid);
    ScaledGap(v, grid, t, n as real);
    ScaledGap(v, grid, t, m as real);
    ScaledAbsOrder(grid, t - n as real, t - m as real, v - n as real * grid, v - m as real * grid);
  }

  /** Dividing by the quantum and multiplying back is the identity. */
  lemma DivMul(v: real, grid: Quantum)
    ensures v == grid * (v / grid)
  {
  }

  /** The gap between `v == g * t` and the multiple `a * g` is `g` times the gap in units. */
  lemma ScaledGap(v: real, g: real, t: real, a: real)
    requires v == g * t
    ensures v - a * g == g * (t - a)
  {
  }

  /** `|a| <= |b|` survives scaling both by `g`. */
  lemma ScaledAbsOrder(g: real, a: real, b: real, x: real, y: real)
    requires x == g * a && y == g * b
    requires Abs(a) <= Abs(b)
    ensures Abs(x) <= Abs(y)
  {
    AbsMul(g, a);
    AbsMul(g, b);
    MulMonotone(Abs(g), Abs(a), Abs(b));
    assert Abs(x) == Abs(g) * Abs(a);
    assert Abs(y) == Abs(g) * Abs(b);
  }

  /** `SnapToGrid`: with no current piece the point is returned as it is; otherwise `x` and
      `z` are rounded to the piece's grid and `y` is put on the ground. */
  function SnapToGrid(piece: Option<RoadPiece>, pos: Vec3): (r: Vec3)
    ensures piece.None? ==> r == pos
    ensures piece.Some? ==> r.y == 0.0
    ensures piece.Some? ==>
              r.x == GridRound(pos.x, piece.value.snapSize) && r.z == GridRound(pos.z, piece.value.snapSize)
  {
    if piece.None? then pos
    else
      var grid := piece.value.snapSize;
      Vec3(GridRound(pos.x, grid), 0.0, GridRound(pos.z, grid))
  }

  /** A coordinate already on the grid stays where it is. */
  lemma GridRoundOfMultiple(n: int, grid: Quantum)
    ensures GridRound(n as real * grid, grid) == n as real * grid
  {
    var v := n as real * grid;
    assert v / grid == n as real;
    assert IsRoundHalfEven(n as real, n);
    RoundHalfEvenUnique(n as real, n);
  }

  /** Snapping a snapped point again leaves it unchanged. */
  lemma SnapToGridIdempotent(piece: Option<RoadPiece>, pos: Vec3)
    ensures SnapToGrid(piece, SnapToGrid(piece, pos)) == SnapToGrid(piece, pos)
  {
    if piece.Some? {
      var grid := piece.value.snapSize;
      var s := SnapToGrid(piece, pos);
      var nx := RoundHalfEven(pos.x / grid);
      var nz := RoundHalfEven(pos.z / grid);
      assert GridRound(s.x, grid) == s.x by {
        assert s.x == nx as real * grid;
        GridRoundOfMultiple(nx, grid);
      }
      assert GridRound(s.z, grid) == s.z by {
        assert s.z == nz as real * grid;
        GridRoundOfMultiple(nz, grid);
      }
      assert s == Vec3(s.x, 0.0, s.z);
    }
  }

  // ---------------------------------------------------------------- pair enumeration

  /** A placed road's free marker `target` offered to the preview's marker `mine`, with the
      frames the transforms reported for both. */
  datatype Pair = Pair(target: PointId, mine: PointId, targetFrame: Frame, mineFrame: Frame)

  /** Squared distance between the two markers of a pair. */
  function PairDist(p: Pair): real {
    DistSq(p.targetFrame.position, p.mineFrame.position)
  }

  /** The two markers do not face the same way: their forward dot product is at most 0.9. */
  predicate Facing(p: Pair) {
    Dot(p.mineFrame.forward, p.targetFrame.forward) <= FacingLimit
  }

  /** The innermost loop: `target` against each live marker of the preview, in order. */
  function PairsWith(target: PointId, mine: seq<PointId>, points: Points, frames: Frames): (r: seq<Pair>)
    ensures forall p :: p in r ==>
              p.target == target && p.mine in mine && p.mine in points
              && p.targetFrame == frames(target) && p.mineFrame == frames(p.mine)
    ensures forall q :: q in mine && q in points ==> Pair(target, q, frames(target), frames(q)) in r
  {
    if mine == [] then []
    else
      var head := if mine[0] in points then [Pair(target, mine[0], frames(target), frames(mine[0]))] else [];
      head + PairsWith(target, mine[1..], points, frames)
  }

  /** The middle loop: each live, unoccupied marker of one placed road. */
  function PairsOfRoad(candidates: seq<PointId>, mine: seq<PointId>, points: Points, frames: Frames)
    : (r: seq<Pair>)
    ensures forall p :: p in r ==>
              && p.target in candidates && p.target in points && !points[p.target].isOccupied
              && p.mine in mine && p.mine in points
              && p.targetFrame == frames(p.target) && p.mineFrame == frames(p.mine)
    ensures forall t, q :: t in candidates && t in points && !points[t].isOccupied && q in mine && q in points
              ==> Pair(t, q, frames(t), frames(q)) in r
  {
    if candidates == [] then []
    else
      var t := candidates[0];
      var head := if t in points && !points[t].isOccupied then PairsWith(t, mine, points, frames) else [];
      head + PairsOfRoad(candidates[1..], mine, points, frames)
  }

  /** `t` is a marker of some live road in `placed`. */
  ghost predicate OnPlacedRoad(placed: seq<RoadId>, roads: Roads, t: PointId) {
    exists i :: 0 <= i < |placed| && placed[i] in roads && t in roads[placed[i]].snapPoints
  }

  /** Every pair the three nested loops visit, in their order: placed roads, then each
      road's markers, then the preview's markers. */
  function CandidatePairs(placed: seq<RoadId>, roads: Roads, points: Points, frames: Frames,
                          mine: seq<PointId>): (r: seq<Pair>)
    ensures forall p :: p in r ==>
              && OnPlacedRoad(placed, roads, p.target)
              && p.target in points && !points[p.target].isOccupied
              && p.mine in mine && p.mine in points
              && p.targetFrame == frames(p.target) && p.mineFrame == frames(p.mine)
    ensures forall i, t, q :: 0 <= i < |placed| && placed[i] in roads && t in roads[placed[i]].snapPoints
              && t in points && !points[t].isOccupied && q in mine && q in points
              ==> Pair(t, q, frames(t), frames(q)) in r
  {
    if placed == [] then []
    else
      var head := if placed[0] in roads then PairsOfRoad(roads[placed[0]].snapPoints, mine, points, frames) else [];
      var rest := CandidatePairs(placed[1..], roads, points, frames, mine);
      HeadOnPlacedRoad(placed, roads, points, frames, mine);
      RestOnPlacedRoad(placed, roads, rest);
      RestCoversTail(placed, roads, points, frames, mine, rest);
      head + rest
  }

  /** The pairs of the first placed road join markers of a placed road. */
  lemma HeadOnPlacedRoad(placed: seq<RoadId>, roads: Roads, points: Points, frames: Frames,
                         mine: seq<PointId>)
    requires placed != []
    ensures placed[0] in roads ==>
              forall p :: p in PairsOfRoad(roads[placed[0]].snapPoints, mine, points, frames) ==>
                OnPlacedRoad(placed, roads, p.target)
  {
    forall p | placed[0] in roads && p in PairsOfRoad(roads[placed[0]].snapPoints, mine, points, frames)
      ensures OnPlacedRoad(placed, roads, p.target)
    {
      assert placed[0] in roads && p.target in roads[placed[0]].snapPoints;
    }
  }

  /** A marker on a road after the first is on a placed road. */
  lemma RestOnPlacedRoad(placed: seq<RoadId>, roads: Roads, rest: seq<Pair>)
    requires placed != []
    requires forall p :: p in rest ==> OnPlacedRoad(placed[1..], roads, p.target)
    ensures forall p :: p in rest ==> OnPlacedRoad(placed, roads, p.target)
  {
    forall p | p in rest
      ensures OnPlacedRoad(placed, roads, p.target)
    {
      var i :| 0 <= i < |placed[1..]| && placed[1..][i] in roads && p.target in roads[placed[1..][i]].snapPoints;
      assert placed[i + 1] == placed[1..][i];
    }
  }

  /** The recursive call covers every road after the first. */
  lemma RestCoversTail(placed: seq<RoadId>, roads: Roads, points: Points, frames: Frames,
                       mine: seq<PointId>, rest: seq<Pair>)
    requires placed != []
    requires forall i, t, q :: 0 <= i < |placed[1..]| && placed[1..][i] in roads
               && t in roads[placed[1..][i]].snapPoints
               && t in points && !points[t].isOccupied && q in mine && q in points
               ==> Pair(t, q, frames(t), frames(q)) in rest
    ensures forall i, t, q :: 1 <= i < |placed| && placed[i] in roads && t in roads[placed[i]].snapPoints
              && t in points && !points[t].isOccupied && q in mine && q in points
              ==> Pair(t, q, frames(t), frames(q)) in rest
  {
    forall i, t, q | 1 <= i < |placed| && placed[i] in roads && t in roads[placed[i]].snapPoints
           && t in points && !points[t].isOccupied && q in mine && q in points
      ensures Pair(t, q, frames(t), frames(q)) in rest
    {
      assert placed[1..][i - 1] == placed[i];
    }
  }

  /** The selection of the nested loops: the first pair of minimal distance among the
      facing pairs strictly closer than `snapRange`, or none. */
  function SelectPair(pairs: seq<Pair>, snapRange: real): (r: Option<Pair>)
    ensures r.None? <==>
              forall j :: 0 <= j < |pairs| && Facing(pairs[j]) ==> SqLimit(snapRange) <= PairDist(pairs[j])
    ensures r.Some? ==>
              exists k :: FirstMin.IsFirstMin(pairs, PairDist, Facing, SqLimit(snapRange), k) && pairs[k] == r.value
  {
    var found := FirstMin.Scan(pairs, PairDist, Facing, SqLimit(snapRange));
    if found.Some? then Some(pairs[found.value]) else None
  }

  /** A selected pair joins a free marker of a placed road to a marker of the preview, the
      two are strictly closer than `snapRange` (for any distance `d` whose square is theirs),
      and they face apart. */
  lemma SelectedPairQualifies(placed: seq<RoadId>, roads: Roads, points: Points, frames: Frames,
                              mine: seq<PointId>, snapRange: real, p: Pair, d: real)
    requires d >= 0.0 && d * d == PairDist(p)
    ensures SelectPair(CandidatePairs(placed, roads, points, frames, mine), snapRange) == Some(p) ==>
              && OnPlacedRoad(placed, roads, p.target)
              && p.target in points && !points[p.target].isOccupied
              && p.mine in mine && p.mine in points
              && p.targetFrame == frames(p.target) && p.mineFrame == frames(p.mine)
              && d < snapRange
              && Dot(frames(p.mine).forward, frames(p.target).forward) <= FacingLimit
  {
    var pairs := CandidatePairs(placed, roads, points, frames, mine);
    if SelectPair(pairs, snapRange) == Some(p) {
      var k :| FirstMin.IsFirstMin(pairs, PairDist, Facing, SqLimit(snapRange), k) && pairs[k] == p;
      assert p in pairs;
      SquaredComparison(d, snapRange);
    }
  }

  /** No pair of a free placed marker `t` (on road `placed[i]`) and a live preview marker
      `q` that face apart is closer than the selected pair. */
  lemma SelectedPairIsNearest(placed: seq<RoadId>, roads: Roads, points: Points, frames: Frames,
                              mine: seq<PointId>, snapRange: real, p: Pair, i: int, t: PointId, q: PointId)
    requires 0 <= i < |placed| && placed[i] in roads && t in roads[placed[i]].snapPoints
    requires t in points && !points[t].isOccupied && q in mine && q in points
    requires Dot(frames(q).forward, frames(t).forward) <= FacingLimit
    ensures SelectPair(CandidatePairs(placed, roads, points, frames, mine), snapRange) == Some(p) ==>
              PairDist(p) <= DistSq(frames(t).position, frames(q).position)
  {
    var pairs := CandidatePairs(placed, roads, points, frames, mine);
    if SelectPair(pairs, snapRange) == Some(p) {
      var k :| FirstMin.IsFirstMin(pairs, PairDist, Facing, SqLimit(snapRange), k) && pairs[k] == p;
      var other := Pair(t, q, frames(t), frames(q));
      assert other in pairs;
      var j :| 0 <= j < |pairs| && pairs[j] == other;
      assert Facing(pairs[j]);
    }
  }

  /** Of two facing candidates at the same distance, the later one is never the one chosen:
      the strict `<` keeps the pair found first. */
  lemma TiesGoToTheEarlierPair(pairs: seq<Pair>, snapRange: real, j: int, k: int)
    requires 0 <= j < k < |pairs|
    requires Facing(pairs[j]) && Facing(pairs[k])
    requires PairDist(pairs[j]) == PairDist(pairs[k])
    ensures FirstMin.Scan(pairs, PairDist, Facing, SqLimit(snapRange)) != Some(k)
  {
    FirstMin.ScanIsFirstMin(pairs, PairDist, Facing, SqLimit(snapRange), k);
  }

  // ---------------------------------------------------------------- snapping the preview

  /** The position `AlignToSnapPoint` and the snap branch give the piece:
      `target - (myPoint - piecePos)`. */
  function SnapTranslation(piecePos: Vec3, myPoint: Vec3, target: Vec3): (r: Vec3)
    ensures Carry(myPoint, piecePos, r) == target
  {
    Sub(target, Sub(myPoint, piecePos))
  }

  /** `AlignToSnapPoint(piece, mySnap, targetSnap)`: a no-op when any argument is null;
      otherwise the piece is moved so that its marker (carried with it before the rotation
      is applied) lands on the target, and then turned so its marker faces against the
      target's forward. */
  function AlignToSnapPoint(piece: Option<Pose>, mySnap: Option<Frame>, targetSnap: Option<Frame>)
    : (r: Option<Pose>)
    ensures piece.None? || mySnap.None? || targetSnap.None? ==> r == piece
    ensures piece.Some? && mySnap.Some? && targetSnap.Some? ==>
              && r.Some?
              && Carry(mySnap.value.position, piece.value.position, r.value.position) == targetSnap.value.position
              && r.value.rotation == Aligned(mySnap.value.forward, Neg(targetSnap.value.forward), piece.value.rotation)
  {
    if piece.None? || mySnap.None? || targetSnap.None? then piece
    else
      var p := piece.value;
      Some(Pose(SnapTranslation(p.position, mySnap.value.position, targetSnap.value.position),
                Aligned(mySnap.value.forward, Neg(targetSnap.value.forward), p.rotation)))
  }

  /** The preview moved to `pose`. */
  function MovePreview(m: Manager, pose: Pose): (r: Manager)
    requires m.preview.Some?
    ensures r.preview == Some(Preview(m.preview.value.handle, pose))
    ensures r == m.(preview := r.preview)
  {
    m.(preview := Some(m.preview.value.(pose := pose)))
  }

  /** `TrySnapOrGrid(hitPos)`, one cursor update. */
  function TrySnapOrGrid(m: Manager, hit: Vec3, frames: Frames): (r: Manager)
    // nothing to move: no preview or no current piece
    ensures m.preview.None? || Piece(m).None? ==> r == m
    // only the preview's transform changes
    ensures r.preview.Some? <==> m.preview.Some?
    ensures m.preview.Some? ==> r.preview.value.handle == m.preview.value.handle
    ensures r == m.(preview := r.preview)
    // first frame after spawning: plain grid snap, rotation kept
    ensures m.preview.Some? && Piece(m).Some? && m.firstFrameAfterSpawn ==>
              r.preview.value.pose == Pose(SnapToGrid(Piece(m), hit), m.preview.value.pose.rotation)
    // later frames with no qualifying pair: grid snap, rotation kept
    ensures m.preview.Some? && Piece(m).Some? && !m.firstFrameAfterSpawn
            && SelectPair(CandidatePairs(m.placedRoads, m.roads, m.points, frames, Piece(m).value.snapPoints),
                          m.settings.snapRange).None?
            ==> r.preview.value.pose == Pose(SnapToGrid(Piece(m), hit), m.preview.value.pose.rotation)
    // later frames with a selected pair: aligned onto the target marker
    ensures m.preview.Some? && Piece(m).Some? && !m.firstFrameAfterSpawn
            && SelectPair(CandidatePairs(m.placedRoads, m.roads, m.points, frames, Piece(m).value.snapPoints),
                          m.settings.snapRange).Some?
            ==> var p := SelectPair(CandidatePairs(m.placedRoads, m.roads, m.points, frames, Piece(m).value.snapPoints),
                                    m.settings.snapRange).value;
                Some(r.preview.value.pose) == AlignToSnapPoint(Some(m.preview.value.pose), Some(p.mineFrame), Some(p.targetFrame))
  {
    if m.preview.None? || Piece(m).None? then m
    else
      var pose := m.preview.value.pose;
      var targetPos := SnapToGrid(Piece(m), hit);
      if m.firstFrameAfterSpawn then MovePreview(m, Pose(targetPos, pose.rotation))
      else
        var pairs := CandidatePairs(m.placedRoads, m.roads, m.points, frames, Piece(m).value.snapPoints);
        match SelectPair(pairs, m.settings.snapRange)
        case None => MovePreview(m, Pose(targetPos, pose.rotation))
        case Some(p) =>
          var delta := Sub(p.mineFrame.position, pose.position);
          MovePreview(m, Pose(Sub(p.targetFrame.position, delta),
                              Aligned(p.mineFrame.forward, Neg(p.targetFrame.forward), pose.rotation)))
  }

  // ---------------------------------------------------------------- overlap gate

  /** A collider `Physics.OverlapBox` reported: whether it belongs to the preview's own
      hierarchy and whether a `RoadPiece` sits on it or an ancestor. */
  datatype Hit = Hit(childOfPreview: bool, inRoadPiece: bool)

  /** A collider of a placed road: enabled flag, membership of the preview's hierarchy, and
      its world bounds. */
  datatype ColliderInfo = ColliderInfo(enabled: bool, childOfPreview: bool, bounds: Bounds)

  /** The engine readings the overlap test consumes: the preview's first collider's bounds
      (None when it has none), the physics query's result for the shrunk box, and each
      road's colliders (`GetComponentsInChildren<Collider>()`). */
  datatype Probe = Probe(previewBounds: Option<Bounds>, physicsHits: seq<Hit>,
                         roadColliders: RoadId -> seq<ColliderInfo>)

  /** A physics hit that counts: outside the preview and part of a road. */
  predicate Blocking(h: Hit) {
    !h.childOfPreview && h.inRoadPiece
  }

  /** A placed road's collider that counts: enabled, outside the preview, and intersecting
      the shrunk box. */
  predicate Obstructs(c: ColliderInfo, box: Bounds) {
    c.enabled && !c.childOfPreview && Intersects(box, c.bounds)
  }

  /** The first loop: some reported collider counts. */
  function AnyBlockingHit(hits: seq<Hit>): (r: bool)
    ensures r <==> exists j :: 0 <= j < |hits| && Blocking(hits[j])
  {
    if hits == [] then false
    else if Blocking(hits[0]) then true
    else
      var rest := AnyBlockingHit(hits[1..]);
      assert forall j :: 1 <= j < |hits| ==> hits[j] == hits[1..][j - 1];
      rest
  }

  /** The inner manual loop: some collider of one road counts. */
  function AnyObstructing(cols: seq<ColliderInfo>, box: Bounds): (r: bool)
    ensures r <==> exists j :: 0 <= j < |cols| && Obstructs(cols[j], box)
  {
    if cols == [] then false
    else if Obstructs(cols[0], box) then true
    else
      var rest := AnyObstructing(cols[1..], box);
      assert forall j :: 1 <= j < |cols| ==> cols[j] == cols[1..][j - 1];
      rest
  }

  /** The outer manual loop over `placedRoads`, skipping null entries. */
  function AnyRoadObstructs(placed: seq<RoadId>, roads: Roads, cols: RoadId -> seq<ColliderInfo>, box: Bounds)
    : (r: bool)
    ensures r <==> exists i, j :: 0 <= i < |placed| && placed[i] in roads
                                  && 0 <= j < |cols(placed[i])| && Obstructs(cols(placed[i])[j], box)
  {
    if placed == [] then false
    else if placed[0] in roads && AnyObstructing(cols(placed[0]), box) then true
    else
      var rest := AnyRoadObstructs(placed[1..], roads, cols, box);
      assert forall i :: 1 <= i < |placed| ==> placed[i] == placed[1..][i - 1];
      rest
  }

  /** `IsOverlapping(previewObject)`. The collider loop tests the preview's bounds with the
      extents scaled by `overlapShrink`; the physics query (an oriented box) enters only as
      its reported hits. */
  function IsOverlapping(m: Manager, probe: Probe): (r: bool)
    ensures m.preview.None? || |m.placedRoads| == 0 || probe.previewBounds.None? ==> !r
    ensures m.preview.Some? && |m.placedRoads| > 0 && probe.previewBounds.Some? ==>
              (r <==>
                 || (exists j :: 0 <= j < |probe.physicsHits| && Blocking(probe.physicsHits[j]))
                 || (exists i, j :: 0 <= i < |m.placedRoads| && m.placedRoads[i] in m.roads
                      && 0 <= j < |probe.roadColliders(m.placedRoads[i])|
                      && Obstructs(probe.roadColliders(m.placedRoads[i])[j],
                                   ScaleExtents(probe.previewBounds.value, m.settings.overlapShrink))))
  {
    if m.preview.None? || |m.placedRoads| == 0 || probe.previewBounds.None? then false
    else
      var box := ScaleExtents(probe.previewBounds.value, m.settings.overlapShrink);
      AnyBlockingHit(probe.physicsHits) || AnyRoadObstructs(m.placedRoads, m.roads, probe.roadColliders, box)
  }

  // ---------------------------------------------------------------- session lifecycle

  /** `DestroyPreviewImmediate`: the preview-only materials are released, the preview
      destroyed, and the session ends. `placedRoads`, the components and
      `firstFrameAfterSpawn` are untouched. */
  function DestroyPreview(m: Manager): (r: Manager)
    ensures r.preview.None? && r.currentPiece.None? && !r.isPlacing && r.previewMaterials == {}
    ensures r.placedRoads == m.placedRoads && r.points == m.points && r.roads == m.roads
    ensures r.firstFrameAfterSpawn == m.firstFrameAfterSpawn && r.settings == m.settings
  {
    m.(previewMaterials := {}, preview := None, currentPiece := None, isPlacing := false)
  }

  /** What `Instantiate(prefab)` produced: the object, the prefab's rotation, its
      `RoadPiece` (none when the prefab has no such component) with the snap markers created
      alongside it, and the preview material instances made for its renderers. */
  datatype Spawn = Spawn(handle: ObjectId, rotation: Rotation, piece: Option<(RoadId, RoadPiece)>,
                         newPoints: Points, materials: set<MaterialId>)

  /** `Instantiate` hands out new objects: the spawned piece and its markers use handles that
      no live road or marker holds. */
  predicate FreshSpawn(m: Manager, spawn: Spawn) {
    && (spawn.piece.Some? ==> spawn.piece.value.0 !in m.roads)
    && spawn.newPoints.Keys !! m.points.Keys
  }

  /** `StartPlacingRoad(prefab)`. An existing preview is destroyed first and replaced; the
      new one is put at the grid-snapped ground hit, or at the origin when the ray missed. */
  function StartPlacingRoad(m: Manager, spawn: Spawn, groundHit: Option<Vec3>): (r: Manager)
    requires FreshSpawn(m, spawn)
    ensures forall k :: k in m.roads ==> k in r.roads && r.roads[k] == m.roads[k]
    ensures forall q :: q in m.points ==> q in r.points && r.points[q] == m.points[q]
    ensures r.points.Keys == m.points.Keys + spawn.newPoints.Keys
    ensures r.isPlacing && r.firstFrameAfterSpawn
    ensures r.preview.Some? && r.preview.value.handle == spawn.handle
    ensures r.preview.value.pose.rotation == spawn.rotation
    ensures r.previewMaterials == spawn.materials
    ensures r.placedRoads == m.placedRoads && r.settings == m.settings
    ensures spawn.piece.None? ==> r.currentPiece.None? && Piece(r).None?
    ensures spawn.piece.Some? ==> r.currentPiece == Some(spawn.piece.value.0) && Piece(r) == Some(spawn.piece.value.1)
    ensures groundHit.None? ==> r.preview.value.pose.position == Zero
    ensures groundHit.Some? ==> r.preview.value.pose.position == SnapToGrid(Piece(r), groundHit.value)
  {
    var m1 := if m.preview.Some? then DestroyPreview(m) else m;
    var m2 := match spawn.piece
      case None => m1.(currentPiece := None, points := m1.points + spawn.newPoints)
      case Some(p) => m1.(currentPiece := Some(p.0), roads := m1.roads[p.0 := p.1],
                          points := m1.points + spawn.newPoints);
    var position := match groundHit
      case Some(h) => SnapToGrid(Piece(m2), h)
      case None => Zero;
    m2.(preview := Some(Preview(spawn.handle, Pose(position, spawn.rotation))),
        previewMaterials := spawn.materials, isPlacing := true, firstFrameAfterSpawn := true)
  }

  /** A marker of the committed piece whose link points at a live marker. */
  predicate Linked(points: Points, sp: PointId) {
    sp in points && points[sp].connectedTo.Some? && points[sp].connectedTo.value in points
  }

  /** Both ends of every link the loop over the piece's markers finds. */
  function LinkEnds(points: Points, sps: seq<PointId>): set<PointId> {
    if sps == [] then {}
    else
      (if Linked(points, sps[0]) then {sps[0], points[sps[0]].connectedTo.value} else {})
      + LinkEnds(points, sps[1..])
  }

  /** Two stores with the same handles and the same links. */
  ghost predicate SameLinks(p1: Points, p2: Points) {
    p1.Keys == p2.Keys && forall q :: q in p1 ==> p1[q].connectedTo == p2[q].connectedTo
  }

  /** The ends found depend only on the handles and links, not on occupancy. */
  lemma {:induction false} LinkEndsOnlyReadsLinks(p1: Points, p2: Points, sps: seq<PointId>)
    requires SameLinks(p1, p2)
    ensures LinkEnds(p1, sps) == LinkEnds(p2, sps)
    decreases |sps|
  {
    if sps != [] {
      LinkEndsOnlyReadsLinks(p1, p2, sps[1..]);
    }
  }

  /** The loop of `FinishPlacingRoad` that calls `Occupy` on both ends of each link: the
      ends become occupied and nothing else about any marker changes. */
  function OccupyLinks(points: Points, sps: seq<PointId>): (r: Points)
    ensures r.Keys == points.Keys
    ensures forall q :: q in points && q in LinkEnds(points, sps) ==> r[q] == Occupy(points[q])
    ensures forall q :: q in points && q !in LinkEnds(points, sps) ==> r[q] == points[q]
    decreases |sps|
  {
    if sps == [] then points
    else
      var sp := sps[0];
      var next := if Linked(points, sp) then OccupyAt(OccupyAt(points, sp), points[sp].connectedTo.value) else points;
      assert SameLinks(next, points);
      LinkEndsOnlyReadsLinks(next, points, sps[1..]);
      OccupyLinks(next, sps[1..])
  }

  /** `FinishPlacingRoad()`. A no-op unless placing with a preview. An overlapping preview is
      discarded. Otherwise the preview materials are released, both ends of each link on the
      piece are occupied, the piece is appended to `placedRoads` and the session ends. With
      no `RoadPiece` on the preview the loop dereferences null: the exception escapes after
      the materials were released. */
  function FinishPlacingRoad(m: Manager, probe: Probe): (r: Completion<Manager>)
    ensures !m.isPlacing || m.preview.None? ==> r == Normal(m)
    ensures m.isPlacing && m.preview.Some? && IsOverlapping(m, probe) ==> r == Normal(DestroyPreview(m))
    ensures m.isPlacing && m.preview.Some? && !IsOverlapping(m, probe) && Piece(m).None? ==>
              r == Threw(m.(previewMaterials := {}))
    ensures m.isPlacing && m.preview.Some? && !IsOverlapping(m, probe) && Piece(m).Some? ==>
              && r.Normal?
              && r.state.placedRoads == m.placedRoads + [m.currentPiece.value]
              && r.state.preview.None? && r.state.currentPiece.None? && !r.state.isPlacing
              && r.state.previewMaterials == {}
              && r.state.roads == m.roads
              && r.state.points == OccupyLinks(m.points, Piece(m).value.snapPoints)
              && r.state.firstFrameAfterSpawn == m.firstFrameAfterSpawn
              && r.state.settings == m.settings
  {
    if !m.isPlacing || m.preview.None? then Normal(m)
    else if IsOverlapping(m, probe) then Normal(DestroyPreview(m))
    else
      var restored := m.(previewMaterials := {});
      if Piece(m).None? then Threw(restored)
      else
        var points := OccupyLinks(m.points, Piece(m).value.snapPoints);
        Normal(restored.(points := points, placedRoads := m.placedRoads + [m.currentPiece.value],
                         preview := None, currentPiece := None, isPlacing := false))
  }

  datatype Turn = Left | Right

  /** The Q / E keys while placing: the preview turns by `-rotationStep` / `+rotationStep`
      about its up axis. With no `RoadPiece` the step read dereferences null. */
  function RotatePreview(m: Manager, turn: Turn): (r: Completion<Manager>)
    ensures !m.isPlacing || m.preview.None? ==> r == Normal(m)
    ensures m.isPlacing && m.preview.Some? && Piece(m).None? ==> r == Threw(m)
    ensures m.isPlacing && m.preview.Some? && Piece(m).Some? ==>
              && r.Normal?
              && r.state == m.(preview := r.state.preview)
              && r.state.preview.Some?
              && r.state.preview.value.handle == m.preview.value.handle
              && r.state.preview.value.pose.position == m.preview.value.pose.position
              && r.state.preview.value.pose.rotation ==
                   LocalYaw(if turn == Left then -Piece(m).value.rotationStep else Piece(m).value.rotationStep,
                            m.preview.value.pose.rotation)
  {
    if !m.isPlacing || m.preview.None? then Normal(m)
    else if Piece(m).None? then Threw(m)
    else
      var step := Piece(m).value.rotationStep;
      var pose := m.preview.value.pose;
      Normal(MovePreview(m, pose.(rotation := LocalYaw(if turn == Left then -step else step, pose.rotation))))
  }

  // ---------------------------------------------------------------- session properties

  /** A committed placement grows `placedRoads` by exactly the piece, and a second
      `FinishPlacingRoad` right after it changes nothing. */
  lemma FinishCommitsOnce(m: Manager, probe: Probe, probe2: Probe)
    requires m.isPlacing && m.preview.Some? && !IsOverlapping(m, probe) && Piece(m).Some?
    ensures |FinishPlacingRoad(m, probe).state.placedRoads| == |m.placedRoads| + 1
    ensures FinishPlacingRoad(FinishPlacingRoad(m, probe).state, probe2) == FinishPlacingRoad(m, probe)
  {
  }

  /** Discarding an overlapping preview leaves the placed roads and every marker as they
      were and releases every preview material. */
  lemma DiscardLeavesNoResidue(m: Manager, probe: Probe)
    requires m.isPlacing && m.preview.Some? && IsOverlapping(m, probe)
    ensures FinishPlacingRoad(m, probe).Normal?
    ensures FinishPlacingRoad(m, probe).state.placedRoads == m.placedRoads
    ensures FinishPlacingRoad(m, probe).state.points == m.points
    ensures FinishPlacingRoad(m, probe).state.previewMaterials == {}
    ensures !FinishPlacingRoad(m, probe).state.isPlacing
  {
  }

  /** After a commit, every live marker of the piece with a live link is occupied, and so
      is the marker it links to. */
  lemma {:induction false} CommitOccupiesLinkedEnds(points: Points, sps: seq<PointId>, j: int)
    requires 0 <= j < |sps| && Linked(points, sps[j])
    ensures sps[j] in LinkEnds(points, sps)
    ensures points[sps[j]].connectedTo.value in LinkEnds(points, sps)
    ensures OccupyLinks(points, sps)[sps[j]].isOccupied
    ensures OccupyLinks(points, sps)[points[sps[j]].connectedTo.value].isOccupied
    decreases |sps|
  {
    if j > 0 {
      assert sps[1..][j - 1] == sps[j];
      CommitOccupiesLinkedEnds(points, sps[1..], j - 1);
    }
  }

  /** Every operation keeps `firstFrameAfterSpawn` once it is set: no code path clears it. */
  lemma FirstFrameFlagSticks(m: Manager, hit: Vec3, frames: Frames, probe: Probe, turn: Turn,
                             spawn: Spawn, groundHit: Option<Vec3>)
    requires m.firstFrameAfterSpawn
    ensures TrySnapOrGrid(m, hit, frames).firstFrameAfterSpawn
    ensures FinishPlacingRoad(m, probe).state.firstFrameAfterSpawn
    ensures RotatePreview(m, turn).state.firstFrameAfterSpawn
    ensures FreshSpawn(m, spawn) ==> StartPlacingRoad(m, spawn, groundHit).firstFrameAfterSpawn
  {
  }

  /** The operations a session is driven by. */
  datatype Op =
    | Start(spawn: Spawn, groundHit: Option<Vec3>)
    | Tick(hit: Vec3, frames: Frames)
    | Rotate(turn: Turn)
    | Finish(probe: Probe)

  /** Applies one operation; an escaped exception leaves its partial state behind, as the
      next frame finds it. A spawn reusing a live handle cannot come from `Instantiate`; it is
      not a step and leaves the manager as it is. */
  function Step(m: Manager, op: Op): Manager {
    match op
    case Start(spawn, groundHit) => if FreshSpawn(m, spawn) then StartPlacingRoad(m, spawn, groundHit) else m
    case Tick(hit, frames) => TrySnapOrGrid(m, hit, frames)
    case Rotate(turn) => RotatePreview(m, turn).state
    case Finish(probe) => FinishPlacingRoad(m, probe).state
  }

  function Run(m: Manager, ops: seq<Op>): Manager
    decreases |ops|
  {
    if ops == [] then m else Run(Step(m, ops[0]), ops[1..])
  }

  /** Once any session has started, every later cursor update only grid-snaps: whatever
      operations follow, the connection-matching branch of `TrySnapOrGrid` is never taken. */
  lemma {:induction false} SnapBranchUnreachableAfterStart(m: Manager, ops: seq<Op>, hit: Vec3, frames: Frames)
    requires m.firstFrameAfterSpawn
    ensures Run(m, ops).firstFrameAfterSpawn
    ensures var s := Run(m, ops);
            s.preview.Some? && Piece(s).Some? ==>
              TrySnapOrGrid(s, hit, frames).preview.value.pose
                == Pose(SnapToGrid(Piece(s), hit), s.preview.value.pose.rotation)
    decreases |ops|
  {
    if ops != [] {
      var op := ops[0];
      match op {
        case Start(spawn, groundHit) => FirstFrameFlagSticks(m, hit, frames, Probe(None, [], _ => []), Left, spawn, groundHit);
        case Tick(h, f) => FirstFrameFlagSticks(m, h, f, Probe(None, [], _ => []), Left, Spawn(ObjectId(0), Given(0), None, map[], {}), None);
        case Rotate(turn) => FirstFrameFlagSticks(m, hit, frames, Probe(None, [], _ => []), turn, Spawn(ObjectId(0), Given(0), None, map[], {}), None);
        case Finish(probe) => FirstFrameFlagSticks(m, hit, frames, probe, Left, Spawn(ObjectId(0), Given(0), None, map[], {}), None);
      }
      SnapBranchUnreachableAfterStart(Step(m, op), ops[1..], hit, frames);
    }
  }
}
