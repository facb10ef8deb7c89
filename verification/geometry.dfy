/** Vectors, axis-aligned bounds and rotations as the placement code uses them. Coordinates
    are exact reals; rotations other than a pure yaw are kept as symbolic terms, because
    only the order in which they are composed matters to the scripts. */
module Geometry {

  datatype Vec3 = Vec3(x: real, y: real, z: real)

  const Zero := Vec3(0.0, 0.0, 0.0)

  /** `Vector3.forward`. */
  const Forward := Vec3(0.0, 0.0, 1.0)

  function Add(a: Vec3, b: Vec3): Vec3 {
    Vec3(a.x + b.x, a.y + b.y, a.z + b.z)
  }

  function Sub(a: Vec3, b: Vec3): Vec3 {
    Vec3(a.x - b.x, a.y - b.y, a.z - b.z)
  }

  function Neg(a: Vec3): Vec3 {
    Vec3(-a.x, -a.y, -a.z)
  }

  function Scale(a: Vec3, k: real): Vec3 {
    Vec3(a.x * k, a.y * k, a.z * k)
  }

  function Dot(a: Vec3, b: Vec3): real {
    a.x * b.x + a.y * b.y + a.z * b.z
  }

  /** The square of `Vector3.Distance(a, b)`; comparing squares avoids the square root. */
  function DistSq(a: Vec3, b: Vec3): (d: real)
    ensures d >= 0.0
    ensures a == b ==> d == 0.0
  {
    var v := Sub(a, b);
    assert v.x * v.x >= 0.0 && v.y * v.y >= 0.0 && v.z * v.z >= 0.0;
    Dot(v, v)
  }

  /** The bound a squared distance is held to when the distance itself must stay strictly
      below `limit`. A non-positive limit admits nothing, since no distance is negative. */
  function SqLimit(limit: real): real {
    if limit > 0.0 then limit * limit else 0.0
  }

  /** Squaring keeps the strict order of non-negative reals. */
  lemma SquareMonotone(a: real, b: real)
    requires 0.0 <= a < b
    ensures a * a < b * b
  {
    var low := a * a;
    var mid := a * b;
    var high := b * b;
    assert low <= mid;
    assert mid < high;
  }

  /** For any distance `d` (non-negative, with square `d * d`), `d < limit` exactly when
      its square is below `SqLimit(limit)`: the squared comparison decides the same. */
  lemma SquaredComparison(d: real, limit: real)
    requires d >= 0.0
    ensures d < limit <==> d * d < SqLimit(limit)
  {
    if limit > 0.0 {
      if d < limit {
        SquareMonotone(d, limit);
      } else if limit < d {
        SquareMonotone(limit, d);
      }
    }
  }

  /** Unity's `Bounds`: a centre and half-size per axis. */
  datatype Bounds = Bounds(center: Vec3, extents: Vec3) {
    function Min(): Vec3 { Sub(center, extents) }
    function Max(): Vec3 { Add(center, extents) }
  }

  /** `bounds.extents *= k`: the centre stays where it is. */
  function ScaleExtents(b: Bounds, k: real): (r: Bounds)
    ensures r.center == b.center
    ensures r.extents == Scale(b.extents, k)
  {
    Bounds(b.center, Scale(b.extents, k))
  }

  /** `Bounds.Intersects`: the boxes overlap or touch on every axis (closed intervals). */
  predicate Intersects(a: Bounds, b: Bounds) {
    && a.Min().x <= b.Max().x && a.Max().x >= b.Min().x
    && a.Min().y <= b.Max().y && a.Max().y >= b.Min().y
    && a.Min().z <= b.Max().z && a.Max().z >= b.Min().z
  }

  /** The extents are non-negative on every axis, as Unity's bounds of a collider are. */
  predicate Proper(b: Bounds) {
    b.extents.x >= 0.0 && b.extents.y >= 0.0 && b.extents.z >= 0.0
  }

  /** `inner` lies inside `outer` on every axis. */
  predicate Within(inner: Bounds, outer: Bounds) {
    && outer.Min().x <= inner.Min().x && inner.Max().x <= outer.Max().x
    && outer.Min().y <= inner.Min().y && inner.Max().y <= outer.Max().y
    && outer.Min().z <= inner.Min().z && inner.Max().z <= outer.Max().z
  }

  /** On one axis: a half-size `s == e * k` scaled by a factor `k` in `[0, 1]` stays
      non-negative, and the interval around `c` it spans lies inside the one `e` spans. */
  lemma AxisWithin(c: real, e: real, k: real, s: real)
    requires e >= 0.0 && 0.0 <= k <= 1.0 && s == e * k
    ensures s >= 0.0 && c - e <= c - s && c + s <= c + e
  {
    assert e - s == e * (1.0 - k);
  }

  /** Scaling a proper box's extents by a factor in `[0, 1]` gives a proper box inside it
      with the same centre. */
  lemma ShrunkBoxWithin(b: Bounds, k: real)
    requires Proper(b) && 0.0 <= k <= 1.0
    ensures Proper(ScaleExtents(b, k)) && Within(ScaleExtents(b, k), b)
  {
    var e := ScaleExtents(b, k).extents;
    AxisWithin(b.center.x, b.extents.x, k, e.x);
    AxisWithin(b.center.y, b.extents.y, k, e.y);
    AxisWithin(b.center.z, b.extents.z, k, e.z);
  }

  /** A box touches everything a box inside it touches. */
  lemma WithinIntersects(inner: Bounds, outer: Bounds, c: Bounds)
    requires Within(inner, outer)
    ensures Intersects(inner, c) ==> Intersects(outer, c)
  {
  }

  /** Shrinking the query box never adds a contact: whatever the shrunk box touches, the
      full box touches too. */
  lemma ShrunkBoxTouchesLess(b: Bounds, k: real, c: Bounds)
    requires Proper(b) && 0.0 <= k <= 1.0
    ensures Intersects(ScaleExtents(b, k), c) ==> Intersects(b, c)
  {
    ShrunkBoxWithin(b, k);
    WithinIntersects(ScaleExtents(b, k), b, c);
  }

  /** Intersection does not depend on which box is asked. */
  lemma IntersectsSymmetric(a: Bounds, b: Bounds)
    ensures Intersects(a, b) <==> Intersects(b, a)
  {
  }

  /** A rotation, kept symbolic. `Given` is a rotation the engine supplied (a prefab's);
      `Aligned(from, to, r)` is `Quaternion.FromToRotation(from, to) * r`;
      `LocalYaw(deg, r)` is `r` followed by `Transform.Rotate(Vector3.up, deg)` in local space. */
  datatype Rotation =
    | Given(tag: nat)
    | Aligned(from: Vec3, to: Vec3, base: Rotation)
    | LocalYaw(degrees: real, base: Rotation)

  /** Where a point fixed to an object at `objectPos` ends up when the object moves to
      `newPos` without rotating. */
  function Carry(point: Vec3, objectPos: Vec3, newPos: Vec3): Vec3 {
    Add(newPos, Sub(point, objectPos))
  }
}
