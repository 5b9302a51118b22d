/** Axis-aligned bounding boxes, as the BSP builder of labs/worksheet6/scripts/BspTree.js
    uses them. The `Aabb` class itself is not part of this model; only the behaviour the
    builder relies on is defined here: per-axis `min`/`max` corners, `include` as the
    componentwise union, `intersects` as closed-interval overlap on all three axes, the
    surface `area`, the triangle constructor and the copy constructor (a copy of a value
    is the value itself). */
module Boxes {

  /** A 3-component coordinate, indexed by axis 0 (x), 1 (y), 2 (z). */
  type Point = p: seq<real> | |p| == 3 witness [0.0, 0.0, 0.0]

  /** An axis number. */
  type Axis = i: nat | i < 3

  /** `Empty` is `new Aabb()`: a box whose corners still hold the +infinity / -infinity
      sentinels, so that it intersects nothing and the first `include` replaces it. */
  datatype Aabb = Empty | Box(min: Point, max: Point)

  /** A box with real corners. */
  type FiniteBox = b: Aabb | b.Box? witness Box([0.0, 0.0, 0.0], [0.0, 0.0, 0.0])

  function Min(a: real, b: real): real { if a < b then a else b }
  function Max(a: real, b: real): real { if a < b then b else a }

  /** Corners in the right order on every axis. */
  predicate Proper(b: FiniteBox) {
    forall i :: 0 <= i < 3 ==> b.min[i] <= b.max[i]
  }

  /** `inner` lies inside `outer` on every axis. */
  predicate Contains(outer: FiniteBox, inner: FiniteBox) {
    forall i :: 0 <= i < 3 ==> outer.min[i] <= inner.min[i] && inner.max[i] <= outer.max[i]
  }

  /** The point `v` lies inside `b`. */
  predicate Holds(b: FiniteBox, v: Point) {
    forall i :: 0 <= i < 3 ==> b.min[i] <= v[i] <= b.max[i]
  }

  /** `new Aabb(v0, v1, v2)`: the box spanned by a triangle's corners. */
  function TriangleBox(v0: Point, v1: Point, v2: Point): FiniteBox {
    Box([Min(Min(v0[0], v1[0]), v2[0]), Min(Min(v0[1], v1[1]), v2[1]), Min(Min(v0[2], v1[2]), v2[2])],
        [Max(Max(v0[0], v1[0]), v2[0]), Max(Max(v0[1], v1[1]), v2[1]), Max(Max(v0[2], v1[2]), v2[2])])
  }

  /** `a.include(b)`: the componentwise min of the low corners and max of the high ones. */
  function Include(a: Aabb, b: FiniteBox): FiniteBox {
    match a
    case Empty => b
    case Box(lo, hi) =>
      Box([Min(lo[0], b.min[0]), Min(lo[1], b.min[1]), Min(lo[2], b.min[2])],
          [Max(hi[0], b.max[0]), Max(hi[1], b.max[1]), Max(hi[2], b.max[2])])
  }

  /** `a.intersects(b)`: the closed intervals overlap on all three axes (touching counts). */
  predicate Intersects(a: FiniteBox, b: FiniteBox) {
    forall i :: 0 <= i < 3 ==> a.min[i] <= b.max[i] && b.min[i] <= a.max[i]
  }

  /** `b.area()`: the surface area 2(dx dy + dy dz + dz dx). */
  function Area(b: FiniteBox): real {
    var dx := b.max[0] - b.min[0];
    var dy := b.max[1] - b.min[1];
    var dz := b.max[2] - b.min[2];
    2.0 * (dx * dy + dy * dz + dz * dx)
  }

  /** A copy of `b` whose high corner on `axis` is moved to `c` (`left_bbox.max[i] = c`). */
  function WithMax(b: FiniteBox, axis: Axis, c: real): (r: FiniteBox)
    ensures r.min == b.min && r.max[axis] == c
    ensures forall i :: 0 <= i < 3 && i != axis ==> r.max[i] == b.max[i]
  {
    Box(b.min, b.max[axis := c])
  }

  /** A copy of `b` whose low corner on `axis` is moved to `c` (`right_bbox.min[i] = c`). */
  function WithMin(b: FiniteBox, axis: Axis, c: real): (r: FiniteBox)
    ensures r.max == b.max && r.min[axis] == c
    ensures forall i :: 0 <= i < 3 && i != axis ==> r.min[i] == b.min[i]
  {
    Box(b.min[axis := c], b.max)
  }

  /** A triangle's box holds its three corners, is proper, and is the smallest such box:
      every bound is attained by one of the corners. */
  lemma TriangleBoxTight(v0: Point, v1: Point, v2: Point)
    ensures Proper(TriangleBox(v0, v1, v2))
    ensures Holds(TriangleBox(v0, v1, v2), v0) && Holds(TriangleBox(v0, v1, v2), v1)
            && Holds(TriangleBox(v0, v1, v2), v2)
    ensures forall i :: 0 <= i < 3 ==>
              var b := TriangleBox(v0, v1, v2);
              (b.min[i] == v0[i] || b.min[i] == v1[i] || b.min[i] == v2[i]) &&
              (b.max[i] == v0[i] || b.max[i] == v1[i] || b.max[i] == v2[i])
  {
  }

  /** `include` grows the box to cover both arguments and no more: every box that covers
      `a` and `b` covers the result. */
  lemma IncludeIsUnion(a: Aabb, b: FiniteBox, c: FiniteBox)
    ensures Contains(Include(a, b), b)
    ensures a.Box? ==> Contains(Include(a, b), a)
    ensures Contains(c, b) && (a.Box? ==> Contains(c, a)) ==> Contains(c, Include(a, b))
    ensures Proper(b) && (a.Box? ==> Proper(a)) ==> Proper(Include(a, b))
  {
  }

  /** Including the same box twice changes nothing the second time. */
  lemma IncludeIdempotent(a: Aabb, b: FiniteBox)
    ensures Include(Include(a, b), b) == Include(a, b)
  {
    var r := Include(Include(a, b), b);
    assert r.min == Include(a, b).min;
    assert r.max == Include(a, b).max;
  }

  /** Two boxes that contain each other are the same box. */
  lemma ContainsAntisymmetric(a: FiniteBox, b: FiniteBox)
    requires Contains(a, b) && Contains(b, a)
    ensures a == b
  {
    assert a.min == b.min;
    assert a.max == b.max;
  }

  /** A proper box inside `outer` intersects it. */
  lemma ContainedIntersects(outer: FiniteBox, inner: FiniteBox)
    requires Contains(outer, inner) && Proper(inner)
    ensures Intersects(outer, inner)
  {
  }
}
