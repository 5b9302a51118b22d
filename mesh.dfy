/** The triangles `build_bsp_tree` (labs/worksheet6/scripts/BspTree.js) makes from a mesh.
    `indices` holds four entries per face, the first three being vertex numbers; `vertices`
    holds four entries per vertex (x, y, z, w). The loop runs while `i < indices.length / 4`,
    so a trailing partial face is made too. A read past the end of either typed array gives
    `undefined`; the `vec3` taken here (that of worksheet 8, since `BspTree.js` does not
    define its own) then fills the missing coordinates in. An undefined vertex number
    makes all three coordinate reads undefined, because `undefined * 4` is NaN. */
module Mesh {
  import opened Options
  import opened Vectors
  import opened Boxes
  import opened BspSplit
  import opened BspTree

  /** `indices[k]`, or `undefined` past the end. */
  function IndexAt(indices: seq<nat>, k: nat): Option<nat> {
    if k < |indices| then Some(indices[k]) else None
  }

  /** `vertices[k]`, or `undefined` past the end. */
  function VertexAt(vertices: seq<real>, k: nat): Option<real> {
    if k < |vertices| then Some(vertices[k]) else None
  }

  /** The corner named by `indices[k]`: `vec3` of the vertex's x, y and z entries. */
  function Corner(indices: seq<nat>, vertices: seq<real>, k: nat): Point {
    match IndexAt(indices, k)
    case None => Vec3(None, None, None)
    case Some(v) => Vec3(VertexAt(vertices, 4 * v), VertexAt(vertices, 4 * v + 1), VertexAt(vertices, 4 * v + 2))
  }

  /** Face i as an `AccObj`: its index and the box of its three corners. */
  function FaceObject(indices: seq<nat>, vertices: seq<real>, i: nat): AccObj {
    AccObj(i, TriangleBox(Corner(indices, vertices, 4 * i), Corner(indices, vertices, 4 * i + 1),
                          Corner(indices, vertices, 4 * i + 2)))
  }

  /** How many faces the loop makes: the rounded-up quarter of the index count. */
  function FaceCount(len: nat): (n: nat)
    ensures len <= 4 * n < len + 4
  {
    (len + 3) / 4
  }

  /** The loop test `i < indices.length / 4` (a division of numbers, not integers) holds
      for exactly the first FaceCount faces. */
  lemma FaceCountIsLoopBound(len: nat, i: nat)
    ensures (i as real) < (len as real) / 4.0 <==> i < FaceCount(len)
  {
    assert (i as real) < (len as real) / 4.0 <==> 4 * i < len;
  }

  /** The objects of the mesh, in face order. */
  function MeshObjects(indices: seq<nat>, vertices: seq<real>): (r: seq<AccObj>)
    ensures |r| == FaceCount(|indices|)
  {
    seq(FaceCount(|indices|), i requires 0 <= i => FaceObject(indices, vertices, i))
  }

  /** One object per face, numbered in order, each with a proper box that holds its
      three corners. */
  lemma MeshObjectsShape(indices: seq<nat>, vertices: seq<real>)
    ensures var objects := MeshObjects(indices, vertices);
            |objects| == FaceCount(|indices|) && AllProper(objects) &&
            forall i :: 0 <= i < |objects| ==>
              objects[i].primIdx == i &&
              Holds(objects[i].bbox, Corner(indices, vertices, 4 * i)) &&
              Holds(objects[i].bbox, Corner(indices, vertices, 4 * i + 1)) &&
              Holds(objects[i].bbox, Corner(indices, vertices, 4 * i + 2))
  {
    var objects := MeshObjects(indices, vertices);
    forall i | 0 <= i < |objects|
      ensures Proper(objects[i].bbox)
      ensures Holds(objects[i].bbox, Corner(indices, vertices, 4 * i))
      ensures Holds(objects[i].bbox, Corner(indices, vertices, 4 * i + 1))
      ensures Holds(objects[i].bbox, Corner(indices, vertices, 4 * i + 2))
    {
      TriangleBoxTight(Corner(indices, vertices, 4 * i), Corner(indices, vertices, 4 * i + 1),
                       Corner(indices, vertices, 4 * i + 2));
    }
  }

  /** A corner whose vertex lies inside the vertex array is that vertex's x, y and z. */
  lemma CornerInRange(indices: seq<nat>, vertices: seq<real>, k: nat)
    requires k < |indices| && 4 * indices[k] + 2 < |vertices|
    ensures Corner(indices, vertices, k) == vertices[4 * indices[k] .. 4 * indices[k] + 3]
  {
  }

  /** A corner past the end of the index array is the origin. */
  lemma CornerPastEnd(indices: seq<nat>, vertices: seq<real>, k: nat)
    requires |indices| <= k
    ensures Corner(indices, vertices, k) == [0.0, 0.0, 0.0]
  {
  }

  /** A vertex with only its x entry present sits on the diagonal through it. */
  lemma CornerOnlyX(indices: seq<nat>, vertices: seq<real>, k: nat)
    requires k < |indices| && 4 * indices[k] + 1 == |vertices|
    ensures var x := vertices[4 * indices[k]]; Corner(indices, vertices, k) == [x, x, x]
  {
  }

  /** A list without repeats has as many distinct elements as entries. */
  lemma {:induction false} DistinctElements(s: seq<AccObj>)
    requires forall i, j :: 0 <= i < j < |s| ==> s[i] != s[j]
    ensures |set o | o in s| == |s|
    decreases |s|
  {
    if |s| > 0 {
      var n := |s| - 1;
      DistinctElements(s[..n]);
      assert (set o | o in s) == (set o | o in s[..n]) + {s[n]};
      assert s[n] !in (set o | o in s[..n]);
    }
  }

  /** A list has at most as many distinct elements as entries. */
  lemma {:induction false} ElementsBound(s: seq<AccObj>)
    ensures |set o | o in s| <= |s|
    decreases |s|
  {
    if |s| > 0 {
      var n := |s| - 1;
      ElementsBound(s[..n]);
      assert (set o | o in s) == (set o | o in s[..n]) + {s[n]};
    }
  }

  lemma SubsetSize(a: set<AccObj>, b: set<AccObj>)
    requires a <= b
    ensures |a| <= |b|
  {
    assert b == a + (b - a);
  }

  /** The face index of every entry, in order: what the `treeIds` array holds. */
  function PrimIds(e: seq<AccObj>): (ids: seq<nat>)
    ensures |ids| == |e| && forall k :: 0 <= k < |e| ==> ids[k] == e[k].primIdx
  {
    seq(|e|, k requires 0 <= k < |e| => e[k].primIdx)
  }

  /** A list holding every entry of a list without repeats is at least as long. */
  lemma KeptCount(objects: seq<AccObj>, e: seq<AccObj>)
    requires forall i, j :: 0 <= i < j < |objects| ==> objects[i] != objects[j]
    requires forall o :: o in objects ==> o in e
    ensures |e| >= |objects|
  {
    DistinctElements(objects);
    SubsetSize(set o | o in objects, set o | o in e);
    ElementsBound(e);
  }

  /** Building the tree from a mesh keeps every face: `tree_objects` has at least one
      entry per face, and every face index appears among its entries. */
  lemma MeshFacesKept(indices: seq<nat>, vertices: seq<real>)
    ensures var objects := MeshObjects(indices, vertices);
            var e := Emitted(RootCalls(objects));
            |e| >= |objects| && forall i :: 0 <= i < |objects| ==> i in PrimIds(e)
  {
    var objects := MeshObjects(indices, vertices);
    var e := Emitted(RootCalls(objects));
    MeshObjectsShape(indices, vertices);
    RootKeepsObjects(objects);
    forall i, j | 0 <= i < j < |objects| ensures objects[i] != objects[j] {
      assert objects[i].primIdx != objects[j].primIdx;
    }
    KeptCount(objects, e);
    forall i | 0 <= i < |objects| ensures i in PrimIds(e) {
      assert objects[i] in e;
      var k :| 0 <= k < |e| && e[k] == objects[i];
      assert PrimIds(e)[k] == i;
    }
  }
}
