/** The imperative builder of labs/worksheet6/scripts/BspTree.js: the loops of
    `subdivide_node`, the `BspTree` constructor and `build_bsp_tree`, proved against the
    functions of BspSplit, BspTree, HeapLayout and Mesh.

    The module-level state of the source (`tree_objects`, `root`, `treeIds`, `bspTree`,
    `bspPlanes`) is the state of a `BspBuilder`. A node the source builds by setting
    fields on a fresh object is returned here as a `Node` value. */
module BspBuilder {
  import opened Options
  import opened Boxes
  import opened BspSplit
  import opened BspTree
  import opened HeapLayout
  import opened Mesh

  /** The counting loop of one candidate: how many objects meet each side's box. */
  method CountBoth(lb: FiniteBox, rb: FiniteBox, objects: seq<AccObj>) returns (lc: nat, rc: nat)
    ensures lc == CountHits(lb, objects) && rc == CountHits(rb, objects)
  {
    lc, rc := 0, 0;
    for j := 0 to |objects|
      invariant lc == CountHits(lb, objects[..j]) && rc == CountHits(rb, objects[..j])
    {
      assert objects[..j + 1][..j] == objects[..j];
      if Intersects(lb, objects[j].bbox) {
        lc := lc + 1;
      }
      if Intersects(rb, objects[j].bbox) {
        rc := rc + 1;
      }
    }
    assert objects[..|objects|] == objects;
  }

  /** The body of the candidate loops for axis `i` and step `k`: the plane, the two
      counts and the cost of candidate `3 * i + k - 1`. */
  method TryCandidate(bbox: FiniteBox, objects: seq<AccObj>, i: Axis, k: nat)
    returns (center: real, l: nat, r: nat, cost: real)
    requires 1 <= k < Tests
    ensures var j := 3 * i + k - 1;
            j < Candidates && CandidateAxis(j) == i && center == CandidatePlane(bbox, j) &&
            l == CountHits(WithMax(bbox, i, center), objects) &&
            r == CountHits(WithMin(bbox, i, center), objects) &&
            cost == CandidateCost(bbox, objects, j)
  {
    CandidateIndex(i, k);
    center := (bbox.max[i] - bbox.min[i]) * (k as real) / (Tests as real) + bbox.min[i];
    assert center == PlaneAt(bbox.min[i], bbox.max[i], k);
    var lbox := WithMax(bbox, i, center);
    var rbox := WithMin(bbox, i, center);
    l, r := CountBoth(lbox, rbox, objects);
    cost := SideCost(l, lbox) + SideCost(r, rbox);
  }

  /** What the candidate loops have settled on so far: `min_cost` and the fields they set
      on the node (`axis_leaf`, `plane`, `left.count`, `right.count`). `found` is false
      while no candidate has been taken yet, where the source still holds 1e27. */
  datatype Choice = Choice(found: bool, minCost: real, axis: Axis, plane: real,
                           leftCount: nat, rightCount: nat)

  /** After the first `n` candidates, the choice is the first one of least cost. */
  ghost predicate ChoseAmong(bbox: FiniteBox, objects: seq<AccObj>, n: nat, c: Choice) {
    n <= Candidates && (c.found <==> n > 0) &&
    (n > 0 ==>
       var b := FirstMin(Costs(bbox, objects, Candidates), n);
       c.minCost == CandidateCost(bbox, objects, b) &&
       c.axis == CandidateAxis(b) && c.plane == CandidatePlane(bbox, b) &&
       c.leftCount == CountHits(WithMax(bbox, c.axis, c.plane), objects) &&
       c.rightCount == CountHits(WithMin(bbox, c.axis, c.plane), objects))
  }

  /** One pass of the inner candidate loop: try candidate `3 * i + k - 1` and take it when
      no candidate was taken yet or its cost is strictly lower. */
  method Consider(bbox: FiniteBox, objects: seq<AccObj>, i: Axis, k: nat, c: Choice)
    returns (next: Choice)
    requires 1 <= k < Tests && ChoseAmong(bbox, objects, 3 * i + k - 1, c)
    ensures ChoseAmong(bbox, objects, 3 * i + k, next)
  {
    var center, l, r, cost := TryCandidate(bbox, objects, i, k);
    ghost var costs := Costs(bbox, objects, Candidates);
    CostsAt(bbox, objects, Candidates, 3 * i + k - 1);
    if c.found {
      CostsAt(bbox, objects, Candidates, FirstMin(costs, 3 * i + k - 1));
    }
    if !c.found || cost < c.minCost {
      next := Choice(true, cost, i, center, l, r);
    } else {
      next := c;
    }
  }

  /** The nested candidate loops of `subdivide_node`: the axis, plane and counts of the
      first candidate of least cost. */
  method BestCandidate(bbox: FiniteBox, objects: seq<AccObj>)
    returns (axis: Axis, plane: real, lc: nat, rc: nat)
    ensures var b := FirstMin(Costs(bbox, objects, Candidates), Candidates);
            axis == CandidateAxis(b) && plane == CandidatePlane(bbox, b) &&
            lc == CountHits(WithMax(bbox, axis, plane), objects) &&
            rc == CountHits(WithMin(bbox, axis, plane), objects)
  {
    var c := Choice(false, 0.0, 0, 0.0, 0, 0);
    for i := 0 to 3
      invariant ChoseAmong(bbox, objects, 3 * i, c)
    {
      c := ConsiderAxis(bbox, objects, i, c);
    }
    axis, plane, lc, rc := c.axis, c.plane, c.leftCount, c.rightCount;
  }

  /** The inner loop over k: the candidates of axis i, in order. */
  method ConsiderAxis(bbox: FiniteBox, objects: seq<AccObj>, i: Axis, c: Choice)
    returns (next: Choice)
    requires ChoseAmong(bbox, objects, 3 * i, c)
    ensures ChoseAmong(bbox, objects, 3 * (i + 1), next)
  {
    next := c;
    for k := 1 to Tests
      invariant ChoseAmong(bbox, objects, 3 * i + k - 1, next)
    {
      next := Consider(bbox, objects, i, k, next);
    }
    assert 3 * i + Tests - 1 == 3 * (i + 1);
  }

  /** The loop that finds the lowest `bbox.min[axis]` of the objects, from `start`. */
  method LowestMin(objects: seq<AccObj>, axis: Axis, start: real) returns (m: real)
    ensures m == MinLow(objects, axis, start)
  {
    m := start;
    for j := 0 to |objects|
      invariant m == MinLow(objects[..j], axis, start)
    {
      assert objects[..j + 1][..j] == objects[..j];
      if objects[j].bbox.min[axis] < m {
        m := objects[j].bbox.min[axis];
      }
    }
    assert objects[..|objects|] == objects;
  }

  /** The loop that finds the highest `bbox.max[axis]` of the objects, from `start`. */
  method HighestMax(objects: seq<AccObj>, axis: Axis, start: real) returns (m: real)
    ensures m == MaxHigh(objects, axis, start)
  {
    m := start;
    for j := 0 to |objects|
      invariant m == MaxHigh(objects[..j], axis, start)
    {
      assert objects[..j + 1][..j] == objects[..j];
      if objects[j].bbox.max[axis] > m {
        m := objects[j].bbox.max[axis];
      }
    }
    assert objects[..|objects|] == objects;
  }

  /** The loop that puts every object into the list of each side whose box it meets. */
  method Partition(lb: FiniteBox, rb: FiniteBox, objects: seq<AccObj>)
    returns (left: seq<AccObj>, right: seq<AccObj>)
    ensures left == Filter(lb, objects) && right == Filter(rb, objects)
  {
    left, right := [], [];
    for j := 0 to |objects|
      invariant left == Filter(lb, objects[..j]) && right == Filter(rb, objects[..j])
    {
      assert objects[..j + 1][..j] == objects[..j];
      if Intersects(lb, objects[j].bbox) {
        left := left + [objects[j]];
      }
      if Intersects(rb, objects[j].bbox) {
        right := right + [objects[j]];
      }
    }
    assert objects[..|objects|] == objects;
  }

  /** The split part of `subdivide_node`: the best candidate, the correction of an empty
      side, and the partition into the child lists. */
  method ChooseSplit(bbox: FiniteBox, objects: seq<AccObj>) returns (s: Split)
    ensures s == ChosenSplit(bbox, objects)
  {
    var axis, plane, lc, rc := BestCandidate(bbox, objects);
    var size := bbox.max[axis] - bbox.min[axis];
    var diff := if FEps < size / 8.0 then size / 8.0 else FEps;
    var center := plane;
    if lc == 0 {
      center := LowestMin(objects, axis, bbox.max[axis]);
      center := center - diff;
    }
    if rc == 0 {
      center := HighestMax(objects, axis, bbox.min[axis]);
      center := center + diff;
    }
    assert diff == Margin(bbox, axis);
    assert center == CorrectedPlane(bbox, objects, axis, plane, lc, rc);
    var lb := WithMax(bbox, axis, center);
    var rb := WithMin(bbox, axis, center);
    var left, right := Partition(lb, rb, objects);
    s := Split(axis, center, lc, rc, lb, rb, left, right);
  }

  /** The face loop of `build_bsp_tree`. */
  method MakeObjects(indices: seq<nat>, vertices: seq<real>) returns (objects: seq<AccObj>)
    ensures objects == MeshObjects(indices, vertices)
  {
    objects := [];
    var i := 0;
    FaceCountIsLoopBound(|indices|, 0);
    while (i as real) < (|indices| as real) / 4.0
      invariant i <= FaceCount(|indices|)
      invariant |objects| == i
      invariant forall j :: 0 <= j < i ==> objects[j] == FaceObject(indices, vertices, j)
      decreases FaceCount(|indices|) - i
    {
      FaceCountIsLoopBound(|indices|, i);
      var v0 := Corner(indices, vertices, 4 * i);
      var v1 := Corner(indices, vertices, 4 * i + 1);
      var v2 := Corner(indices, vertices, 4 * i + 2);
      var obj := AccObj(i, TriangleBox(v0, v1, v2));
      assert obj == FaceObject(indices, vertices, i);
      objects := objects + [obj];
      i := i + 1;
    }
    FaceCountIsLoopBound(|indices|, i);
  }

  /** The module state of the source. */
  class BspBuilder {
    /** `tree_objects`: the leaves' objects, leaf after leaf. It is never cleared, so a
        second build appends after the first. */
    var treeObjects: seq<AccObj>
    /** `root`, `null` before the first build. */
    var root: Option<Node>
    /** `root.bbox`. */
    var rootBox: Aabb
    var treeIds: array<nat>
    var bspTree: array<nat>
    var bspPlanes: array<real>

    /** The state before any build. */
    constructor()
      ensures treeObjects == [] && root == None && rootBox == Empty
      ensures treeIds.Length == 0 && bspTree.Length == 0 && bspPlanes.Length == 0
    {
      treeObjects := [];
      root := None;
      rootBox := Empty;
      treeIds := new nat[0];
      bspTree := new nat[0];
      bspPlanes := new real[0];
    }

    /** The arrays have one slot per node position down to level MaxLevel. */
    predicate ArraysReady()
      reads this
    {
      bspTree.Length == 4 * NodeSlots && bspPlanes.Length == NodeSlots
    }

    /** The five values held in slot `t`. */
    function EntryAt(t: nat): Entry
      reads this, bspTree, bspPlanes
      requires ArraysReady() && t < NodeSlots
    {
      Entry(bspTree[4 * t], bspTree[4 * t + 1], bspTree[4 * t + 2], bspTree[4 * t + 3], bspPlanes[t])
    }

    /** The leaf case of `subdivide_node`: the leaf's id is the current length of
        `tree_objects`, and its objects are pushed after it, in order. */
    method PushLeaf(objects: seq<AccObj>) returns (id: nat)
      modifies this`treeObjects
      ensures id == |old(treeObjects)| && treeObjects == old(treeObjects) + objects
    {
      id := |treeObjects|;
      for i := 0 to |objects|
        invariant treeObjects == old(treeObjects) + objects[..i]
      {
        treeObjects := treeObjects + [objects[i]];
      }
      assert objects[..|objects|] == objects;
    }

    /** `subdivide_node(node, bbox, level, objects)` where `node.count` is `count` on
        entry: appends the leaves' objects to `tree_objects` and builds the node. */
    method Subdivide(count: nat, bbox: Aabb, level: nat, objects: seq<AccObj>) returns (node: Node)
      requires Buildable(bbox, level, objects)
      modifies this`treeObjects
      ensures treeObjects == old(treeObjects) + Emitted(CallTree(ChosenSplit, bbox, level, objects))
      ensures node == TreeOf(CallTree(ChosenSplit, bbox, level, objects), count, |old(treeObjects)|)
      decreases MaxLevel - level, 1
    {
      if |objects| <= MaxObjects || level == MaxLevel {
        ghost var t0 := treeObjects;
        var id := PushLeaf(objects);
        LeafStep(ChosenSplit, bbox, level, objects, count, t0, treeObjects);
        node := Leaf(id, |objects|);
      } else {
        node := SplitNode(count, bbox, level, objects);
      }
    }

    /** The inner-node case of `subdivide_node`: choose the split, then subdivide the
        left child and the right child, in that order. */
    method SplitNode(count: nat, bbox: Aabb, level: nat, objects: seq<AccObj>) returns (node: Node)
      requires Buildable(bbox, level, objects) && !IsLeafCase(objects, level)
      modifies this`treeObjects
      ensures treeObjects == old(treeObjects) + Emitted(CallTree(ChosenSplit, bbox, level, objects))
      ensures node == TreeOf(CallTree(ChosenSplit, bbox, level, objects), count, |old(treeObjects)|)
      decreases MaxLevel - level, 0
    {
      var s := ChooseSplit(bbox, objects);
      ChildrenBuildable(bbox, level, objects, s);
      ghost var t0 := treeObjects;
      var left := Subdivide(s.leftCount, s.leftBox, level + 1, s.leftObjects);
      ghost var t1 := treeObjects;
      var right := Subdivide(s.rightCount, s.rightBox, level + 1, s.rightObjects);
      ChosenSplitStep(bbox, level, objects, s, count, t0, t1, treeObjects, left, right);
      node := Internal(s.axis, s.plane, count, left, right);
    }

    /** The `BspTree` constructor: the union box of the objects, then the subdivision of
        the root, whose count is the number of objects. */
    method BuildTree(objects: seq<AccObj>)
      modifies this`treeObjects, this`root, this`rootBox
      ensures rootBox == RootBox(objects)
      ensures treeObjects == old(treeObjects) + Emitted(RootCalls(objects))
      ensures root == Some(TreeOf(RootCalls(objects), |objects|, |old(treeObjects)|))
    {
      var box := Empty;
      for i := 0 to |objects|
        invariant box == RootBox(objects[..i])
      {
        assert objects[..i + 1][..i] == objects[..i];
        box := Include(box, objects[i].bbox);
      }
      assert objects[..|objects|] == objects;
      rootBox := box;
      var node := Subdivide(|objects|, box, 0, objects);
      root := Some(node);
    }

    /** The `treeIds` loop: the triangle index of every entry of `tree_objects`. */
    method FillTreeIds()
      modifies this`treeIds
      ensures fresh(treeIds) && treeIds.Length == |treeObjects|
      ensures forall i :: 0 <= i < |treeObjects| ==> treeIds[i] == treeObjects[i].primIdx
    {
      var ids := new nat[|treeObjects|];
      for i := 0 to |treeObjects|
        invariant forall j :: 0 <= j < i ==> ids[j] == treeObjects[j].primIdx
      {
        ids[i] := treeObjects[i].primIdx;
      }
      treeIds := ids;
    }

    /** The writes `build_bsp_array` makes for one node: its packed word, id, child slots
        and plane, in slot `Idx(level, branch)`. */
    method WriteEntry(n: Node, level: nat, branch: nat)
      requires ArraysReady() && level <= MaxLevel && branch < Pow2(level)
      modifies bspTree, bspPlanes
      ensures forall t :: 0 <= t < NodeSlots ==>
                EntryAt(t) == if t == Idx(level, branch) then EntryOf(Slot(n, level, branch)) else old(EntryAt(t))
    {
      var idx := Pow2(level) - 1 + branch;
      IdxInArrays(level, branch);
      bspTree[idx * 4] := Pack(AxisLeaf(n), n.count);
      bspTree[idx * 4 + 1] := IdOf(n);
      bspTree[idx * 4 + 2] := Pow2(level + 1) - 1 + 2 * branch;
      bspTree[idx * 4 + 3] := Pow2(level + 1) + 2 * branch;
      bspPlanes[idx] := PlaneOf(n);
      assert EntryAt(idx) == EntryOf(Slot(n, level, branch));
      forall t | 0 <= t < NodeSlots && t != idx
        ensures EntryAt(t) == old(EntryAt(t))
      {
        assert 4 * t + 3 < 4 * idx || 4 * idx + 3 < 4 * t;
        assert bspTree[4 * t] == old(bspTree[4 * t]) && bspTree[4 * t + 1] == old(bspTree[4 * t + 1]);
        assert bspTree[4 * t + 2] == old(bspTree[4 * t + 2]) && bspTree[4 * t + 3] == old(bspTree[4 * t + 3]);
      }
    }

    /** `build_bsp_array(n, level, branch)`: writes the entry of every node of `n`'s
        subtree down to level MaxLevel into its slot, and leaves every other slot alone. */
    method BuildBspArray(n: Node, level: nat, branch: nat)
      requires ArraysReady() && branch < Pow2(level)
      modifies bspTree, bspPlanes
      ensures forall t :: 0 <= t < NodeSlots ==>
                EntryAt(t) == Placed(NodeAt(n, level, branch, t), old(EntryAt(t)))
      decreases n
    {
      if level <= MaxLevel {
        WriteEntry(n, level, branch);
        label Written:
        if n.Internal? {
          BuildBspArray(n.left, level + 1, 2 * branch);
          label LeftDone:
          BuildBspArray(n.right, level + 1, 2 * branch + 1);
          forall t | 0 <= t < NodeSlots
            ensures EntryAt(t) == Placed(NodeAt(n, level, branch, t), old(EntryAt(t)))
          {
            PlacedStep(n, level, branch, t, old(EntryAt(t)), old@Written(EntryAt(t)),
                       old@LeftDone(EntryAt(t)), EntryAt(t));
          }
        }
      }
    }

    /** The fresh, zero-filled `bspTree` and `bspPlanes` of `build_bsp_tree`, with one
        slot per node position down to level MaxLevel. */
    method AllocArrays()
      modifies this`bspTree, this`bspPlanes
      ensures fresh(bspTree) && fresh(bspPlanes) && ArraysReady()
      ensures forall t :: 0 <= t < NodeSlots ==> EntryAt(t) == Blank
    {
      bspPlanes := new real[NodeSlots](_ => 0.0);
      bspTree := new nat[4 * NodeSlots](_ => 0);
    }

    /** The array part of `build_bsp_tree`: fresh zeroed arrays, then `build_bsp_array`
        from the root at level 0, branch 0. */
    method FillArrays()
      requires root.Some?
      modifies this`bspTree, this`bspPlanes
      ensures fresh(bspTree) && fresh(bspPlanes) && ArraysReady()
      ensures forall t :: 0 <= t < NodeSlots ==> EntryAt(t) == Placed(NodeAt(root.value, 0, 0, t), Blank)
    {
      AllocArrays();
      BuildBspArray(root.value, 0, 0);
    }

    /** `build_bsp_tree` without the GPU upload: the mesh's objects, the tree, `treeIds`,
        and the flat arrays, fresh and zeroed, then filled from the root. */
    method BuildBspTree(indices: seq<nat>, vertices: seq<real>)
      modifies this
      ensures var objects := MeshObjects(indices, vertices);
              rootBox == RootBox(objects) &&
              treeObjects == old(treeObjects) + Emitted(RootCalls(objects)) &&
              root == Some(TreeOf(RootCalls(objects), |objects|, |old(treeObjects)|))
      ensures fresh(treeIds) && treeIds.Length == |treeObjects|
      ensures forall i :: 0 <= i < |treeObjects| ==> treeIds[i] == treeObjects[i].primIdx
      ensures fresh(bspTree) && fresh(bspPlanes) && ArraysReady()
      ensures forall t :: 0 <= t < NodeSlots ==> EntryAt(t) == Placed(NodeAt(root.value, 0, 0, t), Blank)
    {
      var objects := MakeObjects(indices, vertices);
      BuildTree(objects);
      FillTreeIds();
      FillArrays();
    }
  }

  /** The face indices of a slice are the slice of the face indices. */
  lemma PrimIdsSlice(all: seq<AccObj>, lo: nat, hi: nat)
    requires lo <= hi <= |all|
    ensures PrimIds(all)[lo .. hi] == PrimIds(all[lo .. hi])
  {
  }

  /** `LeafSlotRange`, read through the face indices of `tree_objects`. */
  lemma LeafEntryIds(objects: seq<AccObj>, prefix: seq<AccObj>, t: nat, ids: seq<nat>, e: Entry)
    requires ids == PrimIds(prefix + Emitted(RootCalls(objects)))
    requires var n := TreeOf(RootCalls(objects), |objects|, |prefix|);
             NodeAt(n, 0, 0, t).Some? && NodeAt(n, 0, 0, t).value.node.Leaf? &&
             e == EntryOf(NodeAt(n, 0, 0, t).value)
    ensures e.word % 4 == LeafTag && e.id + e.word / 4 <= |ids| &&
            exists i :: 0 <= i < |LeafLists(RootCalls(objects))| &&
              ids[e.id .. e.id + e.word / 4] == PrimIds(LeafLists(RootCalls(objects))[i])
  {
    var c := RootCalls(objects);
    var all := prefix + Emitted(c);
    LeafSlotRange(objects, prefix, t);
    var lo, hi := e.id, e.id + e.word / 4;
    var i :| 0 <= i < |LeafLists(c)| && all[lo .. hi] == LeafLists(c)[i];
    PrimIdsSlice(all, lo, hi);
  }

  /** Reading the arrays a build leaves behind: in the slot of any leaf, word 0 carries
      the leaf tag, and words 1 and 0 / 4 give a range of `treeIds` that holds exactly the
      face indices of one leaf's object list. */
  lemma LeafSlotIds(b: BspBuilder, objects: seq<AccObj>, prefix: seq<AccObj>, t: nat)
    requires b.ArraysReady() && t < NodeSlots
    requires b.treeObjects == prefix + Emitted(RootCalls(objects))
    requires b.root == Some(TreeOf(RootCalls(objects), |objects|, |prefix|))
    requires b.treeIds.Length == |b.treeObjects|
    requires forall i :: 0 <= i < |b.treeObjects| ==> b.treeIds[i] == b.treeObjects[i].primIdx
    requires forall u :: 0 <= u < NodeSlots ==> b.EntryAt(u) == Placed(NodeAt(b.root.value, 0, 0, u), Blank)
    requires NodeAt(b.root.value, 0, 0, t).Some? && NodeAt(b.root.value, 0, 0, t).value.node.Leaf?
    ensures var e := b.EntryAt(t);
            e.word % 4 == LeafTag && e.id + e.word / 4 <= b.treeIds.Length &&
            exists i :: 0 <= i < |LeafLists(RootCalls(objects))| &&
              b.treeIds[e.id .. e.id + e.word / 4] == PrimIds(LeafLists(RootCalls(objects))[i])
  {
    TreeIdsArePrimIds(b.treeIds, b.treeObjects);
    LeafEntryIds(objects, prefix, t, b.treeIds[..], b.EntryAt(t));
  }

  /** An array holding each entry's face index holds `PrimIds` of the entries. */
  lemma TreeIdsArePrimIds(ids: array<nat>, all: seq<AccObj>)
    requires ids.Length == |all|
    requires forall i :: 0 <= i < |all| ==> ids[i] == all[i].primIdx
    ensures ids[..] == PrimIds(all)
  {
  }
}
