/** The tree that `subdivide_node` (labs/worksheet6/scripts/BspTree.js) builds, stated
    as pure functions.

    `CallTree` is the tree of recursive `subdivide_node` calls: which objects each call
    receives and how an inner call splits them. The other functions read a call tree:

    - `TreeOf` gives the node records the calls leave behind;
    - `Emitted` gives what the calls append to `tree_objects`;
    - `LeafLists` gives each leaf's object list.

    `RootBox` is the root's box, built by the `BspTree` constructor.

    The lemmas cover four things: the leaf rule and the depth bound; the leaf ranges in
    `tree_objects`; that no object is lost or invented; and that the root box is the union
    of the object boxes. */
module BspTree {
  import opened Boxes
  import opened BspSplit

  /** `BspNodeType.bsp_leaf`, the `axis_leaf` value of a leaf (axes are 0, 1, 2). */
  const LeafTag: nat := 3

  /** A node as `subdivide_node` leaves it. A leaf has its offset `id` into `tree_objects`
      and its object count. An inner node has its axis and plane and the provisional count
      its parent chose it with; its `id` is always 0, so it is not stored here. */
  datatype Node =
    | Leaf(id: nat, count: nat)
    | Internal(axis: Axis, plane: real, count: nat, left: Node, right: Node)

  /** `node.axis_leaf`. */
  function AxisLeaf(n: Node): nat {
    if n.Leaf? then LeafTag else n.axis
  }

  /** `node.plane`: 0.0 on a leaf. */
  function PlaneOf(n: Node): real {
    if n.Leaf? then 0.0 else n.plane
  }

  /** `node.id`: 0 on an inner node. */
  function IdOf(n: Node): nat {
    if n.Leaf? then n.id else 0
  }

  /** Every leaf has at most MaxObjects objects or sits at level MaxLevel, and no node lies
      below level MaxLevel. */
  predicate LeavesOk(n: Node, level: nat) {
    match n
    case Leaf(_, count) => level <= MaxLevel && (count <= MaxObjects || level == MaxLevel)
    case Internal(_, _, _, l, r) => level < MaxLevel && LeavesOk(l, level + 1) && LeavesOk(r, level + 1)
  }

  /** The number of levels below a node. */
  function Height(n: Node): nat {
    match n
    case Leaf(_, _) => 0
    case Internal(_, _, _, l, r) => 1 + (if Height(l) < Height(r) then Height(r) else Height(l))
  }

  /** A node whose leaves obey the rule at `level` reaches at most level MaxLevel. */
  lemma {:induction false} DepthBound(n: Node, level: nat)
    requires LeavesOk(n, level)
    ensures level + Height(n) <= MaxLevel
  {
    if n.Internal? {
      DepthBound(n.left, level + 1);
      DepthBound(n.right, level + 1);
    }
  }

  /** `objects.length <= max_objects || level == max_level`. */
  predicate IsLeafCase(objects: seq<AccObj>, level: nat) {
    |objects| <= MaxObjects || level == MaxLevel
  }

  /** What a call of `subdivide_node` receives: a level within the bound, and a real box
      unless the node is a leaf (only an empty mesh gives the root the sentinel box). */
  predicate Buildable(bbox: Aabb, level: nat, objects: seq<AccObj>) {
    level <= MaxLevel && (IsLeafCase(objects, level) || bbox.Box?)
  }

  /** One `subdivide_node` call, with the box and objects it receives, and the calls it
      makes. */
  datatype Calls =
    | LeafCall(bbox: Aabb, objects: seq<AccObj>)
    | SplitCall(bbox: Aabb, objects: seq<AccObj>, split: Split, left: Calls, right: Calls)

  /** A call tree that follows the leaf rule from `level` down: a call is a leaf exactly
      when it has at most MaxObjects objects or is at level MaxLevel. */
  predicate CallsOk(c: Calls, level: nat) {
    match c
    case LeafCall(_, objects) => level <= MaxLevel && IsLeafCase(objects, level)
    case SplitCall(_, objects, _, l, r) =>
      level < MaxLevel && !IsLeafCase(objects, level) && CallsOk(l, level + 1) && CallsOk(r, level + 1)
  }

  /** Every split in the call tree is sound, and each child call receives the box and
      the objects its parent's split gave it. */
  predicate Sound(c: Calls) {
    match c
    case LeafCall(_, _) => true
    case SplitCall(box, objects, s, l, r) =>
      SplitSound(box, objects, s) &&
      l.bbox == s.leftBox && l.objects == s.leftObjects &&
      r.bbox == s.rightBox && r.objects == s.rightObjects &&
      Sound(l) && Sound(r)
  }

  /** The calls `subdivide_node(node, bbox, level, objects)` makes when inner nodes are
      split by `choose` (the source's rule is `ChosenSplit`; the tree's layout does not
      depend on which rule it is). Every recursive call is one level deeper, so the
      recursion ends at level MaxLevel at the latest. */
  function CallTree(choose: Chooser, bbox: Aabb, level: nat, objects: seq<AccObj>): (c: Calls)
    requires Buildable(bbox, level, objects)
    ensures c.bbox == bbox && c.objects == objects
    ensures CallsOk(c, level)
    decreases MaxLevel - level
  {
    if IsLeafCase(objects, level) then LeafCall(bbox, objects)
    else
      var s := choose(bbox, objects);
      SplitCall(bbox, objects, s, CallTree(choose, s.leftBox, level + 1, s.leftObjects),
                CallTree(choose, s.rightBox, level + 1, s.rightObjects))
  }

  /** A sound rule neither invents nor loses objects at any call. */
  lemma {:induction false} CallTreeSound(choose: Chooser, bbox: Aabb, level: nat, objects: seq<AccObj>)
    requires SoundChooser(choose) && Buildable(bbox, level, objects)
    ensures Sound(CallTree(choose, bbox, level, objects))
    decreases MaxLevel - level
  {
    if !IsLeafCase(objects, level) {
      var s := choose(bbox, objects);
      CallTreeSound(choose, s.leftBox, level + 1, s.leftObjects);
      CallTreeSound(choose, s.rightBox, level + 1, s.rightObjects);
    }
  }

  /** The objects the calls append to `tree_objects`, leaf by leaf, left to right. */
  function Emitted(c: Calls): seq<AccObj> {
    match c
    case LeafCall(_, objects) => objects
    case SplitCall(_, _, _, l, r) => Emitted(l) + Emitted(r)
  }

  /** The node the calls leave behind when `node.count` was `count` on entry and
      `tree_objects` held `base` objects. A leaf overwrites the count with its object
      count and takes `base` as its id; an inner node keeps `count` and hands its
      children the chosen candidate's counts. */
  function TreeOf(c: Calls, count: nat, base: nat): (n: Node)
    ensures n.Leaf? <==> c.LeafCall?
    ensures n.Leaf? ==> n.id == base && n.count == |c.objects|
    ensures n.Internal? ==> n.count == count
  {
    match c
    case LeafCall(_, objects) => Leaf(base, |objects|)
    case SplitCall(_, _, s, l, r) =>
      Internal(s.axis, s.plane, count, TreeOf(l, s.leftCount, base),
               TreeOf(r, s.rightCount, base + |Emitted(l)|))
  }

  /** The child calls of an inner call are well-formed. */
  lemma ChildrenBuildable(bbox: Aabb, level: nat, objects: seq<AccObj>, s: Split)
    requires Buildable(bbox, level, objects) && !IsLeafCase(objects, level)
    ensures Buildable(s.leftBox, level + 1, s.leftObjects)
    ensures Buildable(s.rightBox, level + 1, s.rightObjects)
  {
  }

  /** A leaf call appends its objects and builds a leaf with the old length as its id. */
  lemma LeafStep(choose: Chooser, bbox: Aabb, level: nat, objects: seq<AccObj>, count: nat,
                 t0: seq<AccObj>, t1: seq<AccObj>)
    requires level <= MaxLevel && IsLeafCase(objects, level)
    requires t1 == t0 + objects
    ensures t1 == t0 + Emitted(CallTree(choose, bbox, level, objects))
    ensures Leaf(|t0|, |objects|) == TreeOf(CallTree(choose, bbox, level, objects), count, |t0|)
  {
  }

  /** One step of an inner call: what it appends to `tree_objects` and the node it builds
      follow from what its two child calls append and build. */
  lemma CallTreeStep(choose: Chooser, bbox: Aabb, level: nat, objects: seq<AccObj>, s: Split,
                     count: nat, t0: seq<AccObj>, t1: seq<AccObj>, t2: seq<AccObj>, nl: Node, nr: Node)
    requires Buildable(bbox, level, objects) && !IsLeafCase(objects, level)
    requires s == choose(bbox, objects)
    requires var l := CallTree(choose, s.leftBox, level + 1, s.leftObjects);
             t1 == t0 + Emitted(l) && nl == TreeOf(l, s.leftCount, |t0|)
    requires var r := CallTree(choose, s.rightBox, level + 1, s.rightObjects);
             t2 == t1 + Emitted(r) && nr == TreeOf(r, s.rightCount, |t1|)
    ensures t2 == t0 + Emitted(CallTree(choose, bbox, level, objects))
    ensures Internal(s.axis, s.plane, count, nl, nr) == TreeOf(CallTree(choose, bbox, level, objects), count, |t0|)
  {
  }

  /** `CallTreeStep` for the source's own rule. */
  lemma ChosenSplitStep(bbox: Aabb, level: nat, objects: seq<AccObj>, s: Split, count: nat,
                        t0: seq<AccObj>, t1: seq<AccObj>, t2: seq<AccObj>, nl: Node, nr: Node)
    requires Buildable(bbox, level, objects) && !IsLeafCase(objects, level) && bbox.Box?
    requires s == ChosenSplit(bbox, objects)
    requires var l := CallTree(ChosenSplit, s.leftBox, level + 1, s.leftObjects);
             t1 == t0 + Emitted(l) && nl == TreeOf(l, s.leftCount, |t0|)
    requires var r := CallTree(ChosenSplit, s.rightBox, level + 1, s.rightObjects);
             t2 == t1 + Emitted(r) && nr == TreeOf(r, s.rightCount, |t1|)
    ensures t2 == t0 + Emitted(CallTree(ChosenSplit, bbox, level, objects))
    ensures Internal(s.axis, s.plane, count, nl, nr) == TreeOf(CallTree(ChosenSplit, bbox, level, objects), count, |t0|)
  {
    CallTreeStep(ChosenSplit, bbox, level, objects, s, count, t0, t1, t2, nl, nr);
  }

  /** The leaf rule carries over from the calls to the nodes they build. */
  lemma {:induction false} TreeOfLeavesOk(c: Calls, level: nat, count: nat, base: nat)
    requires CallsOk(c, level)
    ensures LeavesOk(TreeOf(c, count, base), level)
    ensures TreeOf(c, count, base).Leaf? <==> c.LeafCall?
  {
    if c.SplitCall? {
      TreeOfLeavesOk(c.left, level + 1, c.split.leftCount, base);
      TreeOfLeavesOk(c.right, level + 1, c.split.rightCount, base + |Emitted(c.left)|);
    }
  }

  /** The node `subdivide_node` builds at `level` is a leaf exactly when the leaf rule
      says so, its leaves obey the rule, and it reaches no deeper than level MaxLevel. */
  lemma LeafRule(choose: Chooser, count: nat, bbox: Aabb, level: nat, objects: seq<AccObj>, base: nat)
    requires Buildable(bbox, level, objects)
    ensures var n := TreeOf(CallTree(choose, bbox, level, objects), count, base);
            (n.Leaf? <==> IsLeafCase(objects, level)) && LeavesOk(n, level) &&
            level + Height(n) <= MaxLevel
  {
    var c := CallTree(choose, bbox, level, objects);
    TreeOfLeavesOk(c, level, count, base);
    DepthBound(TreeOf(c, count, base), level);
  }

  /** The object list of every leaf, left to right. */
  function LeafLists(c: Calls): seq<seq<AccObj>> {
    match c
    case LeafCall(_, objects) => [objects]
    case SplitCall(_, _, _, l, r) => LeafLists(l) + LeafLists(r)
  }

  /** The (id, count) of every leaf of a node, left to right. */
  function LeafRecords(n: Node): seq<(nat, nat)> {
    match n
    case Leaf(id, count) => [(id, count)]
    case Internal(_, _, _, l, r) => LeafRecords(l) + LeafRecords(r)
  }

  /** The sum of the leaf counts of a node. */
  function LeafTotal(n: Node): nat {
    match n
    case Leaf(_, count) => count
    case Internal(_, _, _, l, r) => LeafTotal(l) + LeafTotal(r)
  }

  function Concat(ls: seq<seq<AccObj>>): seq<AccObj> {
    if |ls| == 0 then [] else ls[0] + Concat(ls[1..])
  }

  /** Where each list starts, and how long it is, when the lists are appended one after
      another from `base`. */
  function Offsets(ls: seq<seq<AccObj>>, base: nat): (r: seq<(nat, nat)>)
    ensures |r| == |ls|
  {
    if |ls| == 0 then [] else [(base, |ls[0]|)] + Offsets(ls[1..], base + |ls[0]|)
  }

  lemma {:induction false} ConcatAppend(a: seq<seq<AccObj>>, b: seq<seq<AccObj>>)
    ensures Concat(a + b) == Concat(a) + Concat(b)
  {
    if |a| > 0 {
      assert (a + b)[1..] == a[1..] + b;
      ConcatAppend(a[1..], b);
    } else {
      assert a + b == b;
    }
  }

  lemma {:induction false} OffsetsAppend(a: seq<seq<AccObj>>, b: seq<seq<AccObj>>, base: nat)
    ensures Offsets(a + b, base) == Offsets(a, base) + Offsets(b, base + |Concat(a)|)
  {
    if |a| > 0 {
      assert (a + b)[1..] == a[1..] + b;
      OffsetsAppend(a[1..], b, base + |a[0]|);
    } else {
      assert a + b == b;
    }
  }

  /** What is appended is exactly the leaves' lists, one after another. */
  lemma {:induction false} EmittedIsConcat(c: Calls)
    ensures Emitted(c) == Concat(LeafLists(c))
  {
    match c
    case LeafCall(_, objects) =>
      assert [objects][1..] == [];
    case SplitCall(_, _, _, l, r) =>
      EmittedIsConcat(l);
      EmittedIsConcat(r);
      ConcatAppend(LeafLists(l), LeafLists(r));
  }

  /** Each leaf's id is where its list starts in `tree_objects` and its count is the
      list's length: the leaves are laid out one after another from `base`. */
  lemma {:induction false} TreeLeafRecords(c: Calls, count: nat, base: nat)
    ensures LeafRecords(TreeOf(c, count, base)) == Offsets(LeafLists(c), base)
  {
    match c
    case LeafCall(_, objects) =>
      assert Offsets([objects], base) == [(base, |objects|)] + Offsets([], base + |objects|);
    case SplitCall(_, _, s, l, r) =>
      TreeLeafRecords(l, s.leftCount, base);
      EmittedIsConcat(l);
      TreeLeafRecords(r, s.rightCount, base + |Concat(LeafLists(l))|);
      OffsetsAppend(LeafLists(l), LeafLists(r), base);
  }

  /** In `prefix + Concat(ls)`, the i-th offset record points at exactly the i-th list. */
  lemma {:induction false} OffsetsSlice(ls: seq<seq<AccObj>>, prefix: seq<AccObj>, i: nat)
    requires i < |ls|
    ensures var (id, c) := Offsets(ls, |prefix|)[i];
            c == |ls[i]| && |prefix| <= id && id + c <= |prefix| + |Concat(ls)| &&
            (prefix + Concat(ls))[id .. id + c] == ls[i]
    decreases |ls|
  {
    assert Offsets(ls, |prefix|) == [(|prefix|, |ls[0]|)] + Offsets(ls[1..], |prefix| + |ls[0]|);
    assert prefix + Concat(ls) == (prefix + ls[0]) + Concat(ls[1..]);
    if i > 0 {
      OffsetsSlice(ls[1..], prefix + ls[0], i - 1);
    }
  }

  /** A leaf's `id` is the length of `tree_objects` before its objects were appended, and
      `tree_objects[id .. id + count]` is exactly that leaf's object list. */
  lemma LeafRanges(c: Calls, count: nat, prefix: seq<AccObj>, i: nat)
    requires i < |LeafLists(c)|
    ensures |LeafRecords(TreeOf(c, count, |prefix|))| == |LeafLists(c)|
    ensures var (id, n) := LeafRecords(TreeOf(c, count, |prefix|))[i];
            var all := prefix + Emitted(c);
            |prefix| <= id && id + n <= |all| && n == |LeafLists(c)[i]| &&
            all[id .. id + n] == LeafLists(c)[i]
  {
    TreeLeafRecords(c, count, |prefix|);
    EmittedIsConcat(c);
    OffsetsSlice(LeafLists(c), prefix, i);
  }

  /** The number of entries appended is the sum of the leaf counts. */
  lemma {:induction false} LeafTotalIsEmitted(c: Calls, count: nat, base: nat)
    ensures LeafTotal(TreeOf(c, count, base)) == |Emitted(c)|
  {
    if c.SplitCall? {
      LeafTotalIsEmitted(c.left, c.split.leftCount, base);
      LeafTotalIsEmitted(c.right, c.split.rightCount, base + |Emitted(c.left)|);
    }
  }

  /** Nothing is invented: every appended object is one of the call's objects. */
  lemma {:induction false} EmittedFromInput(c: Calls)
    requires Sound(c)
    ensures forall o :: o in Emitted(c) ==> o in c.objects
  {
    if c.SplitCall? {
      EmittedFromInput(c.left);
      EmittedFromInput(c.right);
    }
  }

  /** Nothing is lost: when every object is a proper box meeting the call's box, every
      object reaches at least one leaf. */
  lemma {:induction false} EmittedCoversInput(c: Calls)
    requires Sound(c) && c.bbox.Box? && AllProper(c.objects) && AllMeet(c.bbox, c.objects)
    ensures forall o :: o in c.objects ==> o in Emitted(c)
  {
    if c.SplitCall? {
      EmittedCoversInput(c.left);
      EmittedCoversInput(c.right);
    }
  }

  /** The root's box: `new Aabb()` grown by `include` with every object's box in turn. */
  function RootBox(objects: seq<AccObj>): (r: Aabb)
    ensures r.Empty? <==> |objects| == 0
    decreases |objects|
  {
    if |objects| == 0 then Empty
    else Include(RootBox(objects[..|objects| - 1]), objects[|objects| - 1].bbox)
  }

  /** The root box covers every object's box, and it is proper when they are. */
  lemma {:induction false} RootBoxCovers(objects: seq<AccObj>)
    requires |objects| > 0
    ensures forall o :: o in objects ==> Contains(RootBox(objects), o.bbox)
    ensures AllProper(objects) ==> Proper(RootBox(objects))
    decreases |objects|
  {
    var n := |objects| - 1;
    var prev := RootBox(objects[..n]);
    IncludeIsUnion(prev, objects[n].bbox, objects[n].bbox);
    if n > 0 {
      RootBoxCovers(objects[..n]);
      forall o | o in objects ensures Contains(RootBox(objects), o.bbox) {
        if o != objects[n] {
          assert o in objects[..n];
          IncludeIsUnion(prev, objects[n].bbox, o.bbox);
          assert Contains(prev, o.bbox);
        }
      }
    }
  }

  /** ... and it is the smallest box that does: any box covering all objects covers it. */
  lemma {:induction false} RootBoxLeast(objects: seq<AccObj>, c: FiniteBox)
    requires |objects| > 0
    requires forall o :: o in objects ==> Contains(c, o.bbox)
    ensures Contains(c, RootBox(objects))
    decreases |objects|
  {
    var n := |objects| - 1;
    if n > 0 {
      RootBoxLeast(objects[..n], c);
    }
    IncludeIsUnion(RootBox(objects[..n]), objects[n].bbox, c);
  }

  /** The root box depends only on which objects there are, not on their order. */
  lemma RootBoxOrderFree(xs: seq<AccObj>, ys: seq<AccObj>)
    requires forall o :: o in xs <==> o in ys
    requires |xs| > 0 && |ys| > 0
    ensures RootBox(xs) == RootBox(ys)
  {
    RootBoxCovers(xs);
    RootBoxCovers(ys);
    RootBoxLeast(xs, RootBox(ys));
    RootBoxLeast(ys, RootBox(xs));
    ContainsAntisymmetric(RootBox(xs), RootBox(ys));
  }

  /** The calls the `BspTree` constructor starts: level 0 with the union box. */
  function RootCalls(objects: seq<AccObj>): (c: Calls)
    ensures c.bbox == RootBox(objects) && c.objects == objects && CallsOk(c, 0)
  {
    CallTree(ChosenSplit, RootBox(objects), 0, objects)
  }

  /** The root the `BspTree` constructor builds when `tree_objects` held `base` objects:
      count `objects.length`, a leaf exactly when there are at most MaxObjects objects,
      and then with id `base`. */
  lemma RootNode(objects: seq<AccObj>, base: nat)
    ensures var r := TreeOf(RootCalls(objects), |objects|, base);
            r.count == |objects| && (r.Leaf? <==> |objects| <= MaxObjects) &&
            (r.Leaf? ==> r.id == base) && LeavesOk(r, 0)
  {
    TreeOfLeavesOk(RootCalls(objects), 0, |objects|, base);
  }

  /** Every object of the mesh ends up in `tree_objects`, and nothing else does. */
  lemma RootKeepsObjects(objects: seq<AccObj>)
    requires AllProper(objects)
    ensures forall o :: o in objects <==> o in Emitted(RootCalls(objects))
  {
    var c := RootCalls(objects);
    ChosenSplitSound();
    CallTreeSound(ChosenSplit, RootBox(objects), 0, objects);
    EmittedFromInput(c);
    if |objects| > 0 {
      var box := RootBox(objects);
      RootBoxCovers(objects);
      forall o | o in objects ensures Intersects(box, o.bbox) {
        ContainedIntersects(box, o.bbox);
      }
      EmittedCoversInput(c);
    }
  }
}
