/** The flat layout `build_bsp_array` (labs/worksheet6/scripts/BspTree.js) gives the tree
    for the GPU. The node reached from the root along `branch` at `level` (branch bits
    read from the top: 0 left, 1 right) gets slot `2^level - 1 + branch`. The slot holds
    four words in `bspTree` and one plane in `bspPlanes`:

    - word 0 is `axis_leaf + 4 * count`;
    - word 1 is `id`;
    - words 2 and 3 are the slots of the children (written for leaves too);
    - the plane is `plane`.

    Nodes below level MaxLevel are not written. */
module HeapLayout {
  import opened Options
  import opened BspSplit
  import opened BspTree

  function Pow2(k: nat): (p: nat)
    ensures p >= 1
  {
    if k == 0 then 1 else 2 * Pow2(k - 1)
  }

  lemma {:induction false} Pow2Mono(a: nat, b: nat)
    requires a <= b
    ensures Pow2(a) <= Pow2(b)
    decreases b - a
  {
    if a < b {
      Pow2Mono(a, b - 1);
    }
  }

  /** `(1 << level) - 1 + branch`: the slot of the node at `level`, `branch`. */
  function Idx(level: nat, branch: nat): nat {
    Pow2(level) - 1 + branch
  }

  /** `(1 << (max_level + 1)) - 1`: the number of slots. */
  const NodeSlots: nat := Pow2(MaxLevel + 1) - 1

  /** The slots of one level are the range [2^level - 1, 2^(level+1) - 1) ... */
  lemma IdxRange(level: nat, branch: nat)
    requires branch < Pow2(level)
    ensures Pow2(level) - 1 <= Idx(level, branch) < Pow2(level + 1) - 1
  {
  }

  /** ... so every slot down to level MaxLevel lies inside the arrays. */
  lemma IdxInArrays(level: nat, branch: nat)
    requires branch < Pow2(level) && level <= MaxLevel
    ensures Idx(level, branch) < NodeSlots
  {
    Pow2Mono(level + 1, MaxLevel + 1);
  }

  /** Different (level, branch) pairs get different slots. */
  lemma IdxInjective(l1: nat, b1: nat, l2: nat, b2: nat)
    requires b1 < Pow2(l1) && b2 < Pow2(l2)
    requires Idx(l1, b1) == Idx(l2, b2)
    ensures l1 == l2 && b1 == b2
  {
    IdxRange(l1, b1);
    IdxRange(l2, b2);
    if l1 < l2 {
      Pow2Mono(l1 + 1, l2);
    } else if l2 < l1 {
      Pow2Mono(l2 + 1, l1);
    }
  }

  /** The child slots the source writes are `2 idx + 1` and `2 idx + 2`, the slots of the
      left and right child. */
  lemma IdxChildren(level: nat, branch: nat)
    ensures Pow2(level + 1) - 1 + 2 * branch == 2 * Idx(level, branch) + 1 == Idx(level + 1, 2 * branch)
    ensures Pow2(level + 1) + 2 * branch == 2 * Idx(level, branch) + 2 == Idx(level + 1, 2 * branch + 1)
  {
  }

  /** `axis_leaf + (count << 2)`, word 0 of a slot. */
  function Pack(axisLeaf: nat, count: nat): nat {
    axisLeaf + 4 * count
  }

  /** The two low bits of word 0 give back the axis or leaf tag, the rest the count. */
  lemma PackUnpack(axisLeaf: nat, count: nat)
    requires axisLeaf < 4
    ensures Pack(axisLeaf, count) % 4 == axisLeaf && Pack(axisLeaf, count) / 4 == count
  {
  }

  /** The branch, at `level`, of the ancestor of the node at (lv, br): every level up
      halves the branch. */
  function Anc(br: nat, lv: nat, level: nat): nat
    requires level <= lv
    decreases lv - level
  {
    if lv == level then br else Anc(br, lv, level + 1) / 2
  }

  /** A node with the level and branch it is laid out at. */
  datatype Slot = Slot(node: Node, level: nat, branch: nat)

  /** What `build_bsp_array(n, level, branch)` writes into slot `t`: the node of `n`'s
      subtree placed there, or nothing. */
  function NodeAt(n: Node, level: nat, branch: nat, t: nat): (r: Option<Slot>)
    ensures r.Some? ==> level <= r.value.level <= MaxLevel
    decreases n
  {
    if level > MaxLevel then None
    else if t == Idx(level, branch) then Some(Slot(n, level, branch))
    else
      match n
      case Leaf(_, _) => None
      case Internal(_, _, _, l, r) =>
        var a := NodeAt(l, level + 1, 2 * branch, t);
        if a.Some? then a else NodeAt(r, level + 1, 2 * branch + 1, t)
  }

  /** A node placed in slot `t` sits at or below `level`, in the subtree of `branch`, and
      `t` is its own slot. */
  lemma {:induction false} NodeAtShape(n: Node, level: nat, branch: nat, t: nat)
    requires branch < Pow2(level)
    requires NodeAt(n, level, branch, t).Some?
    ensures var s := NodeAt(n, level, branch, t).value;
            level <= s.level && s.branch < Pow2(s.level) &&
            t == Idx(s.level, s.branch) && Anc(s.branch, s.level, level) == branch
    decreases n
  {
    if t != Idx(level, branch) {
      var l, r := n.left, n.right;
      if NodeAt(l, level + 1, 2 * branch, t).Some? {
        NodeAtShape(l, level + 1, 2 * branch, t);
      } else {
        NodeAtShape(r, level + 1, 2 * branch + 1, t);
      }
    }
  }

  /** Below a tree that obeys the leaf rule, every placed node obeys it too. */
  lemma {:induction false} NodeAtLeavesOk(n: Node, level: nat, branch: nat, t: nat)
    requires LeavesOk(n, level)
    requires NodeAt(n, level, branch, t).Some?
    ensures var s := NodeAt(n, level, branch, t).value;
            LeavesOk(s.node, s.level)
    decreases n
  {
    if t != Idx(level, branch) {
      var l, r := n.left, n.right;
      if NodeAt(l, level + 1, 2 * branch, t).Some? {
        NodeAtLeavesOk(l, level + 1, 2 * branch, t);
      } else {
        NodeAtLeavesOk(r, level + 1, 2 * branch + 1, t);
      }
    }
  }

  /** The node placed in the slot of (lv, br) is placed at (lv, br) itself, in the
      subtree of `branch`. */
  lemma SlotOwner(n: Node, level: nat, branch: nat, lv: nat, br: nat)
    requires branch < Pow2(level) && br < Pow2(lv)
    requires NodeAt(n, level, branch, Idx(lv, br)).Some?
    ensures var s := NodeAt(n, level, branch, Idx(lv, br)).value;
            s.level == lv && s.branch == br && level <= lv && Anc(br, lv, level) == branch
  {
    var s := NodeAt(n, level, branch, Idx(lv, br)).value;
    NodeAtShape(n, level, branch, Idx(lv, br));
    IdxInjective(s.level, s.branch, lv, br);
  }

  /** A node placed below (level, branch) is not in the slot of (level, branch). */
  lemma BelowApart(n: Node, level: nat, branch: nat, b: nat, t: nat)
    requires branch < Pow2(level) && (b == 2 * branch || b == 2 * branch + 1)
    requires NodeAt(n, level + 1, b, t).Some?
    ensures t != Idx(level, branch)
  {
    var s := NodeAt(n, level + 1, b, t).value;
    NodeAtShape(n, level + 1, b, t);
    IdxRange(s.level, s.branch);
    IdxRange(level, branch);
    Pow2Mono(level + 1, s.level);
  }

  /** The subtrees of two siblings take disjoint slots. */
  lemma SiblingsApart(l: Node, r: Node, level: nat, branch: nat, t: nat)
    requires branch < Pow2(level)
    ensures !(NodeAt(l, level + 1, 2 * branch, t).Some? && NodeAt(r, level + 1, 2 * branch + 1, t).Some?)
  {
    if NodeAt(l, level + 1, 2 * branch, t).Some? && NodeAt(r, level + 1, 2 * branch + 1, t).Some? {
      var a := NodeAt(l, level + 1, 2 * branch, t).value;
      NodeAtShape(l, level + 1, 2 * branch, t);
      SlotOwner(r, level + 1, 2 * branch + 1, a.level, a.branch);
    }
  }

  /** Child `b` of an inner node: 0 is the left child, 1 the right. */
  function Child(n: Node, b: nat): Node
    requires n.Internal?
  {
    if b == 0 then n.left else n.right
  }

  /** Child `b` of the subtree's own root is placed at the next level, branch `2 branch + b`. */
  lemma RootChildSlot(n: Node, level: nat, branch: nat, b: nat)
    requires branch < Pow2(level) && n.Internal? && level < MaxLevel && b < 2
    ensures NodeAt(n, level, branch, Idx(level + 1, 2 * branch + b)) ==
              Some(Slot(Child(n, b), level + 1, 2 * branch + b))
  {
    var u := Idx(level + 1, 2 * branch + b);
    IdxRange(level, branch);
    if b == 1 && NodeAt(n.left, level + 1, 2 * branch, u).Some? {
      SlotOwner(n.left, level + 1, 2 * branch, level + 1, 2 * branch + 1);
    }
  }

  /** Child `b` of a node placed in slot `t` is placed in slot `2t + 1 + b`, so following
      the child words of `bspTree` from the root visits the tree. */
  lemma {:induction false} ChildSlot(n: Node, level: nat, branch: nat, t: nat, b: nat)
    requires branch < Pow2(level) && LeavesOk(n, level) && b < 2
    requires NodeAt(n, level, branch, t).Some? && NodeAt(n, level, branch, t).value.node.Internal?
    ensures var s := NodeAt(n, level, branch, t).value;
            NodeAt(n, level, branch, 2 * t + 1 + b) ==
              Some(Slot(Child(s.node, b), s.level + 1, 2 * s.branch + b))
    decreases n
  {
    var s := NodeAt(n, level, branch, t).value;
    var u := 2 * t + 1 + b;
    if t == Idx(level, branch) {
      assert s == Slot(n, level, branch);
      NodeAtLeavesOk(n, level, branch, t);
      IdxChildren(level, branch);
      assert u == Idx(level + 1, 2 * branch + b);
      RootChildSlot(n, level, branch, b);
    } else if NodeAt(n.left, level + 1, 2 * branch, t).Some? {
      ChildBelow(n, level, branch, t, b, 0);
    } else {
      ChildBelow(n, level, branch, t, b, 1);
    }
  }

  /** The case of `ChildSlot` where the node in slot `t` lies in the subtree of child `c`. */
  lemma {:induction false} ChildBelow(n: Node, level: nat, branch: nat, t: nat, b: nat, c: nat)
    requires branch < Pow2(level) && LeavesOk(n, level) && b < 2 && c < 2
    requires n.Internal? && t != Idx(level, branch)
    requires c == 0 <==> NodeAt(n.left, level + 1, 2 * branch, t).Some?
    requires NodeAt(n, level, branch, t).Some? && NodeAt(n, level, branch, t).value.node.Internal?
    ensures var s := NodeAt(n, level, branch, t).value;
            NodeAt(n, level, branch, 2 * t + 1 + b) ==
              Some(Slot(Child(s.node, b), s.level + 1, 2 * s.branch + b))
    decreases n, 0
  {
    var k := Child(n, c);
    var u := 2 * t + 1 + b;
    assert NodeAt(n, level, branch, t) == NodeAt(k, level + 1, 2 * branch + c, t);
    ChildSlot(k, level + 1, 2 * branch + c, t, b);
    BelowApart(k, level, branch, 2 * branch + c, u);
    if c == 1 {
      SiblingsApart(n.left, n.right, level, branch, u);
    }
    assert NodeAt(n, level, branch, u) == NodeAt(k, level + 1, 2 * branch + c, u);
  }

  /** A leaf placed in any slot is one of the tree's leaves, with its id and count. */
  lemma {:induction false} PlacedLeafRecord(n: Node, level: nat, branch: nat, t: nat)
    requires NodeAt(n, level, branch, t).Some? && NodeAt(n, level, branch, t).value.node.Leaf?
    ensures var m := NodeAt(n, level, branch, t).value.node;
            (m.id, m.count) in LeafRecords(n)
    decreases n
  {
    if t != Idx(level, branch) {
      var l, r := n.left, n.right;
      if NodeAt(l, level + 1, 2 * branch, t).Some? {
        PlacedLeafRecord(l, level + 1, 2 * branch, t);
      } else {
        PlacedLeafRecord(r, level + 1, 2 * branch + 1, t);
      }
    }
  }

  /** What `build_bsp_array` does to the slots of an inner node's subtree: its own slot is
      not in either child's subtree, and no slot is in both. */
  lemma SlotsOfChildren(n: Node, level: nat, branch: nat, t: nat)
    requires n.Internal? && branch < Pow2(level)
    ensures t == Idx(level, branch) ==>
              NodeAt(n.left, level + 1, 2 * branch, t).None? &&
              NodeAt(n.right, level + 1, 2 * branch + 1, t).None?
    ensures NodeAt(n.left, level + 1, 2 * branch, t).Some? ==>
              NodeAt(n.right, level + 1, 2 * branch + 1, t).None?
  {
    if NodeAt(n.left, level + 1, 2 * branch, t).Some? {
      BelowApart(n.left, level, branch, 2 * branch, t);
    }
    if NodeAt(n.right, level + 1, 2 * branch + 1, t).Some? {
      BelowApart(n.right, level, branch, 2 * branch + 1, t);
    }
    SiblingsApart(n.left, n.right, level, branch, t);
  }

  /** The five values `build_bsp_array` writes for one slot. */
  datatype Entry = Entry(word: nat, id: nat, left: nat, right: nat, plane: real)

  /** A slot nothing is written to keeps the zeros of the fresh typed arrays. */
  const Blank: Entry := Entry(0, 0, 0, 0, 0.0)

  /** The entry of slot `t` after `build_bsp_array`: the placed node's, or `before`. */
  function Placed(o: Option<Slot>, before: Entry): Entry {
    match o
    case Some(s) => EntryOf(s)
    case None => before
  }

  /** The entry of a placed node. */
  function EntryOf(s: Slot): (e: Entry)
    ensures e.left == 2 * Idx(s.level, s.branch) + 1 && e.right == 2 * Idx(s.level, s.branch) + 2
    ensures e.word % 4 == AxisLeaf(s.node) && e.word / 4 == s.node.count
  {
    IdxChildren(s.level, s.branch);
    PackUnpack(AxisLeaf(s.node), s.node.count);
    Entry(Pack(AxisLeaf(s.node), s.node.count), IdOf(s.node),
          Pow2(s.level + 1) - 1 + 2 * s.branch, Pow2(s.level + 1) + 2 * s.branch, PlaneOf(s.node))
  }

  /** How `build_bsp_array` composes: writing a node's own slot, then its left subtree,
      then its right subtree, leaves slot `t` holding what the whole subtree places there. */
  lemma PlacedStep(n: Node, level: nat, branch: nat, t: nat, e0: Entry, e1: Entry, e2: Entry, e3: Entry)
    requires level <= MaxLevel && branch < Pow2(level)
    requires e1 == (if t == Idx(level, branch) then EntryOf(Slot(n, level, branch)) else e0)
    requires n.Leaf? ==> e3 == e1
    requires n.Internal? ==> e2 == Placed(NodeAt(n.left, level + 1, 2 * branch, t), e1) &&
                             e3 == Placed(NodeAt(n.right, level + 1, 2 * branch + 1, t), e2)
    ensures e3 == Placed(NodeAt(n, level, branch, t), e0)
  {
    if n.Internal? {
      SlotsOfChildren(n, level, branch, t);
    }
  }

  /** The root is placed in slot 0. */
  lemma RootSlot(n: Node)
    ensures NodeAt(n, 0, 0, 0) == Some(Slot(n, 0, 0))
  {
  }

  /** The slot of a leaf placed from the root of the nodes `c` builds: word 0 carries the
      leaf tag, and words 1 and 0 / 4 give a range of `prefix + Emitted(c)` that holds
      exactly one leaf's object list. */
  lemma LeafEntryRange(c: Calls, count: nat, prefix: seq<AccObj>, s: Slot)
    requires s.node.Leaf? && (s.node.id, s.node.count) in LeafRecords(TreeOf(c, count, |prefix|))
    ensures var e := EntryOf(s);
            var all := prefix + Emitted(c);
            e.word % 4 == LeafTag && |prefix| <= e.id && e.id + e.word / 4 <= |all| &&
            exists i :: 0 <= i < |LeafLists(c)| && all[e.id .. e.id + e.word / 4] == LeafLists(c)[i]
  {
    var recs := LeafRecords(TreeOf(c, count, |prefix|));
    TreeLeafRecords(c, count, |prefix|);
    var i :| 0 <= i < |recs| && recs[i] == (s.node.id, s.node.count);
    LeafRanges(c, count, prefix, i);
  }

  /** What a consumer of the arrays relies on: in the slot of any leaf of the tree the
      constructor builds, word 0 carries the leaf tag and words 1 and 0 / 4 give a range
      of `tree_objects` that holds exactly one leaf's object list. */
  lemma LeafSlotRange(objects: seq<AccObj>, prefix: seq<AccObj>, t: nat)
    requires var n := TreeOf(RootCalls(objects), |objects|, |prefix|);
             NodeAt(n, 0, 0, t).Some? && NodeAt(n, 0, 0, t).value.node.Leaf?
    ensures var c := RootCalls(objects);
            var e := EntryOf(NodeAt(TreeOf(c, |objects|, |prefix|), 0, 0, t).value);
            var all := prefix + Emitted(c);
            e.word % 4 == LeafTag && |prefix| <= e.id && e.id + e.word / 4 <= |all| &&
            exists i :: 0 <= i < |LeafLists(c)| && all[e.id .. e.id + e.word / 4] == LeafLists(c)[i]
  {
    var c := RootCalls(objects);
    var n := TreeOf(c, |objects|, |prefix|);
    PlacedLeafRecord(n, 0, 0, t);
    LeafEntryRange(c, |objects|, prefix, NodeAt(n, 0, 0, t).value);
  }
}
