# BSP tree builder of the rendering framework, modelled in Dafny

The rendering framework (worksheet 6) ray-traces triangle meshes on the GPU. To do so
it first builds a binary space partitioning (BSP) tree on the CPU, in
`labs/worksheet6/scripts/BspTree.js`:

- `build_bsp_tree` turns every face of the mesh into an `AccObj`. An `AccObj` is the
  face's index plus the bounding box of its three corners. The corners are built by a
  global `vec3` that `BspTree.js` does not define; the model takes the `vec3` of
  `labs/worksheet8/scripts/vec3.js`, with its default arguments (see "## Left out").
- The `BspTree` constructor computes the union box of all objects. It then calls
  `subdivide_node` on the root.
- `subdivide_node` decides whether a node is a leaf: at most `max_objects` (4) objects,
  or level `max_level` (20).
  - A leaf appends its objects to the global `tree_objects` list. It records where they
    start (`id`) and how many there are (`count`).
  - An inner node tries three candidate planes per axis, at 1/4, 2/4 and 3/4 of the
    box. It keeps the first candidate with the least `count × area` cost. It moves the
    plane past the objects when one side came out empty. It partitions the objects
    between the two child boxes and recurses.
- `treeIds` lists the face index of every `tree_objects` entry.
- `build_bsp_array` lays the tree out as an implicit binary heap. The node at
  (`level`, `branch`) goes in slot `2^level - 1 + branch`, as four words of `bspTree`
  and one entry of `bspPlanes`.

The project has eight modules:

| file | module | contents |
|---|---|---|
| `options.dfy` | `Options` | `Option`, which stands for a JavaScript `undefined` read |
| `vec3.dfy` | `Vectors` | `vec3` and its default arguments |
| `boxes.dfy` | `Boxes` | the box operations the builder relies on |
| `bsp_split.dfy` | `BspSplit` | the split heuristic, as pure functions: candidates, costs, the first least cost, the degenerate-side correction and the partition |
| `bsp_tree.dfy` | `BspTree` | the tree of `subdivide_node` calls, the nodes it leaves, what it appends to `tree_objects`, and the root box |
| `heap_layout.dfy` | `HeapLayout` | the slot layout `build_bsp_array` writes |
| `mesh.dfy` | `Mesh` | the objects made from the `indices` and `vertices` arrays |
| `bsp_builder.dfy` | `BspBuilder` | the imperative code |

The imperative code in `BspBuilder` works as follows:

- **Loops.** The loops of `subdivide_node` and of `build_bsp_tree` are methods. Each is
  proved against the functions above.
- **Builder state.** The class `BspBuilder` holds the program's global state in the
  fields `treeObjects` (`tree_objects`), `root`, `rootBox` (the root's `bbox`),
  `treeIds`, `bspTree` and `bspPlanes`; the last three are arrays written in place.
- **Building the tree.** `Subdivide` appends to `treeObjects`, as `subdivide_node`
  does.
- **Proved guarantees:**
  - every leaf's `id` and `count` name exactly its range of `tree_objects`;
  - no object is lost or invented;
  - the tree is no deeper than `max_level`;
  - the heap layout puts every node in its own slot, with its children at slots
    `2t+1` and `2t+2`.

## Model

| member | source | states |
|---|---|---|
| Vectors.Vec3 | labs/worksheet8/scripts/vec3.js:3-4 | the result has three entries; `x` defaults to 0, and each of `y` and `z` is its argument or, when that is undefined, `x` (after defaulting) |
| Vectors.NoArguments | labs/worksheet8/scripts/vec3.js:3-4 | `vec3()` is the origin |
| Vectors.OneArgument | labs/worksheet8/scripts/vec3.js:3-4 | `vec3(a)` is `[a, a, a]` |
| Vectors.TwoArguments | labs/worksheet8/scripts/vec3.js:3-4 | `vec3(a, b)` is `[a, b, a]`: `z` copies `x`, not `y` |
| Vectors.ThreeArguments | labs/worksheet8/scripts/vec3.js:3-4 | `vec3(a, b, c)` is `[a, b, c]` |
| Boxes.WithMax | labs/worksheet6/scripts/BspTree.js:74-79 | a copy of the box with only the high corner on one axis moved to the plane |
| Boxes.WithMin | labs/worksheet6/scripts/BspTree.js:75-80 | a copy of the box with only the low corner on one axis moved to the plane |
| Boxes.TriangleBox | labs/worksheet6/scripts/BspTree.js:21-26 | `new Aabb(v0, v1, v2)` of an `AccObj`: per axis, the least and the greatest of the three corners' coordinates |
| Boxes.Include | labs/worksheet6/scripts/BspTree.js:33-35 | `include`: the componentwise min of the low corners and max of the high ones; including into the empty sentinel box gives the argument |
| Boxes.Intersects | labs/worksheet6/scripts/BspTree.js:88-89 | `intersects`: the closed intervals of the two boxes overlap on all three axes, so touching boxes meet |
| Boxes.Area | labs/worksheet6/scripts/BspTree.js:92 | `area()`: the surface area `2(dx dy + dy dz + dz dx)` of the box |
| Boxes.TriangleBoxTight | labs/worksheet6/scripts/BspTree.js:21-26 | an `AccObj`'s box is proper, holds the three corners, and each bound is one of the corners' coordinates |
| Boxes.IncludeIsUnion | labs/worksheet6/scripts/BspTree.js:33-35 | `include` gives a box covering both arguments, covered by every box that covers both, and proper when both are |
| Boxes.IncludeIdempotent | labs/worksheet6/scripts/BspTree.js:34-35 | including the same box twice changes nothing the second time |
| Boxes.ContainsAntisymmetric | labs/worksheet6/scripts/BspTree.js:33-35 | two boxes that contain each other are equal |
| Boxes.ContainedIntersects | labs/worksheet6/scripts/BspTree.js:85-90 | a proper box inside a node's box intersects it |
| BspSplit.MaxObjects | labs/worksheet6/scripts/BspTree.js:7 | `max_objects`: a node with at most 4 objects is a leaf |
| BspSplit.MaxLevel | labs/worksheet6/scripts/BspTree.js:8 | `max_level`: a node at level 20 is a leaf |
| BspSplit.FEps | labs/worksheet6/scripts/BspTree.js:9 | `f_eps`: the least margin, 1.0e-6, of a corrected plane |
| BspSplit.Tests | labs/worksheet6/scripts/BspTree.js:44 | `TESTS`: candidate planes at k/4 of the extent, k = 1, 2, 3 |
| BspSplit.FilterCount | labs/worksheet6/scripts/BspTree.js:85-90 | the count a side is costed with equals the length of the list the partition gives that side |
| BspSplit.FilterMembers | labs/worksheet6/scripts/BspTree.js:147-154 | an object is in a side's list exactly when it is in the node's list and meets the side's box |
| BspSplit.FilterAppend | labs/worksheet6/scripts/BspTree.js:147-154 | partitioning a concatenation concatenates the partitions |
| BspSplit.FilterAll | labs/worksheet6/scripts/BspTree.js:147-154 | a side whose box meets every object receives the whole list, in order |
| BspSplit.FilterNone | labs/worksheet6/scripts/BspTree.js:147-154 | a side whose box meets no object receives nothing |
| BspSplit.CountHits | labs/worksheet6/scripts/BspTree.js:83-90 | the `left_count += intersects(...)` loop: how many objects meet a box, never more than there are objects |
| BspSplit.Filter | labs/worksheet6/scripts/BspTree.js:147-154 | the push loop: the objects meeting a box, in their order, never more than there are objects |
| BspSplit.PlaneAt | labs/worksheet6/scripts/BspTree.js:76-78 | `center = (max_corner - min_corner) * k / TESTS + min_corner` |
| BspSplit.PlaneBetween | labs/worksheet6/scripts/BspTree.js:76-78 | a plane at step 1, 2 or 3 lies between the two corners |
| BspSplit.CandidatePlane | labs/worksheet6/scripts/BspTree.js:74-80 | line 78's plane for candidate j: axis j/3, step j%3+1 |
| BspSplit.CandidatePlaneInside | labs/worksheet6/scripts/BspTree.js:76-78 | every candidate plane of a proper box lies inside the box on the candidate's axis |
| BspSplit.SideCost | labs/worksheet6/scripts/BspTree.js:92 | one summand of the cost: a side's object count times its box's area |
| BspSplit.CandidateCost | labs/worksheet6/scripts/BspTree.js:92 | `left_count * left_bbox.area() + right_count * right_bbox.area()` of candidate j, with its clamped boxes |
| BspSplit.CandidateIndex | labs/worksheet6/scripts/BspTree.js:65-67 | iteration (i, k) of the nested candidate loops is candidate `3i + k - 1`, on axis i at step k |
| BspSplit.Costs | labs/worksheet6/scripts/BspTree.js:63-104 | one cost per candidate |
| BspSplit.CostsAt | labs/worksheet6/scripts/BspTree.js:92 | cost j is candidate j's `left_count × left area + right_count × right area` |
| BspSplit.FirstMin | labs/worksheet6/scripts/BspTree.js:93-102 | the loops' choice among the first n candidates is one of them |
| BspSplit.FirstMinIsFirstMin | labs/worksheet6/scripts/BspTree.js:93-102 | the strict `cost < min_cost` test keeps the first candidate of least cost: every earlier cost is greater, no later one smaller |
| BspSplit.FirstMinUnique | labs/worksheet6/scripts/BspTree.js:93-102 | the first least cost is determined: at most one index has that property |
| BspSplit.MinLow | labs/worksheet6/scripts/BspTree.js:116-123 | the left-correction loop's running minimum, never above its start value |
| BspSplit.MaxHigh | labs/worksheet6/scripts/BspTree.js:129-136 | the right-correction loop's running maximum, never below its start value |
| BspSplit.MinLowIsMinimum | labs/worksheet6/scripts/BspTree.js:116-123 | the left-correction loop ends with the minimum of the start value and the objects' low corners on the axis |
| BspSplit.MaxHighIsMaximum | labs/worksheet6/scripts/BspTree.js:129-136 | the right-correction loop ends with the maximum of the start value and the objects' high corners on the axis |
| BspSplit.Margin | labs/worksheet6/scripts/BspTree.js:107-110 | the correction margin is at least `f_eps` and at least an eighth of the box's extent |
| BspSplit.CorrectedPlane | labs/worksheet6/scripts/BspTree.js:106-140 | the final plane: the candidate's when both counts are non-zero; at least `f_eps` above the box's low corner when the right count is 0; at least `f_eps` below the high corner when only the left count is 0 |
| BspSplit.ChosenSplit | labs/worksheet6/scripts/BspTree.js:58-154 | the whole split: the child boxes are the node's box cut at the plane on the chosen axis (all other corners kept), and neither child list is longer than the node's |
| BspSplit.DegenerateCorrection | labs/worksheet6/scripts/BspTree.js:106-154 | when a side's count was 0, the corrected plane lies past every object, so that side receives nothing and the other side receives every object meeting the node's box; when both were 0, the right correction wins |
| BspSplit.SplitCovers | labs/worksheet6/scripts/BspTree.js:140-154 | every object meeting the node's box goes to the left list, the right list, or both |
| BspSplit.SplitChildren | labs/worksheet6/scripts/BspTree.js:140-154 | both child lists are drawn from the node's list, and every object in a child list meets that child's box |
| BspSplit.ChosenSplitSoundAt | labs/worksheet6/scripts/BspTree.js:63-154 | each split the heuristic makes is sound: no object invented, none lost |
| BspSplit.ChosenSplitSound | labs/worksheet6/scripts/BspTree.js:63-154 | the heuristic is a sound split rule for every box and object list |
| BspTree.LeafTag | labs/worksheet6/scripts/BspTree.js:15 | `BspNodeType.bsp_leaf`: the `axis_leaf` value 3 of a leaf |
| BspTree.DepthBound | labs/worksheet6/scripts/BspTree.js:46 | a tree whose leaves obey the leaf rule from `level` reaches no deeper than `max_level` |
| BspTree.CallTree | labs/worksheet6/scripts/BspTree.js:40-160 | the calls start from the given box and objects and follow the leaf rule: a call is a leaf exactly when it has at most 4 objects or is at level 20 |
| BspTree.CallTreeSound | labs/worksheet6/scripts/BspTree.js:147-158 | with a sound split rule, every child call receives its parent's box and list for that side, and no split invents or loses objects |
| BspTree.Emitted | labs/worksheet6/scripts/BspTree.js:53-54 | what the calls append to `tree_objects`: each leaf call's objects, left call before right call |
| BspTree.TreeOf | labs/worksheet6/scripts/BspTree.js:48-51 | the node left behind: a leaf exactly for a leaf call, with `id` the old length of `tree_objects` and `count` its object count; an inner node keeps the count its parent gave it (lines 96-101) |
| BspTree.ChildrenBuildable | labs/worksheet6/scripts/BspTree.js:157-158 | an inner call's two recursive calls receive valid arguments |
| BspTree.LeafStep | labs/worksheet6/scripts/BspTree.js:46-55 | a leaf call appends exactly its objects and records the old length as `id` and its object count as `count` |
| BspTree.CallTreeStep | labs/worksheet6/scripts/BspTree.js:56-158 | an inner call appends what its left call appends and then what its right call appends; it builds a node with the chosen axis and plane and the two children |
| BspTree.ChosenSplitStep | labs/worksheet6/scripts/BspTree.js:56-158 | `CallTreeStep` for the source's own split heuristic |
| BspTree.TreeOfLeavesOk | labs/worksheet6/scripts/BspTree.js:46-55 | the nodes obey the leaf rule when the calls do, and a node is a leaf exactly when its call is |
| BspTree.LeafRule | labs/worksheet6/scripts/BspTree.js:46 | the node `subdivide_node` builds is a leaf exactly when it has at most `max_objects` objects or sits at `max_level`; its leaves obey the rule and it is no deeper than `max_level` |
| BspTree.Offsets | labs/worksheet6/scripts/BspTree.js:49-54 | one (start, length) record per leaf list |
| BspTree.ConcatAppend | labs/worksheet6/scripts/BspTree.js:53-54 | appending leaf lists one after another is associative with list concatenation |
| BspTree.OffsetsAppend | labs/worksheet6/scripts/BspTree.js:49-54 | the offsets of two runs of leaves are the first run's offsets, then the second's shifted by the first run's total length |
| BspTree.EmittedIsConcat | labs/worksheet6/scripts/BspTree.js:53-54 | what the calls append to `tree_objects` is exactly the leaves' lists, left to right |
| BspTree.TreeLeafRecords | labs/worksheet6/scripts/BspTree.js:49-50 | the leaves' (`id`, `count`) pairs, left to right, are the start and length of each leaf's list as appended one after another |
| BspTree.OffsetsSlice | labs/worksheet6/scripts/BspTree.js:49-54 | the i-th offset record, read back from the appended lists, slices out exactly the i-th list |
| BspTree.LeafRanges | labs/worksheet6/scripts/BspTree.js:48-55 | for every leaf, `tree_objects[id .. id + count]` is exactly that leaf's object list, and the range lies in what was appended |
| BspTree.LeafTotalIsEmitted | labs/worksheet6/scripts/BspTree.js:50-54 | the leaf counts add up to the number of entries appended |
| BspTree.EmittedFromInput | labs/worksheet6/scripts/BspTree.js:147-158 | every appended entry is one of the call's objects |
| BspTree.EmittedCoversInput | labs/worksheet6/scripts/BspTree.js:147-158 | every proper object meeting the call's box reaches at least one leaf |
| BspTree.RootBox | labs/worksheet6/scripts/BspTree.js:33-35 | the root box is the empty sentinel box exactly when there are no objects |
| BspTree.RootBoxCovers | labs/worksheet6/scripts/BspTree.js:33-35 | the root box covers every object's box, and it is proper when they are |
| BspTree.RootBoxLeast | labs/worksheet6/scripts/BspTree.js:33-35 | every box covering all object boxes covers the root box |
| BspTree.RootBoxOrderFree | labs/worksheet6/scripts/BspTree.js:33-35 | the root box depends only on which objects there are, not on their order |
| BspTree.RootCalls | labs/worksheet6/scripts/BspTree.js:36 | the constructor's call starts at level 0 with the union box and all objects, and follows the leaf rule |
| BspTree.IsLeafCase | labs/worksheet6/scripts/BspTree.js:46 | the leaf test: at most `max_objects` objects, or level `max_level` |
| BspTree.AxisLeaf | labs/worksheet6/scripts/BspTree.js:189 | `node.axis_leaf`: the leaf tag 3 for a leaf, the chosen axis for an inner node |
| BspTree.IdOf | labs/worksheet6/scripts/BspTree.js:190 | `node.id`: a leaf's offset into `tree_objects`, 0 for an inner node |
| BspTree.PlaneOf | labs/worksheet6/scripts/BspTree.js:193 | `node.plane`: 0 for a leaf, the final plane for an inner node |
| BspTree.RootNode | labs/worksheet6/scripts/BspTree.js:28-38 | the root's count is `objects.length`; it is a leaf exactly when there are at most 4 objects, and then its id is the length `tree_objects` had before |
| BspTree.RootKeepsObjects | labs/worksheet6/scripts/BspTree.js:28-38 | an object is in `tree_objects` after the build exactly when it is one of the mesh's objects |
| HeapLayout.NodeSlots | labs/worksheet6/scripts/BspTree.js:180 | `bspTreeNodes = (1 << (max_level + 1)) - 1`: the number of slots |
| HeapLayout.Blank | labs/worksheet6/scripts/BspTree.js:181-182 | the zeros of the freshly allocated `bspPlanes` and `bspTree` at a slot nothing is written to |
| HeapLayout.Pow2Mono | labs/worksheet6/scripts/BspTree.js:180 | `1 << k` grows with k |
| HeapLayout.Pow2 | labs/worksheet6/scripts/BspTree.js:180-192 | `1 << k`, at least 1 |
| HeapLayout.Idx | labs/worksheet6/scripts/BspTree.js:188 | `idx = (1 << level) - 1 + branch` |
| HeapLayout.IdxRange | labs/worksheet6/scripts/BspTree.js:188 | the slots of a level form the range `[2^level - 1, 2^(level+1) - 1)` |
| HeapLayout.IdxInArrays | labs/worksheet6/scripts/BspTree.js:180-188 | every slot down to `max_level` lies inside the arrays of `(1 << (max_level+1)) - 1` slots |
| HeapLayout.IdxInjective | labs/worksheet6/scripts/BspTree.js:188 | different (level, branch) pairs get different slots |
| HeapLayout.IdxChildren | labs/worksheet6/scripts/BspTree.js:191-197 | the child slots written to words 2 and 3 are `2 idx + 1` and `2 idx + 2`, where the recursive calls place the children |
| HeapLayout.Pack | labs/worksheet6/scripts/BspTree.js:189 | `axis_leaf + (count << 2)` |
| HeapLayout.PackUnpack | labs/worksheet6/scripts/BspTree.js:189 | word 0 gives back the axis or leaf tag in its two low bits and the count in the rest |
| HeapLayout.NodeAt | labs/worksheet6/scripts/BspTree.js:184-198 | the node `build_bsp_array(n, level, branch)` writes into slot t, if any; it lies at or below `level` and not below `max_level` |
| HeapLayout.NodeAtShape | labs/worksheet6/scripts/BspTree.js:184-198 | a node placed in slot t sits at or below the call's level, in the call's subtree, and t is its own slot |
| HeapLayout.NodeAtLeavesOk | labs/worksheet6/scripts/BspTree.js:184-198 | a placed node obeys the leaf rule at the level it is placed at |
| HeapLayout.SlotOwner | labs/worksheet6/scripts/BspTree.js:188 | the node placed in the slot of (lv, br) was placed at (lv, br) itself |
| HeapLayout.BelowApart | labs/worksheet6/scripts/BspTree.js:196-197 | no child's subtree writes its parent's slot |
| HeapLayout.SiblingsApart | labs/worksheet6/scripts/BspTree.js:196-197 | the subtrees of two siblings write disjoint slots |
| HeapLayout.RootChildSlot | labs/worksheet6/scripts/BspTree.js:196-197 | a subtree's own root has its children at the next level, branches `2 branch` and `2 branch + 1` |
| HeapLayout.ChildSlot | labs/worksheet6/scripts/BspTree.js:191-197 | the children of an inner node in slot t are placed in slots `2t+1` and `2t+2`, so following words 2 and 3 from the root visits the tree |
| HeapLayout.ChildBelow | labs/worksheet6/scripts/BspTree.js:191-197 | `ChildSlot` for a node that lies in a child's subtree |
| HeapLayout.PlacedLeafRecord | labs/worksheet6/scripts/BspTree.js:189-190 | every leaf written to the arrays is one of the tree's leaves, with its id and count |
| HeapLayout.SlotsOfChildren | labs/worksheet6/scripts/BspTree.js:188-197 | an inner node's own slot is in neither child's subtree, and no slot is in both |
| HeapLayout.EntryOf | labs/worksheet6/scripts/BspTree.js:189-193 | a written slot's child words are `2 idx + 1` and `2 idx + 2`, and word 0 unpacks to the node's axis or leaf tag and its count |
| HeapLayout.PlacedStep | labs/worksheet6/scripts/BspTree.js:188-197 | writing a node's slot, then its left subtree, then its right subtree leaves each slot holding what the whole subtree places there |
| HeapLayout.RootSlot | labs/worksheet6/scripts/BspTree.js:199 | the root is placed in slot 0 |
| HeapLayout.LeafEntryRange | labs/worksheet6/scripts/BspTree.js:189-190 | in a leaf's slot, word 0 carries the leaf tag and words 1 and 0 / 4 name a range of `tree_objects` holding exactly one leaf's list |
| HeapLayout.LeafSlotRange | labs/worksheet6/scripts/BspTree.js:174-199 | the same for the entry of every leaf slot of the tree the constructor builds: each leaf's range of `tree_objects` holds exactly one leaf's object list |
| Mesh.FaceCountIsLoopBound | labs/worksheet6/scripts/BspTree.js:165 | the test `i < indices.length / 4`, a division of numbers, admits exactly the first `⌈length / 4⌉` faces |
| Mesh.FaceCount | labs/worksheet6/scripts/BspTree.js:165 | the number of faces the loop makes is the length rounded up to a multiple of 4, divided by 4 |
| Mesh.IndexAt | labs/worksheet6/scripts/BspTree.js:166 | `indices[k]`, or undefined past the end of the array |
| Mesh.VertexAt | labs/worksheet6/scripts/BspTree.js:167-169 | `vertices[k]`, or undefined past the end of the array |
| Mesh.FaceObject | labs/worksheet6/scripts/BspTree.js:166-170 | `new AccObj(i, v0, v1, v2)` of face i: its index and the box of its three corners |
| Mesh.Corner | labs/worksheet6/scripts/BspTree.js:166-169 | a corner: `vec3` of the x, y and z entries of the vertex an index names, with undefined reads left to `vec3`'s defaults |
| Mesh.MeshObjects | labs/worksheet6/scripts/BspTree.js:164-172 | the objects of the mesh, one per face |
| Mesh.MeshObjectsShape | labs/worksheet6/scripts/BspTree.js:164-172 | one object per face, numbered in order, each with a proper box holding its three corners |
| Mesh.CornerInRange | labs/worksheet6/scripts/BspTree.js:166-169 | a corner whose vertex lies inside the vertex array is that vertex's x, y and z |
| Mesh.CornerPastEnd | labs/worksheet6/scripts/BspTree.js:166-169 | a corner read past the end of the index array is the origin |
| Mesh.CornerOnlyX | labs/worksheet6/scripts/BspTree.js:166-169 | a vertex with only its x entry in the array becomes `[x, x, x]` |
| Mesh.PrimIds | labs/worksheet6/scripts/BspTree.js:177-179 | the face index of every entry, in order, as `treeIds` holds them |
| Mesh.KeptCount | labs/worksheet6/scripts/BspTree.js:174-179 | a list holding every entry of a list without repeats is at least as long |
| Mesh.MeshFacesKept | labs/worksheet6/scripts/BspTree.js:164-179 | `tree_objects` has at least one entry per face, and every face index appears among the entries' ids |
| BspBuilder.CountBoth | labs/worksheet6/scripts/BspTree.js:83-90 | the loop counts how many objects meet each candidate box |
| BspBuilder.TryCandidate | labs/worksheet6/scripts/BspTree.js:74-92 | iteration (i, k) computes candidate `3i + k - 1`'s plane, its two counts and its cost |
| BspBuilder.Consider | labs/worksheet6/scripts/BspTree.js:74-102 | after one more candidate, the kept choice is still the first least cost among the candidates seen so far |
| BspBuilder.BestCandidate | labs/worksheet6/scripts/BspTree.js:63-104 | the nested loops end with the axis, plane and counts of the first candidate of least cost |
| BspBuilder.ConsiderAxis | labs/worksheet6/scripts/BspTree.js:67-103 | the inner loop over k keeps the first least cost among the candidates of all axes tried so far |
| BspBuilder.LowestMin | labs/worksheet6/scripts/BspTree.js:116-123 | the loop computes the lowest low corner on the axis, starting from the box's high corner |
| BspBuilder.HighestMax | labs/worksheet6/scripts/BspTree.js:129-136 | the loop computes the highest high corner on the axis, starting from the box's low corner |
| BspBuilder.Partition | labs/worksheet6/scripts/BspTree.js:147-154 | the loop gives each side, in order, the objects that meet its box |
| BspBuilder.ChooseSplit | labs/worksheet6/scripts/BspTree.js:58-154 | an inner node's axis, corrected plane, provisional child counts, child boxes and child lists are the heuristic's |
| BspBuilder.MakeObjects | labs/worksheet6/scripts/BspTree.js:164-172 | the face loop builds the mesh's objects, one per face in order |
| BspBuilder.BspBuilder.constructor | labs/worksheet6/scripts/BspTree.js:17-19 | the global state starts empty: no tree objects, no root, empty arrays |
| BspBuilder.BspBuilder.PushLeaf | labs/worksheet6/scripts/BspTree.js:49-54 | the push loop appends the leaf's objects to `tree_objects` and returns the old length as the leaf's id |
| BspBuilder.BspBuilder.Subdivide | labs/worksheet6/scripts/BspTree.js:40-160 | `subdivide_node` appends to `tree_objects` exactly what its call tree emits and builds exactly the node of that call tree |
| BspBuilder.BspBuilder.SplitNode | labs/worksheet6/scripts/BspTree.js:56-159 | the inner-node branch appends the left subtree's leaves, then the right's, and builds the inner node from the two children |
| BspBuilder.BspBuilder.BuildTree | labs/worksheet6/scripts/BspTree.js:28-38 | the constructor sets the root box to the union of the object boxes, appends the root call tree's leaves and builds the root with count `objects.length` |
| BspBuilder.BspBuilder.FillTreeIds | labs/worksheet6/scripts/BspTree.js:177-179 | `treeIds` is a new array as long as `tree_objects`, holding each entry's face index |
| BspBuilder.BspBuilder.WriteEntry | labs/worksheet6/scripts/BspTree.js:188-193 | the five writes fill one slot with its node's entry and change no other slot |
| BspBuilder.BspBuilder.BuildBspArray | labs/worksheet6/scripts/BspTree.js:184-198 | every slot afterwards holds the entry of the node of the subtree placed there, or what it held before |
| BspBuilder.BspBuilder.AllocArrays | labs/worksheet6/scripts/BspTree.js:180-182 | new arrays of `(1 << 21) - 1` slots, every slot zero |
| BspBuilder.BspBuilder.FillArrays | labs/worksheet6/scripts/BspTree.js:180-199 | each slot holds its placed node's entry or zeros |
| BspBuilder.BspBuilder.BuildBspTree | labs/worksheet6/scripts/BspTree.js:162-199 | the whole CPU build: the root box, `tree_objects`, the root, `treeIds` and the two arrays are those of the mesh's objects |
| BspBuilder.PrimIdsSlice | labs/worksheet6/scripts/BspTree.js:177-179 | the face indices of a slice of `tree_objects` are that slice of its face indices |
| BspBuilder.TreeIdsArePrimIds | labs/worksheet6/scripts/BspTree.js:177-179 | the filled `treeIds` array holds the face index of every `tree_objects` entry, in order |
| BspBuilder.LeafEntryIds | labs/worksheet6/scripts/BspTree.js:177-199 | in a leaf's slot, word 0 carries the leaf tag and words 1 and 0 / 4 name a range of the face indices that is exactly one leaf's face indices |
| BspBuilder.LeafSlotIds | labs/worksheet6/scripts/BspTree.js:162-199 | reading the arrays a build leaves behind: for every leaf slot, `treeIds[word1 .. word1 + word0 / 4]` holds exactly the face indices of one leaf's object list |

## Left out

- The WebGPU buffer creation and upload of `build_bsp_tree` (`BspTree.js` lines 201-253)
  and the `console.log` calls: I/O.
- Mesh.Corner: the definition of `vec3` in scope when worksheet 6 runs `BspTree.js` is not
  part of this model; the model takes the `vec3` of `labs/worksheet8/scripts/vec3.js`
  (`x` defaults to 0, `y` and `z` to `x`). Only reads past the end of `indices` or
  `vertices` depend on this choice: a `vec3` without those defaults would give NaN or
  undefined coordinates there instead of the origin or copied values
  (Mesh.CornerPastEnd, Mesh.CornerOnlyX).
- `d_eps` is declared but never used by the builder.
- The `1.0e27` start value of `min_cost` is modelled as "no candidate kept yet". The first
  candidate is always taken. The source would take no candidate only if every cost were
  NaN or at least `1e27`; floating point is not modelled.
- BspBuilder.BspBuilder.BuildBspArray: the planes are real numbers, not rounded to
  Float32 as `bspPlanes` stores them.
- BspBuilder.BspBuilder.WriteEntry: the words are unbounded naturals, so there is no
  Uint32 wrap-around of `axis_leaf + (count << 2)` or of `id`, and `<<` is not
  truncated to 32 bits. This matters only for counts of 2^30 or more.
- All arithmetic is on exact reals, with no floating-point rounding in the centre,
  area, cost and margin computations.
- The `Aabb` class is not part of this model. `Boxes` defines only what the builder
  needs: the corners, the triangle constructor, `include`, closed `intersects`, `area` and
  the copy constructor. Its `Empty` box stands for the infinite sentinels of `new Aabb()`.
- `this.max_level` of the `BspTree` object is a copy of the constant and is not kept.
- BspBuilder.BspBuilder.Subdivide: nodes are returned as `Node` values rather than
  JavaScript objects filled in place. An inner node's `id` is always 0 and its `count` is
  the provisional count its parent chose; both are kept as the source leaves them. No
  other code holds a reference to a node while it is being filled, so no aliasing is lost.
- The functions of `BspTree` take the split rule as a parameter (`Chooser`). The source's
  rule is `ChosenSplit`, which is proved sound.
- `readOBJFile` and the drawing information are not part of this model. The mesh is given
  as its `indices` and `vertices` arrays, with vertex numbers as naturals.
- The degenerate correction follows the code. When a side's count is 0, the plane moves
  past all objects on that side's far end, so that side stays empty and the other side
  gets every object. When both counts are 0, the right-hand correction overrides the left.
- BspBuilder.BspBuilder.Subdivide: requires `level <= max_level`, which the source's only
  call (level 0, line 36) meets. Called above level 20 with object lists that never
  shrink to four or fewer (for example five or more boxes that overlap every candidate
  plane), `subdivide_node` would never meet `level == max_level` and would recurse
  without end; the model does not describe such calls.
