/** The split heuristic of `subdivide_node` (labs/worksheet6/scripts/BspTree.js), stated
    as pure functions: the candidate planes, their `count × area` cost, the first
    candidate of least cost, the correction of a split that leaves one side empty, and
    the partition of a node's objects between its two children. The loops that compute
    these in the source are the methods of module BspBuilder, proved against the
    functions here. */
module BspSplit {
  import opened Boxes

  /** A node with at most this many objects is a leaf. */
  const MaxObjects: nat := 4
  /** A node at this level is a leaf whatever its object count. */
  const MaxLevel: nat := 20
  /** Candidate planes sit at k / Tests of a box's extent, for k = 1 .. Tests - 1. */
  const Tests: nat := 4
  /** The smallest offset of a corrected plane from the objects' extent. */
  const FEps: real := 1.0e-6
  /** 3 axes times Tests - 1 planes per axis, in the source's loop order. */
  const Candidates: nat := 3 * (Tests - 1)

  /** `AccObj`: one mesh triangle, by its index, with its bounding box. */
  datatype AccObj = AccObj(primIdx: nat, bbox: FiniteBox)

  predicate AllProper(objects: seq<AccObj>) {
    forall o :: o in objects ==> Proper(o.bbox)
  }

  /** Every object's box meets `box`. */
  predicate AllMeet(box: FiniteBox, objects: seq<AccObj>) {
    forall o :: o in objects ==> Intersects(box, o.bbox)
  }

  /** How many of `objects` intersect `box` (the `left_count += intersects(...)` loop). */
  function CountHits(box: FiniteBox, objects: seq<AccObj>): (c: nat)
    ensures c <= |objects|
    decreases |objects|
  {
    if |objects| == 0 then 0
    else
      var n := |objects| - 1;
      CountHits(box, objects[..n]) + (if Intersects(box, objects[n].bbox) then 1 else 0)
  }

  /** The objects that intersect `box`, in their original order (the `push` loop). */
  function Filter(box: FiniteBox, objects: seq<AccObj>): (r: seq<AccObj>)
    ensures |r| <= |objects|
    decreases |objects|
  {
    if |objects| == 0 then []
    else
      var n := |objects| - 1;
      Filter(box, objects[..n]) + (if Intersects(box, objects[n].bbox) then [objects[n]] else [])
  }

  /** The count a candidate is costed with is the size of the list the objects are
      partitioned into. */
  lemma {:induction false} FilterCount(box: FiniteBox, objects: seq<AccObj>)
    ensures |Filter(box, objects)| == CountHits(box, objects)
    decreases |objects|
  {
    if |objects| > 0 {
      FilterCount(box, objects[..|objects| - 1]);
    }
  }

  /** An object goes to a child list exactly when it intersects the child's box. */
  lemma {:induction false} FilterMembers(box: FiniteBox, objects: seq<AccObj>)
    ensures forall o :: o in Filter(box, objects) <==> o in objects && Intersects(box, o.bbox)
    decreases |objects|
  {
    if |objects| > 0 {
      var n := |objects| - 1;
      FilterMembers(box, objects[..n]);
      assert objects == objects[..n] + [objects[n]];
    }
  }

  /** Filtering distributes over concatenation, so the relative order of the objects is
      kept in each child list. */
  lemma {:induction false} FilterAppend(box: FiniteBox, xs: seq<AccObj>, ys: seq<AccObj>)
    ensures Filter(box, xs + ys) == Filter(box, xs) + Filter(box, ys)
    decreases |ys|
  {
    if |ys| == 0 {
      assert xs + ys == xs;
    } else {
      var n := |ys| - 1;
      assert (xs + ys)[..|xs + ys| - 1] == xs + ys[..n];
      FilterAppend(box, xs, ys[..n]);
    }
  }

  /** When every object meets the box, the filter keeps them all. */
  lemma {:induction false} FilterAll(box: FiniteBox, objects: seq<AccObj>)
    requires AllMeet(box, objects)
    ensures Filter(box, objects) == objects
    decreases |objects|
  {
    if |objects| > 0 {
      var n := |objects| - 1;
      FilterAll(box, objects[..n]);
      assert objects == objects[..n] + [objects[n]];
    }
  }

  /** When no object meets the box, the filter keeps none. */
  lemma {:induction false} FilterNone(box: FiniteBox, objects: seq<AccObj>)
    requires forall o :: o in objects ==> !Intersects(box, o.bbox)
    ensures Filter(box, objects) == []
    decreases |objects|
  {
    if |objects| > 0 {
      FilterNone(box, objects[..|objects| - 1]);
    }
  }

  /** Candidate j tests axis j / 3 ... */
  function CandidateAxis(j: nat): Axis
    requires j < Candidates
  {
    j / (Tests - 1)
  }

  /** ... at the fraction k / Tests of the extent, k = j % 3 + 1. */
  function CandidateStep(j: nat): nat
    requires j < Candidates
  {
    j % (Tests - 1) + 1
  }

  /** The loops visit candidate 3 i + k - 1 for axis i and step k. */
  lemma CandidateIndex(i: Axis, k: nat)
    requires 1 <= k < Tests
    ensures var j := 3 * i + k - 1; j < Candidates && CandidateAxis(j) == i && CandidateStep(j) == k
  {
  }

  /** `center = (max_corner - min_corner) * k / TESTS + min_corner`. */
  function PlaneAt(minCorner: real, maxCorner: real, k: nat): real {
    (maxCorner - minCorner) * (k as real) / (Tests as real) + minCorner
  }

  /** A plane at an inner step lies between the corners. */
  lemma PlaneBetween(minCorner: real, maxCorner: real, k: nat)
    requires minCorner <= maxCorner && 1 <= k < Tests
    ensures minCorner <= PlaneAt(minCorner, maxCorner, k) <= maxCorner
  {
    var d := maxCorner - minCorner;
    if k == 1 {
      assert PlaneAt(minCorner, maxCorner, k) == d / 4.0 + minCorner;
    } else if k == 2 {
      assert PlaneAt(minCorner, maxCorner, k) == d * 2.0 / 4.0 + minCorner;
    } else {
      assert k == 3;
      assert PlaneAt(minCorner, maxCorner, k) == d * 3.0 / 4.0 + minCorner;
    }
  }

  /** Candidate j's plane. */
  function CandidatePlane(bbox: FiniteBox, j: nat): real
    requires j < Candidates
  {
    var i := CandidateAxis(j);
    PlaneAt(bbox.min[i], bbox.max[i], CandidateStep(j))
  }

  /** Every candidate plane of a proper box lies inside the box on the candidate's axis. */
  lemma CandidatePlaneInside(bbox: FiniteBox, j: nat)
    requires j < Candidates && Proper(bbox)
    ensures bbox.min[CandidateAxis(j)] <= CandidatePlane(bbox, j) <= bbox.max[CandidateAxis(j)]
  {
    var i := CandidateAxis(j);
    PlaneBetween(bbox.min[i], bbox.max[i], CandidateStep(j));
  }

  /** One side's share of a candidate's cost: its object count times its box's area. */
  function SideCost(count: nat, box: FiniteBox): real {
    (count as real) * Area(box)
  }

  /** `left_count * left_bbox.area() + right_count * right_bbox.area()` for candidate j. */
  function CandidateCost(bbox: FiniteBox, objects: seq<AccObj>, j: nat): real
    requires j < Candidates
  {
    var i := CandidateAxis(j);
    var c := CandidatePlane(bbox, j);
    var lb := WithMax(bbox, i, c);
    var rb := WithMin(bbox, i, c);
    SideCost(CountHits(lb, objects), lb) + SideCost(CountHits(rb, objects), rb)
  }

  /** The costs of the first n candidates, in the source's loop order. */
  function Costs(bbox: FiniteBox, objects: seq<AccObj>, n: nat): (c: seq<real>)
    requires n <= Candidates
    ensures |c| == n
  {
    if n == 0 then [] else Costs(bbox, objects, n - 1) + [CandidateCost(bbox, objects, n - 1)]
  }

  /** Entry j of the list is candidate j's cost. */
  lemma {:induction false} CostsAt(bbox: FiniteBox, objects: seq<AccObj>, n: nat, j: nat)
    requires j < n <= Candidates
    ensures Costs(bbox, objects, n)[j] == CandidateCost(bbox, objects, j)
  {
    var c := Costs(bbox, objects, n - 1);
    assert Costs(bbox, objects, n) == c + [CandidateCost(bbox, objects, n - 1)];
    if j < n - 1 {
      CostsAt(bbox, objects, n - 1, j);
      assert (c + [CandidateCost(bbox, objects, n - 1)])[j] == c[j];
    }
  }

  /** Among the first n costs, b is the first least one: every earlier cost is strictly
      greater and no later one is smaller (the `cost < min_cost` test). */
  predicate IsFirstMin(costs: seq<real>, n: nat, b: nat) {
    b < n <= |costs| &&
    (forall j :: 0 <= j < b ==> costs[j] > costs[b]) &&
    (forall j :: b < j < n ==> costs[j] >= costs[b])
  }

  /** The index the source's nested loops settle on after testing the first n costs. */
  function FirstMin(costs: seq<real>, n: nat): (b: nat)
    requires 1 <= n <= |costs|
    ensures b < n
  {
    if n == 1 then 0
    else
      var b := FirstMin(costs, n - 1);
      if costs[n - 1] < costs[b] then n - 1 else b
  }

  /** The loops' choice is the first least cost. */
  lemma {:induction false} FirstMinIsFirstMin(costs: seq<real>, n: nat)
    requires 1 <= n <= |costs|
    ensures IsFirstMin(costs, n, FirstMin(costs, n))
  {
    if n > 1 {
      FirstMinIsFirstMin(costs, n - 1);
    }
  }

  /** The choice is determined: at most one index is the first least cost. */
  lemma FirstMinUnique(costs: seq<real>, n: nat, b1: nat, b2: nat)
    requires IsFirstMin(costs, n, b1) && IsFirstMin(costs, n, b2)
    ensures b1 == b2
  {
    var c1, c2 := costs[b1], costs[b2];
    assert b1 < b2 ==> c1 > c2;
    assert b1 < b2 ==> c2 >= c1;
    assert b2 < b1 ==> c2 > c1;
    assert b2 < b1 ==> c1 >= c2;
  }

  /** The lowest `bbox.min[axis]` of the objects, starting from `start` (the loop that
      places the plane when the left side came out empty). */
  function MinLow(objects: seq<AccObj>, axis: Axis, start: real): (m: real)
    ensures m <= start
    decreases |objects|
  {
    if |objects| == 0 then start
    else
      var n := |objects| - 1;
      var m := MinLow(objects[..n], axis, start);
      if objects[n].bbox.min[axis] < m then objects[n].bbox.min[axis] else m
  }

  /** MinLow is the minimum of `start` and the objects' low corners: a lower bound of all
      of them that is one of them. */
  lemma {:induction false} MinLowIsMinimum(objects: seq<AccObj>, axis: Axis, start: real)
    ensures MinLow(objects, axis, start) <= start
    ensures forall o :: o in objects ==> MinLow(objects, axis, start) <= o.bbox.min[axis]
    ensures MinLow(objects, axis, start) == start ||
            exists o :: o in objects && MinLow(objects, axis, start) == o.bbox.min[axis]
    decreases |objects|
  {
    if |objects| > 0 {
      var n := |objects| - 1;
      MinLowIsMinimum(objects[..n], axis, start);
      assert objects == objects[..n] + [objects[n]];
    }
  }

  /** The highest `bbox.max[axis]` of the objects, starting from `start` (the loop that
      places the plane when the right side came out empty). */
  function MaxHigh(objects: seq<AccObj>, axis: Axis, start: real): (m: real)
    ensures m >= start
    decreases |objects|
  {
    if |objects| == 0 then start
    else
      var n := |objects| - 1;
      var m := MaxHigh(objects[..n], axis, start);
      if objects[n].bbox.max[axis] > m then objects[n].bbox.max[axis] else m
  }

  /** MaxHigh is the maximum of `start` and the objects' high corners: an upper bound of
      all of them that is one of them. */
  lemma {:induction false} MaxHighIsMaximum(objects: seq<AccObj>, axis: Axis, start: real)
    ensures MaxHigh(objects, axis, start) >= start
    ensures forall o :: o in objects ==> MaxHigh(objects, axis, start) >= o.bbox.max[axis]
    ensures MaxHigh(objects, axis, start) == start ||
            exists o :: o in objects && MaxHigh(objects, axis, start) == o.bbox.max[axis]
    decreases |objects|
  {
    if |objects| > 0 {
      var n := |objects| - 1;
      MaxHighIsMaximum(objects[..n], axis, start);
      assert objects == objects[..n] + [objects[n]];
    }
  }

  /** `diff = f_eps < size/8 ? size/8 : f_eps`: never below the epsilon. */
  function Margin(bbox: FiniteBox, axis: Axis): (d: real)
    ensures d >= FEps && d >= (bbox.max[axis] - bbox.min[axis]) / 8.0
  {
    var size := bbox.max[axis] - bbox.min[axis];
    if FEps < size / 8.0 then size / 8.0 else FEps
  }

  /** The final plane. An empty left side moves the plane just below the objects' lowest
      extent; an empty right side then moves it just above their highest extent, so when
      both sides were empty the right-hand correction is the one that stays. */
  function CorrectedPlane(bbox: FiniteBox, objects: seq<AccObj>, axis: Axis, plane: real,
                          leftCount: nat, rightCount: nat): (c: real)
    ensures leftCount != 0 && rightCount != 0 ==> c == plane
    ensures rightCount == 0 ==> c >= bbox.min[axis] + FEps
    ensures leftCount == 0 && rightCount != 0 ==> c <= bbox.max[axis] - FEps
  {
    var c := if leftCount == 0 then MinLow(objects, axis, bbox.max[axis]) - Margin(bbox, axis)
             else plane;
    if rightCount == 0 then MaxHigh(objects, axis, bbox.min[axis]) + Margin(bbox, axis) else c
  }

  /** Everything `subdivide_node` decides for an inner node. The counts are the chosen
      candidate's (before any correction); they become the children's provisional counts. */
  datatype Split = Split(axis: Axis, plane: real, leftCount: nat, rightCount: nat,
                         leftBox: FiniteBox, rightBox: FiniteBox,
                         leftObjects: seq<AccObj>, rightObjects: seq<AccObj>)

  /** The split `subdivide_node` makes: the two child boxes are the node's box cut at the
      plane on the chosen axis, and each child list is at most as long as the node's. */
  function ChosenSplit(bbox: FiniteBox, objects: seq<AccObj>): (r: Split)
    ensures r.leftBox.min == bbox.min && r.rightBox.max == bbox.max
    ensures r.leftBox.max[r.axis] == r.plane == r.rightBox.min[r.axis]
    ensures forall i :: 0 <= i < 3 && i != r.axis ==>
              r.leftBox.max[i] == bbox.max[i] && r.rightBox.min[i] == bbox.min[i]
    ensures |r.leftObjects| <= |objects| && |r.rightObjects| <= |objects|
  {
    var j := FirstMin(Costs(bbox, objects, Candidates), Candidates);
    var axis := CandidateAxis(j);
    var cand := CandidatePlane(bbox, j);
    var lc := CountHits(WithMax(bbox, axis, cand), objects);
    var rc := CountHits(WithMin(bbox, axis, cand), objects);
    var plane := CorrectedPlane(bbox, objects, axis, cand, lc, rc);
    var lb := WithMax(bbox, axis, plane);
    var rb := WithMin(bbox, axis, plane);
    Split(axis, plane, lc, rc, lb, rb, Filter(lb, objects), Filter(rb, objects))
  }

  /** The correction does not put objects on the side that came out empty: it moves the
      plane past all of them, so that side stays empty and the other side receives every
      object that meets the node's box (the node's empty space is cut off). */
  lemma DegenerateCorrection(bbox: FiniteBox, objects: seq<AccObj>)
    requires AllProper(objects)
    ensures var s := ChosenSplit(bbox, objects);
            s.rightCount == 0 ==>
              s.rightObjects == [] && (AllMeet(bbox, objects) ==> s.leftObjects == objects)
    ensures var s := ChosenSplit(bbox, objects);
            s.leftCount == 0 && s.rightCount != 0 ==>
              s.leftObjects == [] && (AllMeet(bbox, objects) ==> s.rightObjects == objects)
  {
    var s := ChosenSplit(bbox, objects);
    var a := s.axis;
    if s.rightCount == 0 {
      var top := MaxHigh(objects, a, bbox.min[a]);
      MaxHighIsMaximum(objects, a, bbox.min[a]);
      assert s.plane == top + Margin(bbox, a);
      forall o | o in objects ensures !Intersects(s.rightBox, o.bbox) {
        assert o.bbox.max[a] <= top < s.plane == s.rightBox.min[a];
      }
      FilterNone(s.rightBox, objects);
      if AllMeet(bbox, objects) {
        forall o | o in objects ensures Intersects(s.leftBox, o.bbox) {
          assert Intersects(bbox, o.bbox);
          assert o.bbox.min[a] <= o.bbox.max[a] <= top < s.leftBox.max[a];
        }
        FilterAll(s.leftBox, objects);
      }
    } else if s.leftCount == 0 {
      var bottom := MinLow(objects, a, bbox.max[a]);
      MinLowIsMinimum(objects, a, bbox.max[a]);
      assert s.plane == bottom - Margin(bbox, a);
      forall o | o in objects ensures !Intersects(s.leftBox, o.bbox) {
        assert s.leftBox.max[a] == s.plane < bottom <= o.bbox.min[a];
      }
      FilterNone(s.leftBox, objects);
      if AllMeet(bbox, objects) {
        forall o | o in objects ensures Intersects(s.rightBox, o.bbox) {
          assert Intersects(bbox, o.bbox);
          assert s.rightBox.min[a] < bottom <= o.bbox.min[a] <= o.bbox.max[a];
        }
        FilterAll(s.rightBox, objects);
      }
    }
  }

  /** No object that meets a node's box is lost by the split: it goes to the left list,
      the right list, or both. */
  lemma SplitCovers(bbox: FiniteBox, objects: seq<AccObj>)
    requires AllProper(objects) && AllMeet(bbox, objects)
    ensures var s := ChosenSplit(bbox, objects);
            forall o :: o in objects ==> o in s.leftObjects || o in s.rightObjects
  {
    var s := ChosenSplit(bbox, objects);
    var a := s.axis;
    DegenerateCorrection(bbox, objects);
    FilterMembers(s.leftBox, objects);
    FilterMembers(s.rightBox, objects);
    if s.leftCount != 0 && s.rightCount != 0 {
      forall o | o in objects ensures o in s.leftObjects || o in s.rightObjects {
        assert Intersects(bbox, o.bbox);
        if o.bbox.min[a] <= s.plane {
          assert Intersects(s.leftBox, o.bbox);
        } else {
          assert Intersects(s.rightBox, o.bbox);
        }
      }
    }
  }

  /** Both child lists are drawn from the parent's list, and every object in a child list
      meets that child's box. */
  lemma SplitChildren(bbox: FiniteBox, objects: seq<AccObj>)
    ensures var s := ChosenSplit(bbox, objects);
            (forall o :: o in s.leftObjects ==> o in objects) &&
            (forall o :: o in s.rightObjects ==> o in objects) &&
            AllMeet(s.leftBox, s.leftObjects) && AllMeet(s.rightBox, s.rightObjects)
  {
    var s := ChosenSplit(bbox, objects);
    FilterMembers(s.leftBox, objects);
    FilterMembers(s.rightBox, objects);
  }

  /** What the tree builder relies on from a split `s` of `objects` in `bbox`: both lists
      are drawn from `objects`, each child's objects meet the child's box, and no object
      is lost when all are proper boxes meeting `bbox`. */
  predicate SplitSound(bbox: Aabb, objects: seq<AccObj>, s: Split) {
    (forall o :: o in s.leftObjects ==> o in objects) &&
    (forall o :: o in s.rightObjects ==> o in objects) &&
    AllMeet(s.leftBox, s.leftObjects) && AllMeet(s.rightBox, s.rightObjects) &&
    (bbox.Box? && AllProper(objects) && AllMeet(bbox, objects) ==>
       forall o :: o in objects ==> o in s.leftObjects || o in s.rightObjects)
  }

  /** A rule that splits a node's objects in its box. */
  type Chooser = (FiniteBox, seq<AccObj>) -> Split

  /** A rule whose every split is sound. */
  ghost predicate SoundChooser(choose: Chooser) {
    forall bbox: FiniteBox, objects: seq<AccObj> :: SplitSound(bbox, objects, choose(bbox, objects))
  }

  /** Each split the heuristic of `subdivide_node` makes is sound ... */
  lemma ChosenSplitSoundAt(bbox: FiniteBox, objects: seq<AccObj>)
    ensures SplitSound(bbox, objects, ChosenSplit(bbox, objects))
  {
    SplitChildren(bbox, objects);
    if AllProper(objects) && AllMeet(bbox, objects) {
      SplitCovers(bbox, objects);
    }
  }

  /** ... so it is a sound rule. */
  lemma ChosenSplitSound()
    ensures SoundChooser(ChosenSplit)
  {
    forall bbox: FiniteBox, objects: seq<AccObj>
      ensures SplitSound(bbox, objects, ChosenSplit(bbox, objects))
    {
      ChosenSplitSoundAt(bbox, objects);
    }
  }
}
