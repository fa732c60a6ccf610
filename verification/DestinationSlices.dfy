/** What the slices of a destination mean (python/sim/pipe.py): an omitted start is the first
    coordinate, an omitted stop the size that `grid_size` reports, an omitted step one. */
module DestinationSlices {
  import opened CoreContext
  import opened CoreRange
  import opened Finite
  import opened MixedRadix
  import opened Wrappers

  /** The coordinates in one slice, by its fields, for a positive or omitted step. */
  lemma ForwardSlice(start: Option<int>, stop: Option<int>, step: Option<Step>, size: int, x: int)
    requires step.Some? ==> step.value > 0
    ensures x in Indices(Slice(start, stop, step), size) <==>
              && (match start case Some(a) => a <= x case None => 0 <= x)
              && (match stop case Some(b) => x < b case None => x < size)
              && (match step
                  case Some(k) => (match start case Some(a) => (x - a) % k == 0 case None => x % k == 0)
                  case None => true)
  {
    RangeMembers(StartOf(Slice(start, stop, step)), StopOf(Slice(start, stop, step), size),
                 StepOf(Slice(start, stop, step)), x);
  }

  /** With a negative step the expansion counts down; an omitted start is still the first
      coordinate. */
  lemma BackwardSlice(start: Option<int>, stop: Option<int>, k: int, size: int, x: int)
    requires k > 0
    ensures x in Indices(Slice(start, stop, Some(-k)), size) <==>
              && (match start case Some(a) => x <= a && (a - x) % k == 0 case None => x <= 0 && (-x) % k == 0)
              && (match stop case Some(b) => b < x case None => size < x)
  {
    RangeDown(StartOf(Slice(start, stop, Some(-k))), StopOf(Slice(start, stop, Some(-k)), size), k, x);
  }

  lemma RangeDown(start: int, stop: int, k: int, x: int)
    requires k > 0
    ensures x in Range(start, stop, -k) <==> stop < x <= start && (start - x) % k == 0
  {
    RangeMirrored(start, stop, -k, x, -start, -stop, k, -x);
    RangeMembers(-start, -stop, k, -x);
    assert -x - -start == start - x;
  }

  lemma {:induction false} RangeMirrored(start: int, stop: int, down: Step, x: int,
                                        start': int, stop': int, up: Step, x': int)
    requires down < 0 && start' == -start && stop' == -stop && up + down == 0 && x' == -x
    ensures x in Range(start, stop, down) <==> x' in Range(start', stop', up)
    decreases start - stop
  {
    RangeStep(start, stop, down, x);
    RangeStep(start', stop', up, x');
    if stop < start {
      RangeMirrored(start + down, stop, down, x, start' + up, stop', up, x');
    }
  }

  lemma RangeStep(start: int, stop: int, step: Step, x: int)
    ensures x in Range(start, stop, step) <==>
              && (if step > 0 then start < stop else start > stop)
              && (x == start || x in Range(start + step, stop, step))
  {
  }

  /** The membership test, for steps of either sign. */
  lemma SliceMatches(start: Option<int>, stop: Option<int>, step: Option<Step>, size: int, x: int)
    ensures Matches(Slice(start, stop, step), size, x) <==>
              && (match start case Some(a) => a <= x case None => 0 <= x)
              && (match stop case Some(b) => x < b case None => x < size)
              && (match step
                  case Some(k) => (match start case Some(a) => (x - a) % k == 0 case None => x % k == 0)
                  case None => true)
  {
  }

  /** `:` is every coordinate. */
  const ALL := Slice(None, None, None)

  lemma AllCoordinates(size: int, x: int)
    ensures x in Indices(ALL, size) <==> 0 <= x < size
    ensures Matches(ALL, size, x) <==> 0 <= x < size
  {
    ForwardSlice(None, None, None, size, x);
    SliceMatches(None, None, None, size, x);
  }

  /** The destination `(:, ..., :)`. */
  function AllOf(dims: nat): (items: seq<Item>)
    ensures |items| == dims
  {
    seq(dims, _ => ALL)
  }

  lemma PassesAllIff(grid: seq<int>, dims: nat, t: seq<int>)
    requires IsShape(grid) && dims > 0
    ensures Passes(grid, AllOf(dims), t) <==> InBox(GridShape(grid, dims), t)
  {
    GridShapeIsShape(grid, dims);
    var items, shape := AllOf(dims), GridShape(grid, dims);
    assert |items| == dims;
    forall i | 0 <= i < |t| && i < dims
      ensures Matches(items[i], shape[i], t[i]) <==> 0 <= t[i] < shape[i]
    {
      AllCoordinates(shape[i], t[i]);
    }
  }

  /** In every rank the sender counts all cores for it; all cores receive it if and only if `core`
      and `grid_size` use the same shape in that rank. */
  lemma AllOfGrid(grid: seq<int>, dims: nat)
    requires IsShape(grid) && dims > 0
    ensures |Expanded(grid, AllOf(dims))| == Product(grid)
    ensures (forall cid :: 0 <= cid < Product(grid) ==> InRange(grid, Tuple(AllOf(dims)), cid))
            <==> dims == 1 || dims >= |grid| || AllOnes(grid, 1, |grid| - 1)
  {
    AllExpanded(grid, dims);
    ShapesAgree(grid, dims);
    var core, shape := CoreShape(grid, dims), GridShape(grid, dims);
    CoreShapeIsShape(grid, dims);
    GridShapeIsShape(grid, dims);
    if core == shape {
      forall cid | 0 <= cid < Product(grid)
        ensures InRange(grid, Tuple(AllOf(dims)), cid)
      {
        DigitsInBox(core, cid);
        PassesAllIff(grid, dims, Digits(core, cid));
      }
    } else {
      var cid := CoreOutside(grid, dims);
      assert !InRange(grid, Tuple(AllOf(dims)), cid);
    }
  }

  /** Where the shapes differ, some core has a coordinate that `:` leaves out. */
  lemma CoreOutside(grid: seq<int>, dims: nat) returns (cid: int)
    requires IsShape(grid) && dims > 0 && CoreShape(grid, dims) != GridShape(grid, dims)
    ensures 0 <= cid < Product(grid) && !InRange(grid, Tuple(AllOf(dims)), cid)
  {
    var core, shape := CoreShape(grid, dims), GridShape(grid, dims);
    CoreShapeIsShape(grid, dims);
    GridShapeIsShape(grid, dims);
    var k := LargerSize(shape, core);
    var t := seq(dims, i requires 0 <= i < dims => if i == k then core[k] - 1 else 0);
    assert InBox(core, t) && !InBox(shape, t);
    DigitsFlatten(core, t);
    PassesAllIff(grid, dims, t);
    cid := Flatten(core, t);
  }

  lemma AllExpanded(grid: seq<int>, dims: nat)
    requires IsShape(grid) && dims > 0
    ensures |Expanded(grid, AllOf(dims))| == Product(grid)
  {
    var shape := GridShape(grid, dims);
    GridShapeIsShape(grid, dims);
    var lists := IndexLists(AllOf(dims), shape);
    forall i | 0 <= i < dims
      ensures |lists[i]| == shape[i]
    {
      CountsFrom(0, shape[i]);
    }
    CountOfTuples(lists, shape);
  }

  lemma {:induction false} CountsFrom(from: int, size: int)
    requires from <= size
    ensures |Range(from, size, 1)| == size - from
    decreases size - from
  {
    if from < size {
      CountsFrom(from + 1, size);
    }
  }

  /** There are as many tuples as the product of the lists' lengths. */
  lemma {:induction false} CountOfTuples(lists: seq<seq<int>>, lengths: seq<int>)
    requires |lists| == |lengths| && forall i :: 0 <= i < |lists| ==> |lists[i]| == lengths[i]
    ensures |Tuples(lists)| == Product(lengths)
  {
    if lists != [] {
      CountOfTuples(lists[1..], lengths[1..]);
      CountFrom(lists[0], lists[1..]);
      ProductSplit(lengths, 1);
      assert lengths[..1] == [lengths[0]] && [lengths[0]][..0] == [];
    }
  }

  lemma {:induction false} CountFrom(firsts: seq<int>, lists: seq<seq<int>>)
    ensures |TuplesFrom(firsts, lists)| == |firsts| * |Tuples(lists)|
  {
    if firsts != [] {
      CountFrom(firsts[1..], lists);
      assert |firsts[1..]| * |Tuples(lists)| + |Tuples(lists)| == |firsts| * |Tuples(lists)|;
    }
  }
}
