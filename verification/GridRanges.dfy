/** `num_cores_to_grid_ranges` (python/utils/block_allocation.py): a run of consecutive cores as a
    few rectangles.  Coordinates are the last two of the grid's. */
module GridRanges {
  import opened MixedRadix
  import opened Wrappers

  /** Both corners belong to the rectangle. */
  datatype Range = Range(y0: int, x0: int, y1: int, x1: int)

  datatype RangeError = StartOutsideGrid | TooManyCores

  predicate Contains(r: Range, y: int, x: int) {
    r.y0 <= y <= r.y1 && r.x0 <= x <= r.x1
  }

  ghost predicate Covered(ranges: seq<Range>, y: int, x: int) {
    exists i :: 0 <= i < |ranges| && Contains(ranges[i], y, x)
  }

  ghost predicate Disjoint(ranges: seq<Range>) {
    forall i, j, y, x :: 0 <= i < j < |ranges| && Contains(ranges[i], y, x) ==> !Contains(ranges[j], y, x)
  }

  predicate InGrid(r: Range, rows: int, cols: int) {
    0 <= r.y0 <= r.y1 < rows && 0 <= r.x0 <= r.x1 < cols
  }

  function Transposed(r: Range): Range {
    Range(r.x0, r.y0, r.x1, r.y1)
  }

  function AllTransposed(ranges: seq<Range>): (t: seq<Range>)
    ensures |t| == |ranges| && forall i :: 0 <= i < |ranges| ==> t[i] == Transposed(ranges[i])
  {
    seq(|ranges|, i requires 0 <= i < |ranges| => Transposed(ranges[i]))
  }

  function Area(r: Range): int {
    (r.y1 - r.y0 + 1) * (r.x1 - r.x0 + 1)
  }

  function TotalArea(ranges: seq<Range>): int {
    if ranges == [] then 0 else TotalArea(ranges[..|ranges| - 1]) + Area(ranges[|ranges| - 1])
  }

  predicate Before(y0: int, x0: int, y1: int, x1: int) {
    y0 < y1 || (y0 == y1 && x0 < x1)
  }

  ghost predicate GoodRanges(ranges: seq<Range>, rows: int, cols: int) {
    && Disjoint(ranges)
    && forall i :: 0 <= i < |ranges| ==> InGrid(ranges[i], rows, cols)
  }

  /** The ranges are exactly the cores from (y0, x0) up to but without (y1, x1), row by row. */
  ghost predicate Fills(ranges: seq<Range>, y0: int, x0: int, y1: int, x1: int, rows: int, cols: int) {
    && GoodRanges(ranges, rows, cols)
    && forall y, x :: 0 <= y < rows && 0 <= x < cols ==>
         (Covered(ranges, y, x) <==> !Before(y, x, y0, x0) && Before(y, x, y1, x1))
  }

  /** Appending whole rows, or a piece of one row, that starts where the ranges end. */
  lemma Append(ranges: seq<Range>, r: Range, y0: int, x0: int, y1: int, x1: int, rows: int, cols: int)
    requires Fills(ranges, y0, x0, r.y0, r.x0, rows, cols) && InGrid(r, rows, cols)
    requires !Before(r.y0, r.x0, y0, x0) && (r.y0 == r.y1 || (r.x0 == 0 && r.x1 == cols - 1))
    requires if r.x1 == cols - 1 then y1 == r.y1 + 1 && x1 == 0 else y1 == r.y1 && x1 == r.x1 + 1
    ensures Fills(ranges + [r], y0, x0, y1, x1, rows, cols)
    ensures TotalArea(ranges + [r]) == TotalArea(ranges) + Area(r)
  {
    var more := ranges + [r];
    assert more[..|more| - 1] == ranges;
    forall y, x
      ensures Covered(more, y, x) <==> Covered(ranges, y, x) || Contains(r, y, x)
    {
      assert more[|ranges|] == r;
      assert forall i :: 0 <= i < |ranges| ==> more[i] == ranges[i];
    }
    assert Disjoint(more) by {
      forall i, y, x | 0 <= i < |ranges| && Contains(ranges[i], y, x)
        ensures !Contains(r, y, x)
      {
        assert Covered(ranges, y, x);
      }
    }
  }

  /** Cores from (y, x) to the end of the grid. */
  ghost function Room(y: int, x: int, rows: int, cols: int): int
    decreases rows - y
  {
    if y >= rows then -x else if y == rows - 1 then cols - x else cols - x + Room(y + 1, 0, rows, cols)
  }

  lemma {:induction false} RoomIsRest(y: int, x: int, rows: int, cols: int)
    requires y <= rows
    ensures Room(y, x, rows, cols) == (rows - 1 - y) * cols + (cols - x)
    decreases rows - y
  {
    if y < rows - 1 {
      RoomIsRest(y + 1, 0, rows, cols);
    }
  }

  /** The ranges hold the first target - leftover cores of the run; the next is (y, x). */
  ghost predicate Progress(ranges: seq<Range>, y0: int, x0: int, target: int, leftover: int, y: int, x: int,
                           rows: int, cols: int)
  {
    && 0 < cols && 0 <= x < cols && 0 <= leftover <= Room(y, x, rows, cols)
    && 0 <= y <= rows && !Before(y, x, y0, x0)
    && Room(y0, x0, rows, cols) - Room(y, x, rows, cols) == target - leftover == TotalArea(ranges)
    && Fills(ranges, y0, x0, y, x, rows, cols)
  }

  lemma {:induction false} RowsFit(n: int, y: int, rows: int, cols: int)
    requires 0 < cols && 0 < n && n * cols <= Room(y, 0, rows, cols)
    ensures n <= rows - y && Room(y + n, 0, rows, cols) == Room(y, 0, rows, cols) - n * cols
    decreases n
  {
    assert y < rows by {
      MulMonotone(1, n, cols);
    }
    if n > 1 {
      assert (n - 1) * cols == n * cols - cols;
      MulMonotone(1, n - 1, cols);
      RowsFit(n - 1, y + 1, rows, cols);
    }
  }

  /** A piece of the row that (y, x) is in, not past its end. */
  lemma TakePiece(ranges: seq<Range>, y0: int, x0: int, target: int, leftover: int, y: int, x: int, n: int,
                  rest: int, rows: int, cols: int)
    returns (y1: int, x1: int)
    requires Progress(ranges, y0, x0, target, leftover, y, x, rows, cols)
    requires 0 < n && n + rest == leftover && 0 <= rest && n <= cols - x && 0 <= y0 && 0 <= x0
    ensures if x + n == cols then y1 == y + 1 && x1 == 0 else y1 == y && x1 == x + n
    ensures Progress(ranges + [Range(y, x, y, x + n - 1)], y0, x0, target, rest, y1, x1, rows, cols)
  {
    y1, x1 := if x + n == cols then y + 1 else y, if x + n == cols then 0 else x + n;
    Append(ranges, Range(y, x, y, x + n - 1), y0, x0, y1, x1, rows, cols);
  }

  lemma TakeRows(ranges: seq<Range>, y0: int, x0: int, target: int, leftover: int, y: int, n: int, rest: int,
                 rows: int, cols: int)
    requires Progress(ranges, y0, x0, target, leftover, y, 0, rows, cols)
    requires 0 < n && n * cols + rest == leftover && 0 <= rest && 0 <= y0 && 0 <= x0
    ensures Progress(ranges + [Range(y, 0, y + n - 1, cols - 1)], y0, x0, target, rest, y + n, 0, rows, cols)
  {
    RowsFit(n, y, rows, cols);
    Append(ranges, Range(y, 0, y + n - 1, cols - 1), y0, x0, y + n, 0, rows, cols);
  }

  lemma NothingTaken(y: int, x: int, target: int, rows: int, cols: int)
    requires 0 <= y < rows && 0 <= x < cols && 0 <= target <= Room(y, x, rows, cols)
    ensures Progress([], y, x, target, target, y, x, rows, cols)
  {
  }

  /** The state of the loop-free fill: ranges, cores still to place, and where the next one goes. */
  datatype Fill = Fill(ranges: seq<Range>, leftover: int, y: int, x: int)

  ghost predicate Filling(f: Fill, y0: int, x0: int, target: int, rows: int, cols: int) {
    Progress(f.ranges, y0, x0, target, f.leftover, f.y, f.x, rows, cols)
  }

  /** Partial row at the start. */
  method FillFirstRow(f: Fill, target: int, rows: int, cols: int) returns (r: Fill)
    requires 0 <= f.y && 0 <= f.x && Filling(f, f.y, f.x, target, rows, cols)
    ensures Filling(r, f.y, f.x, target, rows, cols)
    ensures |r.ranges| <= |f.ranges| + 1 && (r.x == 0 || r.leftover <= cols - r.x)
  {
    if f.x != 0 && f.leftover > cols - f.x {
      var rest := f.leftover - (cols - f.x);
      ghost var y1, x1 := TakePiece(f.ranges, f.y, f.x, target, f.leftover, f.y, f.x, cols - f.x, rest, rows, cols);
      r := Fill(f.ranges + [Range(f.y, f.x, f.y, cols - 1)], rest, f.y + 1, 0);
    } else {
      r := f;
    }
  }

  lemma Quotient(n: int, s: int)
    requires 0 < s <= n
    ensures 1 <= n / s && n / s * s <= n && n - n / s * s < s
  {
  }

  /** Full rows. */
  method FillFullRows(f: Fill, ghost y0: int, ghost x0: int, ghost target: int, ghost rows: int, cols: int)
    returns (r: Fill)
    requires 0 <= y0 && 0 <= x0 && Filling(f, y0, x0, target, rows, cols)
    requires f.x == 0 || f.leftover <= cols - f.x
    ensures Filling(r, y0, x0, target, rows, cols)
    ensures |r.ranges| <= |f.ranges| + 1 && r.leftover <= cols - r.x
  {
    if f.leftover >= cols {
      var fullRows := f.leftover / cols;
      Quotient(f.leftover, cols);
      var rest := f.leftover - fullRows * cols;
      TakeRows(f.ranges, y0, x0, target, f.leftover, f.y, fullRows, rest, rows, cols);
      r := Fill(f.ranges + [Range(f.y, f.x, f.y + fullRows - 1, cols - 1)], rest, f.y + fullRows, 0);
    } else {
      r := f;
    }
  }

  /** Partial row at the end. */
  method FillLastRow(f: Fill, ghost y0: int, ghost x0: int, ghost target: int, ghost rows: int, ghost cols: int)
    returns (ranges: seq<Range>, ghost endY: int, ghost endX: int)
    requires 0 <= y0 && 0 <= x0 && Filling(f, y0, x0, target, rows, cols) && f.leftover <= cols - f.x
    ensures Progress(ranges, y0, x0, target, 0, endY, endX, rows, cols) && |ranges| <= |f.ranges| + 1
  {
    ranges, endY, endX := f.ranges, f.y, f.x;
    if f.leftover > 0 {
      endY, endX := TakePiece(f.ranges, y0, x0, target, f.leftover, f.y, f.x, f.leftover, 0, rows, cols);
      ranges := ranges + [Range(f.y, f.x, f.y, f.x + f.leftover - 1)];
    }
  }

  /** The row-wise case. */
  method FillRows(y: int, x: int, target: int, rows: int, cols: int)
    returns (ranges: seq<Range>, ghost endY: int, ghost endX: int)
    requires 0 <= y < rows && 0 <= x < cols && 0 <= target <= Room(y, x, rows, cols)
    ensures |ranges| <= 3 && Progress(ranges, y, x, target, 0, endY, endX, rows, cols)
  {
    NothingTaken(y, x, target, rows, cols);
    var f := FillFirstRow(Fill([], target, y, x), target, rows, cols);
    f := FillFullRows(f, y, x, target, rows, cols);
    ranges, endY, endX := FillLastRow(f, y, x, target, rows, cols);
  }

  /** A core's number, row by row or column by column. */
  function Number(y: int, x: int, rows: int, cols: int, rowWise: bool): int {
    if rowWise then y * cols + x else x * rows + y
  }

  /** The ranges are exactly the `count` cores numbered from `first` on. */
  ghost predicate CoversRun(ranges: seq<Range>, first: int, count: int, rows: int, cols: int, rowWise: bool) {
    forall y, x :: 0 <= y < rows && 0 <= x < cols ==>
      (Covered(ranges, y, x) <==> first <= Number(y, x, rows, cols, rowWise) < first + count)
  }

  lemma NumbersFollowOrder(y: int, x: int, y1: int, x1: int, cols: int)
    requires 0 <= x < cols && 0 <= x1 < cols
    ensures Before(y, x, y1, x1) <==> y * cols + x < y1 * cols + x1
  {
    MulMonotone(y + 1, y1, cols);
    MulMonotone(y1 + 1, y, cols);
    MulMonotone(y, y1, cols);
    MulMonotone(y1, y, cols);
  }

  lemma FilledCoversRun(ranges: seq<Range>, y0: int, x0: int, target: int, y1: int, x1: int, rows: int, cols: int)
    requires 0 <= y0 < rows && 0 <= x0 < cols && Progress(ranges, y0, x0, target, 0, y1, x1, rows, cols)
    ensures CoversRun(ranges, y0 * cols + x0, target, rows, cols, true)
  {
    RoomIsRest(y0, x0, rows, cols);
    RoomIsRest(y1, x1, rows, cols);
    assert (rows - 1 - y0) * cols == (rows - 1) * cols - y0 * cols;
    assert (rows - 1 - y1) * cols == (rows - 1) * cols - y1 * cols;
    var first, last := y0 * cols + x0, y1 * cols + x1;
    assert last == first + target;
    forall y, x | 0 <= y < rows && 0 <= x < cols
      ensures Covered(ranges, y, x) <==> first <= Number(y, x, rows, cols, true) < last
    {
      NumbersFollowOrder(y, x, y0, x0, cols);
      NumbersFollowOrder(y, x, y1, x1, cols);
    }
  }

  lemma {:induction false} TransposedArea(ranges: seq<Range>)
    ensures TotalArea(AllTransposed(ranges)) == TotalArea(ranges)
    decreases |ranges|
  {
    if ranges != [] {
      var k := |ranges| - 1;
      TransposedArea(ranges[..k]);
      assert AllTransposed(ranges)[..k] == AllTransposed(ranges[..k]);
      var r := ranges[k];
      assert Area(Transposed(r)) == Area(r) by {
        assert (r.x1 - r.x0 + 1) * (r.y1 - r.y0 + 1) == (r.y1 - r.y0 + 1) * (r.x1 - r.x0 + 1);
      }
    }
  }

  lemma TransposedCovers(ranges: seq<Range>, first: int, count: int, rows: int, cols: int)
    requires GoodRanges(ranges, cols, rows) && CoversRun(ranges, first, count, cols, rows, true)
    ensures GoodRanges(AllTransposed(ranges), rows, cols)
    ensures CoversRun(AllTransposed(ranges), first, count, rows, cols, false)
  {
    var t := AllTransposed(ranges);
    forall i, j, y, x | 0 <= i < j < |t| && Contains(t[i], y, x)
      ensures !Contains(t[j], y, x)
    {
      assert Contains(ranges[i], x, y);
    }
    forall y, x
      ensures Covered(t, y, x) <==> Covered(ranges, x, y)
    {
      assert forall i :: 0 <= i < |t| ==> (Contains(t[i], y, x) <==> Contains(ranges[i], x, y));
    }
    forall y, x | 0 <= y < rows && 0 <= x < cols
      ensures Covered(t, y, x) <==> first <= Number(y, x, rows, cols, false) < first + count
    {
      assert Number(x, y, cols, rows, true) == Number(y, x, rows, cols, false);
    }
  }

  /** `num_cores_to_grid_ranges` from an in-grid start.  The column-wise case is the row-wise one
      with the coordinates exchanged. */
  method NumCoresToGridRanges(startY: int, startX: int, target: int, rows: int, cols: int, rowWise: bool)
    returns (r: Result<seq<Range>, RangeError>)
    requires 0 <= startY && 0 <= startX
    ensures r.Failure? ==>
              r.error == if startX >= cols || startY >= rows then StartOutsideGrid else TooManyCores
    ensures r.Success? <==> startX < cols && startY < rows &&
                            Number(startY, startX, rows, cols, rowWise) + target <= rows * cols
    ensures r.Success? ==> |r.value| <= 3 && GoodRanges(r.value, rows, cols)
    ensures r.Success? ==> TotalArea(r.value) == if target > 0 then target else 0
    ensures r.Success? ==>
              CoversRun(r.value, Number(startY, startX, rows, cols, rowWise), target, rows, cols, rowWise)
  {
    if startX >= cols || startY >= rows {
      return Failure(StartOutsideGrid);
    }
    var available :=
      if rowWise then (rows - 1 - startY) * cols + (cols - startX) else (cols - 1 - startX) * rows + (rows - startY);
    AvailableIsRest(startY, startX, rows, cols);
    AvailableIsRest(startX, startY, cols, rows);
    if target > available {
      return Failure(TooManyCores);
    }
    if target <= 0 {
      return Success([]);
    }
    if rowWise {
      var ranges, endY, endX := FillRows(startY, startX, target, rows, cols);
      FilledCoversRun(ranges, startY, startX, target, endY, endX, rows, cols);
      return Success(ranges);
    } else {
      var ranges, endX, endY := FillRows(startX, startY, target, cols, rows);
      FilledCoversRun(ranges, startX, startY, target, endX, endY, cols, rows);
      TransposedArea(ranges);
      TransposedCovers(ranges, startX * rows + startY, target, rows, cols);
      return Success(AllTransposed(ranges));
    }
  }

  lemma AvailableIsRest(y: int, x: int, rows: int, cols: int)
    requires 0 <= y < rows && 0 <= x < cols
    ensures (rows - 1 - y) * cols + (cols - x) == rows * cols - (y * cols + x)
    ensures Room(y, x, rows, cols) == (rows - 1 - y) * cols + (cols - x)
    ensures rows * cols == cols * rows
  {
    RoomIsRest(y, x, rows, cols);
  }
}
