/** Core coordinates (python/sim/corecontext.py).  A grid is a list of positive sizes; cores are
    numbered row-major from 0. */
module CoreContext {
  import opened MixedRadix
  import opened Wrappers

  function Repeated(x: int, n: nat): seq<int> {
    seq(n, _ => x)
  }

  function Reversed(s: seq<int>): seq<int> {
    if s == [] then [] else [s[|s| - 1]] + Reversed(s[..|s| - 1])
  }

  /** The shape in which `core(dims)` counts: leading sizes merged, or ones appended. */
  function CoreShape(grid: seq<int>, dims: nat): seq<int>
    requires dims > 0
  {
    var k := |grid| - dims + 1;
    if dims < |grid| then [Product(grid[..k])] + grid[k..] else grid + Repeated(1, dims - |grid|)
  }

  /** The shape that `grid_size(dims)` reports: trailing sizes merged, or ones appended. */
  function GridShape(grid: seq<int>, dims: nat): seq<int>
    requires dims > 0
  {
    if dims < |grid| then grid[..dims - 1] + [Product(grid[dims - 1..])]
    else grid + Repeated(1, dims - |grid|)
  }

  // ----- core(dims) -----

  lemma {:induction false} ProductMerged(grid: seq<int>, m: nat)
    requires 0 < m <= |grid|
    ensures Product([Product(grid[..m])] + grid[m..]) == Product(grid)
    decreases |grid|
  {
    var merged := [Product(grid[..m])] + grid[m..];
    var k := |grid| - 1;
    if m == |grid| {
      assert grid[..m] == grid && merged[..0] == [];
    } else {
      ProductMerged(grid[..k], m);
      assert grid[..k][..m] == grid[..m];
      assert merged[..|merged| - 1] == [Product(grid[..m])] + grid[..k][m..];
    }
  }

  lemma {:induction false} ProductPadded(grid: seq<int>, n: nat)
    ensures Product(grid + Repeated(1, n)) == Product(grid)
    decreases n
  {
    var padded := grid + Repeated(1, n);
    if n == 0 {
      assert padded == grid;
    } else {
      ProductPadded(grid, n - 1);
      assert padded[..|padded| - 1] == grid + Repeated(1, n - 1);
    }
  }

  lemma MergedIsShape(first: int, rest: seq<int>)
    requires first > 0 && AllPositive(rest)
    ensures IsShape([first] + rest)
  {
  }

  lemma CoreShapeIsShape(grid: seq<int>, dims: nat)
    requires IsShape(grid) && dims > 0
    ensures IsShape(CoreShape(grid, dims)) && |CoreShape(grid, dims)| == dims
    ensures Product(CoreShape(grid, dims)) == Product(grid)
  {
    if dims < |grid| {
      var m := |grid| - dims + 1;
      ProductMerged(grid, m);
      ProductPositive(grid[..m]);
      MergedIsShape(Product(grid[..m]), grid[m..]);
    } else {
      PaddedIsShape(grid, dims - |grid|);
    }
  }

  lemma PaddedIsShape(grid: seq<int>, n: nat)
    requires IsShape(grid)
    ensures var padded := grid + Repeated(1, n);
            IsShape(padded) && |padded| == |grid| + n && Product(padded) == Product(grid)
  {
    ProductPadded(grid, n);
  }

  function Merged(grid: seq<int>, m: nat): seq<int>
    requires 0 < m <= |grid|
  {
    [Product(grid[..m])] + grid[m..]
  }

  function MergeLeading(grid: seq<int>, coords: seq<int>, m: nat): seq<int>
    requires 0 < m <= |coords| == |grid|
  {
    [Flatten(grid, coords[..m])] + coords[m..]
  }

  lemma MergeLeadingLast(grid: seq<int>, coords: seq<int>, low: int, m: nat)
    requires 0 < m <= |coords| == |grid| - 1
    ensures MergeLeading(grid, coords + [low], m) == MergeLeading(grid[..|coords|], coords, m) + [low]
  {
    assert (coords + [low])[..m] == coords[..m];
    FlattenPrefix(grid[..|coords|], grid, coords[..m]);
  }

  /** Merging the leading digits is counting in the merged shape. */
  lemma {:induction false} DigitsMerged(grid: seq<int>, n: int, m: nat)
    requires IsShape(grid) && 0 <= n < Product(grid) && 0 < m <= |grid|
    ensures |Digits(grid, n)| == |grid| && IsShape(Merged(grid, m))
    ensures MergeLeading(grid, Digits(grid, n), m) == Digits(Merged(grid, m), n)
    decreases |grid|
  {
    DigitsInBox(grid, n);
    ProductPositive(grid[..m]);
    var k := |grid| - 1;
    if m == |grid| {
      FlattenDigits(grid, n);
      assert grid[..m] == grid && Digits(grid, n)[..m] == Digits(grid, n);
      SingleDigit(Product(grid), n);
      assert Merged(grid, m) == [Product(grid)];
    } else {
      QuotientBelow(n, Product(grid[..k]), grid[k]);
      DigitsMerged(grid[..k], n / grid[k], m);
      MergeLeadingLast(grid, Digits(grid[..k], n / grid[k]), n % grid[k], m);
      MergedLast(grid, n, m);
    }
  }

  lemma SingleDigit(s: int, n: int)
    requires 0 <= n < s
    ensures Digits([s], n) == [n]
  {
    QuotientUnique(0, n, s);
    assert Digits([s][..0], n / s) == [];
  }

  lemma MergedLast(grid: seq<int>, n: int, m: nat)
    requires IsShape(grid) && 0 < m < |grid| && IsShape(Merged(grid, m)) && IsShape(Merged(grid[..|grid| - 1], m))
    ensures var k := |grid| - 1;
            Digits(Merged(grid, m), n) == Digits(Merged(grid[..k], m), n / grid[k]) + [n % grid[k]]
  {
    var k := |grid| - 1;
    var merged := Merged(grid, m);
    assert grid[..k][..m] == grid[..m];
    assert merged[..|merged| - 1] == Merged(grid[..k], m);
  }

  lemma {:induction false} DigitsPadded(grid: seq<int>, n: int, count: nat)
    requires IsShape(grid)
    ensures Digits(grid + Repeated(1, count), n) == Digits(grid, n) + Repeated(0, count)
    decreases count
  {
    if count == 0 {
      assert grid + Repeated(1, 0) == grid;
    } else {
      DigitsPadded(grid, n, count - 1);
      DigitsOneMore(grid + Repeated(1, count - 1), n);
      assert grid + Repeated(1, count) == grid + Repeated(1, count - 1) + [1];
      assert Repeated(0, count) == Repeated(0, count - 1) + [0];
    }
  }

  lemma DigitsOneMore(shape: seq<int>, n: int)
    requires AllPositive(shape)
    ensures Digits(shape + [1], n) == Digits(shape, n) + [0]
  {
    assert (shape + [1])[..|shape|] == shape;
  }

  lemma PeelDigit(grid: seq<int>, n: nat, rest: int, low: seq<int>)
    requires IsShape(grid) && n < |grid|
    ensures Digits(grid[..n + 1], rest) + Reversed(low)
            == Digits(grid[..n], rest / grid[n]) + Reversed(low + [rest % grid[n]])
  {
    assert grid[..n + 1][..n] == grid[..n];
    assert (low + [rest % grid[n]])[..|low|] == low;
  }

  /** `core`'s first loop. */
  method GridCoordinates(grid: seq<int>, cid: int) returns (coords: seq<int>)
    requires IsShape(grid)
    ensures coords == Digits(grid, cid) && |coords| == |grid|
  {
    coords := [];
    var rest := cid;
    var n := |grid|;
    ghost var digits := Digits(grid, cid);
    assert grid[..n] == grid;
    while n > 0
      invariant 0 <= n <= |grid|
      invariant digits == Digits(grid[..n], rest) + Reversed(coords)
    {
      n := n - 1;
      PeelDigit(grid, n, rest, coords);
      coords := coords + [rest % grid[n]];
      rest := rest / grid[n];
    }
    coords := Reversed(coords);
    DigitsInBox(grid, cid);
  }

  /** Flattening the first dimensions of a coordinate list. */
  method FlattenLeading(grid: seq<int>, coords: seq<int>, dims: nat) returns (r: seq<int>)
    requires 0 < dims < |coords| == |grid|
    ensures r == MergeLeading(grid, coords, |coords| - dims + 1) && |r| == dims
  {
    var m := |coords| - dims + 1;
    var flattened := coords[0];
    for i := 1 to m
      invariant flattened == Flatten(grid, coords[..i])
    {
      assert coords[..i + 1][..i] == coords[..i];
      flattened := flattened * grid[i] + coords[i];
    }
    r := [flattened] + coords[m..];
  }

  /** The padding loop. */
  method PadWithZeros(coords: seq<int>, dims: nat) returns (r: seq<int>)
    ensures r == if |coords| < dims then coords + Repeated(0, dims - |coords|) else coords
  {
    r := coords;
    while |r| < dims
      invariant |coords| <= |r| && (|r| <= dims || r == coords)
      invariant r == coords + Repeated(0, |r| - |coords|)
    {
      r := r + [0];
    }
  }

  /** `core(dims)` on core number `cid`. */
  method Core(grid: seq<int>, cid: int, dims: nat) returns (coords: seq<int>)
    requires IsShape(grid) && 0 <= cid < Product(grid) && dims > 0
    ensures IsShape(CoreShape(grid, dims)) && coords == Digits(CoreShape(grid, dims), cid)
  {
    CoreShapeIsShape(grid, dims);
    coords := GridCoordinates(grid, cid);
    if dims < |coords| {
      DigitsMerged(grid, cid, |coords| - dims + 1);
      coords := FlattenLeading(grid, coords, dims);
    } else {
      DigitsPadded(grid, cid, dims - |grid|);
    }
    coords := PadWithZeros(coords, dims);
    assert Repeated(0, 0) == [];
  }

  /** `flatten_core_index` on a tuple; indexing the grid past its rank raises. */
  method FlattenCoreIndex(grid: seq<int>, coords: seq<int>) returns (linear: Option<int>)
    requires coords != []
    ensures linear == if |coords| <= |grid| || |coords| == 1 then
                        Some(if |coords| == 1 then coords[0] else Flatten(grid, coords))
                      else None
  {
    var total := coords[0];
    for i := 1 to |coords|
      invariant i == 1 ==> total == coords[0]
      invariant i > 1 ==> i <= |grid| && total == Flatten(grid, coords[..i])
    {
      if i >= |grid| {
        return None;
      }
      assert coords[..i + 1][..i] == coords[..i];
      total := total * grid[i] + coords[i];
    }
    assert coords[..|coords|] == coords;
    return Some(total);
  }

  /** `grid_size`; a `dims` that is not positive raises. */
  method GridSize(grid: seq<int>, dims: int) returns (shape: Option<seq<int>>)
    ensures shape == if dims <= 0 then None else Some(GridShape(grid, dims))
  {
    if dims <= 0 {
      return None;
    }
    if dims == |grid| {
      assert grid == GridShape(grid, dims);
      return Some(grid);
    } else if dims < |grid| {
      var first := dims - 1;
      var flattened := 1;
      for i := first to |grid|
        invariant flattened == Product(grid[first..i])
      {
        assert grid[first..i + 1][..i - first] == grid[first..i];
        flattened := flattened * grid[i];
      }
      assert grid[first..|grid|] == grid[first..];
      return Some(grid[..first] + [flattened]);
    } else {
      return Some(grid + Repeated(1, dims - |grid|));
    }
  }

  /** A core's coordinates in any rank determine it, and every coordinate of that rank's shape
      belongs to a core. */
  lemma CoordinatesAreABijection(grid: seq<int>, dims: nat)
    requires IsShape(grid) && dims > 0
    ensures var shape := CoreShape(grid, dims);
            && IsShape(shape)
            && (forall c :: 0 <= c < Product(grid) ==>
                  InBox(shape, Digits(shape, c)) && Flatten(shape, Digits(shape, c)) == c)
            && (forall t :: InBox(shape, t) ==>
                  0 <= Flatten(shape, t) < Product(grid) && Digits(shape, Flatten(shape, t)) == t)
  {
    CoreShapeIsShape(grid, dims);
    var shape := CoreShape(grid, dims);
    forall c | 0 <= c < Product(grid)
      ensures InBox(shape, Digits(shape, c)) && Flatten(shape, Digits(shape, c)) == c
    {
      FlattenDigits(shape, c);
      DigitsInBox(shape, c);
    }
    forall t | InBox(shape, t)
      ensures 0 <= Flatten(shape, t) < Product(grid) && Digits(shape, Flatten(shape, t)) == t
    {
      DigitsFlatten(shape, t);
    }
  }

  // ----- When the two shapes agree -----

  ghost predicate AllOnes(grid: seq<int>, from: nat, to: nat) {
    forall i :: from <= i < to && i < |grid| ==> grid[i] == 1
  }

  lemma {:induction false} ProductAtLeast(s: seq<int>, i: nat)
    requires AllPositive(s) && i < |s|
    ensures Product(s) >= s[i]
    ensures Product(s) == s[i] <==> AllOnes(s, 0, i) && AllOnes(s, i + 1, |s|)
    decreases |s|, 0
  {
    var k := |s| - 1;
    var init := s[..k];
    ProductPositive(init);
    if i == k {
      OnesIffProduct(init);
      MulMonotone(1, Product(init), s[k]);
      MulMonotone(2, Product(init), s[k]);
    } else {
      ProductAtLeast(init, i);
      ProductGrows(Product(init), s[k]);
    }
  }

  lemma ProductGrows(p: int, f: int)
    requires p > 0 && f > 0
    ensures p * f >= p && (p * f == p <==> f == 1)
  {
    MulMonotone(2, f, p);
  }

  lemma {:induction false} OnesIffProduct(s: seq<int>)
    requires AllPositive(s)
    ensures Product(s) == 1 <==> AllOnes(s, 0, |s|)
    decreases |s|, 1
  {
    if s != [] {
      ProductAtLeast(s, 0);
    }
  }

  /** Entry by entry, for a rank below the grid's. */
  lemma ShapeEntries(grid: seq<int>, dims: nat)
    requires 1 < dims < |grid|
    ensures var shift := |grid| - dims;
            && |CoreShape(grid, dims)| == |GridShape(grid, dims)| == dims
            && CoreShape(grid, dims)[0] == Product(grid[..shift + 1]) && GridShape(grid, dims)[0] == grid[0]
            && CoreShape(grid, dims)[dims - 1] == grid[|grid| - 1]
            && GridShape(grid, dims)[dims - 1] == Product(grid[dims - 1..])
            && forall j :: 1 <= j < dims - 1 ==>
                 CoreShape(grid, dims)[j] == grid[shift + j] && GridShape(grid, dims)[j] == grid[j]
  {
  }

  /** The two shapes agree for one dimension, from the grid's rank on, and when only the outer
      sizes of the grid exceed one. */
  lemma ShapesAgree(grid: seq<int>, dims: nat)
    requires IsShape(grid) && dims > 0
    ensures CoreShape(grid, dims) == GridShape(grid, dims)
            <==> dims == 1 || dims >= |grid| || AllOnes(grid, 1, |grid| - 1)
  {
    if dims == 1 && dims < |grid| {
      assert grid[..|grid|] == grid && grid[0..] == grid;
    } else if dims < |grid| {
      ShapeEntries(grid, dims);
      MergedOnes(grid, dims);
      if CoreShape(grid, dims) == GridShape(grid, dims) {
        OnesSpread(grid, dims, |grid| - 1);
      }
    }
  }

  lemma MergedOnes(grid: seq<int>, dims: nat)
    requires IsShape(grid) && 1 < dims < |grid|
    ensures Product(grid[..|grid| - dims + 1]) == grid[0] <==> AllOnes(grid, 1, |grid| - dims + 1)
    ensures Product(grid[dims - 1..]) == grid[|grid| - 1] <==> AllOnes(grid, dims - 1, |grid| - 1)
  {
    var front, back := grid[..|grid| - dims + 1], grid[dims - 1..];
    ProductAtLeast(front, 0);
    ProductAtLeast(back, |back| - 1);
    assert AllOnes(front, 1, |front|) <==> AllOnes(grid, 1, |grid| - dims + 1);
    assert forall i :: dims - 1 <= i < |grid| ==> grid[i] == back[i - (dims - 1)];
    assert AllOnes(back, 0, |back| - 1) <==> AllOnes(grid, dims - 1, |grid| - 1);
  }

  lemma {:induction false} OnesSpread(grid: seq<int>, dims: nat, to: nat)
    requires IsShape(grid) && 1 < dims < |grid| && to <= |grid| - 1
    requires AllOnes(grid, 1, |grid| - dims + 1)
    requires forall j :: 1 <= j < dims - 1 ==> grid[|grid| - dims + j] == grid[j]
    ensures AllOnes(grid, 1, to)
  {
    if to > |grid| - dims + 1 {
      OnesSpread(grid, dims, to - 1);
      var j := to - 1 - (|grid| - dims);
      assert grid[|grid| - dims + j] == grid[j];
    }
  }
}
