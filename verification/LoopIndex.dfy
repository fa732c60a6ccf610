/** From compute operations to loops and buffer indices: the loop nest and index maps of
    lib/Dialect/TTL/Transforms/ConvertTTLComputeToSCF.cpp, the linearised tile index of
    include/ttlang/Dialect/Utils/ConversionUtils.h, and the broadcast index chosen by
    lib/Dialect/TTL/Transforms/ConvertTTLTileOpsToTTKernel.cpp. */
module LoopIndex {
  import opened Fusion
  import opened MixedRadix
  import opened Wrappers

  /** A loop around the operation, at its current index. */
  datatype Loop = Loop(iv: int, lb: int, ub: int, step: int)

  /** `collectEnclosingLoops` lists loops innermost first; these list them outermost first. */
  function UpperBounds(loops: seq<Loop>): seq<int> {
    seq(|loops|, i requires 0 <= i < |loops| => loops[|loops| - 1 - i].ub)
  }

  function InductionVars(loops: seq<Loop>): seq<int> {
    seq(|loops|, i requires 0 <= i < |loops| => loops[|loops| - 1 - i].iv)
  }

  function RowMajor(shape: seq<int>, coords: seq<int>): int
    requires |coords| <= |shape|
  {
    if coords == [] then 0 else Flatten(shape, coords)
  }

  lemma {:induction false} ProductHead(s: seq<int>)
    requires s != []
    ensures Product(s) == s[0] * Product(s[1..])
    decreases |s|
  {
    var k := |s| - 1;
    if k == 0 {
      assert s[..0] == [] && s[1..] == [];
    } else {
      ProductHead(s[..k]);
      assert s[..k][1..] == s[1..][..k - 1];
      assert Product(s) == s[0] * Product(s[1..][..k - 1]) * s[k];
      MulAssociates(s[0], Product(s[1..][..k - 1]), s[k]);
    }
  }

  lemma MulAssociates(a: int, b: int, c: int)
    ensures a * b * c == a * (b * c)
  {
  }

  lemma ProductNext(s: seq<int>, n: nat)
    requires n < |s|
    ensures Product(s[..n + 1]) == Product(s[..n]) * s[n]
  {
    assert s[..n + 1][..n] == s[..n];
  }

  lemma RowMajorStep(ubs: seq<int>, ivs: seq<int>, i: nat)
    requires i < |ivs| == |ubs|
    ensures RowMajor(ubs, ivs[..i]) * Product(ubs[i..]) + ivs[i] * Product(ubs[i + 1..])
            == RowMajor(ubs, ivs[..i + 1]) * Product(ubs[i + 1..])
  {
    ProductHead(ubs[i..]);
    var before, rest := RowMajor(ubs, ivs[..i]), Product(ubs[i + 1..]);
    assert ubs[i..][1..] == ubs[i + 1..];
    assert ivs[..i + 1][..i] == ivs[..i];
    MulAssociates(before, ubs[i], rest);
    assert (before * ubs[i] + ivs[i]) * rest == before * ubs[i] * rest + ivs[i] * rest;
  }

  /** The product of the bounds of the loops inside the i-th. */
  method Stride(loops: seq<Loop>, i: nat) returns (stride: int)
    requires i < |loops|
    ensures stride == Product(UpperBounds(loops)[i + 1..])
  {
    stride := 1;
    ghost var inner := UpperBounds(loops)[i + 1..];
    for j := i + 1 to |loops|
      invariant stride == Product(inner[..j - (i + 1)])
    {
      ProductNext(inner, j - (i + 1));
      stride := stride * loops[|loops| - 1 - j].ub;
    }
    assert inner[..|inner|] == inner;
  }

  /** `linearizeLoopIndices`: a term per loop, each with its own stride product. */
  method LinearizeLoopIndices(loops: seq<Loop>) returns (result: int)
    ensures result == RowMajor(UpperBounds(loops), InductionVars(loops))
  {
    if loops == [] {
      return 0;
    }
    ghost var ubs, ivs := UpperBounds(loops), InductionVars(loops);
    result := 0;
    for i := 0 to |loops|
      invariant result == RowMajor(ubs, ivs[..i]) * Product(ubs[i..])
    {
      var stride := Stride(loops, i);
      RowMajorStep(ubs, ivs, i);
      result := result + loops[|loops| - 1 - i].iv * stride;
    }
    assert ivs[..|loops|] == ivs;
    assert Product(ubs[|loops|..]) == 1;
  }

  /** The innermost loops that count for a buffer of the given rank; rank 0 means all. */
  function Kept(enclosing: seq<Loop>, cbShapeRank: nat): seq<Loop> {
    if 0 < cbShapeRank < |enclosing| then enclosing[..cbShapeRank] else enclosing
  }

  /** `computeCBTileIndexFromLoops`, which asserts unit steps from zero of the loops it keeps. */
  method ComputeCBTileIndexFromLoops(enclosing: seq<Loop>, cbShapeRank: nat) returns (index: int)
    requires forall l :: l in Kept(enclosing, cbShapeRank) ==> l.lb == 0 && l.step == 1
    ensures var loops := Kept(enclosing, cbShapeRank);
            index == RowMajor(UpperBounds(loops), InductionVars(loops))
  {
    var loops := enclosing;
    if cbShapeRank > 0 && |loops| > cbShapeRank {
      loops := loops[..cbShapeRank];
    }
    index := LinearizeLoopIndices(loops);
  }

  // ----- Iteration order -----

  lemma ConsDigits(bounds: seq<int>, i: int, m: int)
    requires IsShape(bounds) && 0 <= i < bounds[0] && 0 <= m < Product(bounds[1..])
    ensures Digits(bounds, i * Product(bounds[1..]) + m) == [i] + Digits(bounds[1..], m)
  {
    DigitsInBox(bounds[1..], m);
    RowMajorDigits(bounds[1..], m);
    ConsDigitsOf(bounds, i, m, Digits(bounds[1..], m));
  }

  lemma ConsDigitsOf(bounds: seq<int>, i: int, m: int, digits: seq<int>)
    requires IsShape(bounds) && 0 <= i < bounds[0] && InBox(bounds[1..], digits)
    requires RowMajor(bounds[1..], digits) == m
    ensures Digits(bounds, i * Product(bounds[1..]) + m) == [i] + digits
  {
    ConsFlattens(bounds, i, digits);
    DigitsFlatten(bounds, [i] + digits);
  }

  lemma ConsFlattens(bounds: seq<int>, i: int, digits: seq<int>)
    requires IsShape(bounds) && 0 <= i < bounds[0] && InBox(bounds[1..], digits)
    ensures InBox(bounds, [i] + digits)
    ensures Flatten(bounds, [i] + digits) == i * Product(bounds[1..]) + RowMajor(bounds[1..], digits)
  {
    FlattenCons(bounds, [i] + digits);
    assert ([i] + digits)[1..] == digits;
  }

  lemma RowMajorDigits(shape: seq<int>, n: int)
    requires AllPositive(shape) && 0 <= n < Product(shape)
    ensures |Digits(shape, n)| == |shape| && RowMajor(shape, Digits(shape, n)) == n
  {
    DigitsInBox(shape, n);
    if shape != [] {
      FlattenDigits(shape, n);
    }
  }

  lemma {:induction false} FlattenCons(shape: seq<int>, coords: seq<int>)
    requires |coords| == |shape| > 0
    ensures Flatten(shape, coords) == coords[0] * Product(shape[1..]) + RowMajor(shape[1..], coords[1..])
    decreases |shape|
  {
    var k := |shape| - 1;
    if k == 0 {
      assert shape[1..] == [] && coords[1..] == [];
    } else {
      var s, c := shape[..k], coords[..k];
      FlattenCons(s, c);
      FlattenPrefix(s, shape, c);
      assert s[1..] == shape[1..][..k - 1] && c[1..] == coords[1..][..k - 1];
      if k > 1 {
        FlattenPrefix(s[1..], shape[1..], c[1..]);
      }
      MulAssociates(coords[0], Product(s[1..]), shape[k]);
      assert (coords[0] * Product(s[1..]) + RowMajor(s[1..], c[1..])) * shape[k]
          == coords[0] * Product(s[1..]) * shape[k] + RowMajor(s[1..], c[1..]) * shape[k];
    }
  }

  /** The k-th point is the k-th in row-major order, after a common prefix. */
  ghost predicate InOrder(points: seq<seq<int>>, prefix: seq<int>, shape: seq<int>) {
    AllPositive(shape) ==> forall k :: 0 <= k < |points| ==> points[k] == prefix + Digits(shape, k)
  }

  lemma {:induction false} NoPoints(bounds: seq<nat>)
    ensures Product(bounds) >= 0 && (Product(bounds) > 0 <==> AllPositive(bounds))
    decreases |bounds|
  {
    if bounds != [] {
      var k := |bounds| - 1;
      NoPoints(bounds[..k]);
      MulMonotone(1, Product(bounds[..k]), bounds[k]);
      assert AllPositive(bounds) <==> AllPositive(bounds[..k]) && bounds[k] > 0;
    }
  }

  /** The loop nest: the induction variables at each execution of its body, in order.  A bound of
      zero leaves none. */
  method RunLoopNest(bounds: seq<nat>, ivs: seq<int>, visited: seq<seq<int>>) returns (all: seq<seq<int>>)
    ensures |all| == |visited| + Product(bounds) && visited <= all
    ensures InOrder(all[|visited|..], ivs, bounds)
    decreases |bounds|
  {
    NoPoints(bounds);
    if bounds == [] {
      all := visited + [ivs];
      assert all[|visited|..] == [ivs] && ivs + [] == ivs;
      return;
    }
    NoPoints(bounds[1..]);
    ghost var row := Product(bounds[1..]);
    ProductHead(bounds);
    all := visited;
    var i := 0;
    while i < bounds[0]
      invariant 0 <= i <= bounds[0] && visited <= all
      invariant |all| == |visited| + i * row
      invariant InOrder(all[|visited|..], ivs, bounds)
    {
      ghost var before := all;
      all := RunLoopNest(bounds[1..], ivs + [i], all);
      if AllPositive(bounds) {
        OneMoreRow(before[|visited|..], all[|before|..], ivs, bounds, i);
      }
      assert all[|visited|..] == before[|visited|..] + all[|before|..];
      i := i + 1;
    }
  }

  lemma OneMoreRow(done: seq<seq<int>>, row: seq<seq<int>>, ivs: seq<int>, bounds: seq<int>, i: int)
    requires IsShape(bounds) && 0 <= i < bounds[0]
    requires |done| == i * Product(bounds[1..]) && |row| == Product(bounds[1..])
    requires InOrder(done, ivs, bounds) && InOrder(row, ivs + [i], bounds[1..])
    ensures InOrder(done + row, ivs, bounds)
    ensures |done + row| == (i + 1) * Product(bounds[1..])
  {
    forall k | 0 <= k < |done + row|
      ensures (done + row)[k] == ivs + Digits(bounds, k)
    {
      if k >= |done| {
        RowPoint(row, ivs, bounds, i, k - |done|);
      }
    }
  }

  lemma ConcatAssociates(a: seq<int>, b: seq<int>, c: seq<int>)
    ensures a + b + c == a + (b + c)
  {
  }

  lemma RowPoint(row: seq<seq<int>>, ivs: seq<int>, bounds: seq<int>, i: int, m: nat)
    requires IsShape(bounds) && 0 <= i < bounds[0] && m < |row| == Product(bounds[1..])
    requires InOrder(row, ivs + [i], bounds[1..])
    ensures row[m] == ivs + Digits(bounds, i * Product(bounds[1..]) + m)
  {
    ConsDigits(bounds, i, m);
    ConcatAssociates(ivs, [i], Digits(bounds[1..], m));
  }

  /** At any rank, the linearised index of the k-th execution of the nest's body is k. */
  lemma LinearIndexCounts(bounds: seq<int>, points: seq<seq<int>>, k: nat)
    requires AllPositive(bounds)
    requires InOrder(points, [], bounds) && k < |points| == Product(bounds)
    ensures |points[k]| == |bounds| && RowMajor(bounds, points[k]) == k
  {
    assert points[k] == [] + Digits(bounds, k) == Digits(bounds, k);
    RowMajorDigits(bounds, k);
  }

  // ----- Iteration domain -----

  /** A dimension of a tensor type: a size, or unknown. */
  type Dim = Option<nat>

  predicate IsStatic(shape: seq<Dim>) {
    forall i :: 0 <= i < |shape| ==> shape[i].Some?
  }

  function Sizes(shape: seq<Dim>): seq<int>
    requires IsStatic(shape)
  {
    seq(|shape|, i requires 0 <= i < |shape| => shape[i].value)
  }

  function Static(sizes: seq<nat>): seq<Dim> {
    seq(|sizes|, i requires 0 <= i < |sizes| => Some(sizes[i]))
  }

  /** What the comparison counts: none when some dimension is unknown. */
  function Elements(shape: seq<Dim>): int {
    if IsStatic(shape) then Product(Sizes(shape)) else 0
  }

  /** `getTotalElements`. */
  method GetTotalElements(shape: seq<Dim>) returns (total: int)
    ensures total == Elements(shape)
  {
    total := 1;
    for i := 0 to |shape|
      invariant IsStatic(shape[..i]) && total == Product(Sizes(shape[..i]))
    {
      if shape[i].None? {
        return 0;
      }
      assert shape[..i + 1][i] == shape[i];
      assert Sizes(shape[..i + 1])[..i] == Sizes(shape[..i]);
      total := total * shape[i].value;
    }
    assert shape[..|shape|] == shape;
  }

  predicate WiderThan(a: seq<Dim>, b: seq<Dim>) {
    |a| > |b| || (|a| == |b| && Elements(a) > Elements(b))
  }

  /** shapes[k] is the first that no other exceeds. */
  ghost predicate IsWidest(shapes: seq<seq<Dim>>, k: nat) {
    && k < |shapes|
    && (forall j: nat | j < |shapes| :: !WiderThan(shapes[j], shapes[k]))
    && (forall j: nat | j < k :: WiderThan(shapes[k], shapes[j]))
  }

  /** A shape that the search starts above: rank zero has one element. */
  lemma BeatsNothing(shape: seq<Dim>)
    ensures |shape| > 0 || Elements(shape) > 0
  {
    assert shape == [] ==> Sizes(shape) == [];
  }

  /** `getIterationDomain` over the shapes of a compute's operands: the first of those that no
      other exceeds in rank, or in elements at the same rank; unknown dimensions of it are asked
      for at run time. */
  method GetIterationDomain(shapes: seq<seq<Dim>>) returns (domain: seq<Dim>)
    ensures shapes == [] ==> domain == []
    ensures shapes != [] ==> exists k: nat :: IsWidest(shapes, k) && domain == shapes[k]
  {
    if shapes == [] {
      return [];
    }
    var maxRank, maxElements, best := 0, 0, 0;
    for i := 0 to |shapes|
      invariant i == 0 ==> maxRank == 0 && maxElements == 0
      invariant i > 0 ==> best < i && maxRank == |shapes[best]| && maxElements == Elements(shapes[best])
      invariant i > 0 ==> forall j: nat | j < i :: !WiderThan(shapes[j], shapes[best])
      invariant i > 0 ==> forall j: nat | j < best :: WiderThan(shapes[best], shapes[j])
    {
      BeatsNothing(shapes[i]);
      var rank := |shapes[i]|;
      var elements := GetTotalElements(shapes[i]);
      if rank > maxRank || (rank == maxRank && elements > maxElements) {
        maxRank, maxElements, best := rank, elements, i;
      }
    }
    assert IsWidest(shapes, best);
    domain := shapes[best];
  }

  // ----- Broadcasts outside fused computes -----

  /** A result of a two-dimensional affine map: a loop index or the constant zero. */
  datatype AxisExpr = LoopDim(dim: nat) | Zero

  datatype BcastError = NotRank2 | RowsMustBeOne | ColsMustBeOne | WrongBcastType

  /** `buildBcastInputMap`. */
  function BcastInputMap(expandRows: bool, expandCols: bool): seq<AxisExpr> {
    if expandRows && expandCols then [Zero, Zero]
    else if expandCols then [LoopDim(0), Zero]
    else if expandRows then [Zero, LoopDim(1)]
    else [LoopDim(0), LoopDim(1)]
  }

  /** `validateBcastExpansion`. */
  predicate ExpansionFits(kind: BcastType, expandRows: bool, expandCols: bool) {
    if expandRows && expandCols then kind == Scalar
    else if expandCols then kind == Col
    else if expandRows then kind == Row
    else true
  }

  /** `LowerBcastToCompute`: the input's indexing map, or the first check that fails. */
  function LowerBcast(input: seq<int>, output: seq<int>, kind: BcastType): Result<seq<AxisExpr>, BcastError> {
    if |input| != 2 || |output| != 2 then Failure(NotRank2)
    else
      var expandRows, expandCols := input[0] != output[0], input[1] != output[1];
      if expandRows && input[0] != 1 then Failure(RowsMustBeOne)
      else if expandCols && input[1] != 1 then Failure(ColsMustBeOne)
      else if !ExpansionFits(kind, expandRows, expandCols) then Failure(WrongBcastType)
      else Success(BcastInputMap(expandRows, expandCols))
  }

  /** `applyIndexingMap`. */
  function ApplyMap(exprs: seq<AxisExpr>, ivs: seq<int>): (r: seq<int>)
    requires forall k :: 0 <= k < |exprs| ==> exprs[k].LoopDim? ==> exprs[k].dim < |ivs|
    ensures |r| == |exprs|
  {
    seq(|exprs|, k requires 0 <= k < |exprs| => if exprs[k].LoopDim? then ivs[exprs[k].dim] else 0)
  }

  /** `hasBcastShapeExpansion` on known shapes. */
  predicate HasShapeExpansion(kind: BcastType, input: seq<int>, output: seq<int>)
    requires |input| == |output| == 2
  {
    match kind
    case Col => input[1] < output[1]
    case Row => input[0] < output[0]
    case Scalar => input[0] < output[0] || input[1] < output[1]
  }

  /** `computeBcastShapeExpansionIndex`; loops are innermost first. */
  function ExpansionIndex(kind: BcastType, loops: seq<Loop>): int {
    if |loops| < 2 then 0
    else
      match kind
      case Col => loops[1].iv
      case Row => loops[0].iv
      case Scalar => 0
  }

  /** The input buffer index that lowering a tile broadcast chooses. */
  function ChosenIndex(kind: BcastType, input: seq<int>, output: seq<int>, loops: seq<Loop>): int
    requires |input| == |output| == 2 && |loops| >= 2
  {
    if HasShapeExpansion(kind, input, output) then ExpansionIndex(kind, loops)
    else loops[1].iv * loops[0].ub + loops[0].iv
  }

  /** The choice in `TTLTileBcastToTTKernel`. */
  method ChooseInputIndex(kind: BcastType, input: seq<int>, output: seq<int>, loops: seq<Loop>) returns (index: int)
    requires |input| == |output| == 2 && |loops| >= 2
    requires loops[0].lb == loops[1].lb == 0 && loops[0].step == loops[1].step == 1
    ensures index == ChosenIndex(kind, input, output, loops)
  {
    if HasShapeExpansion(kind, input, output) {
      index := ExpansionIndex(kind, loops);
    } else {
      ghost var inner := Kept(loops, 2);
      assert inner == [loops[0], loops[1]];
      index := ComputeCBTileIndexFromLoops(loops, 2);
      ghost var ubs, ivs := UpperBounds(inner), InductionVars(inner);
      assert ivs[..1] == [loops[1].iv];
      assert Flatten(ubs, ivs) == Flatten(ubs, ivs[..1]) * ubs[1] + ivs[1];
    }
  }

  /** Two loops for the output's rows and columns, inside any others. */
  predicate NestedIn(loops: seq<Loop>, output: seq<int>, ivs: seq<int>)
    requires |output| == |ivs| == 2
  {
    && |loops| >= 2
    && loops[0] == Loop(ivs[1], 0, output[1], 1) && loops[1] == Loop(ivs[0], 0, output[0], 1)
  }

  /** The two lowerings agree: for an accepted broadcast, every loop iteration reads in bounds, and
      the buffer index chosen is the row-major index of the tile that the indexing map reads. */
  lemma BcastIndexAgrees(kind: BcastType, input: seq<int>, output: seq<int>, loops: seq<Loop>, ivs: seq<int>)
    requires AllPositive(input) && AllPositive(output) && LowerBcast(input, output, kind).Success?
    requires InBox(output, ivs) && NestedIn(loops, output, ivs)
    ensures var mapped := ApplyMap(LowerBcast(input, output, kind).value, ivs);
            && InBox(input, mapped)
            && ChosenIndex(kind, input, output, loops) == Flatten(input, mapped)
  {
    var mapped := ApplyMap(LowerBcast(input, output, kind).value, ivs);
    assert mapped[..1] == [mapped[0]];
    assert Flatten(input, mapped) == mapped[0] * input[1] + mapped[1];
  }

  /** The loops run over the output's shape. */
  lemma BcastDomainIsOutput(kind: BcastType, input: seq<nat>, output: seq<nat>, k: nat)
    requires AllPositive(input) && AllPositive(output) && LowerBcast(input, output, kind).Success?
    requires IsWidest([Static(input), Static(output), Static(output)], k)
    ensures [Static(input), Static(output), Static(output)][k] == Static(output)
  {
    var shapes := [Static(input), Static(output), Static(output)];
    assert !WiderThan(shapes[1], shapes[k]);
    assert Sizes(Static(input)) == input && Sizes(Static(output)) == output;
    assert Product(input[..1]) == input[0] && Product(output[..1]) == output[0] by {
      assert input[..1][..0] == [] && output[..1][..0] == [];
    }
    if shapes[k] == Static(input) {
      LargerAreas(input[0], input[1], output[0], output[1]);
    }
  }

  lemma LargerAreas(a: int, b: int, c: int, d: int)
    requires 0 < a <= c && 0 < b <= d && a * b >= c * d
    ensures a == c && b == d
  {
    MulMonotone(a, c, b);
    MulMonotone(b, d, c);
    if a < c {
      MulMonotone(a + 1, c, b);
    }
    if b < d {
      MulMonotone(b + 1, d, c);
    }
  }
}
