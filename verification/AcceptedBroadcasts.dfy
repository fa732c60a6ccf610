/** Which broadcasts are accepted (lib/Dialect/TTL/Transforms/ConvertTTLToCompute.cpp), said of the
    sizes and the kind, and which element an accepted one reads. */
module AcceptedBroadcasts {
  import opened Fusion
  import opened LoopIndex
  import opened MixedRadix
  import opened Wrappers

  /** A size is kept, or is one and stretched. */
  predicate AxisFits(input: seq<int>, output: seq<int>, axis: nat)
    requires axis < |input| && axis < |output|
  {
    input[axis] == output[axis] || input[axis] == 1
  }

  /** The kind is right: it does not matter when nothing is stretched; otherwise it is `Row` exactly
      when only rows are, `Col` when only columns are, and so `Scalar` when both are. */
  predicate KindFits(kind: BcastType, input: seq<int>, output: seq<int>)
    requires |input| == |output| == 2
  {
    input == output || ((kind.Row? <==> input[1] == output[1]) && (kind.Col? <==> input[0] == output[0]))
  }

  lemma AcceptedIff(input: seq<int>, output: seq<int>, kind: BcastType)
    ensures LowerBcast(input, output, kind).Success? <==>
              && |input| == |output| == 2 && AxisFits(input, output, 0) && AxisFits(input, output, 1)
              && KindFits(kind, input, output)
  {
    if |input| == |output| == 2 {
      assert input == output <==> input[0] == output[0] && input[1] == output[1];
    }
  }

  /** The error is that of the first of these that fails. */
  lemma RefusedFor(input: seq<int>, output: seq<int>, kind: BcastType)
    requires LowerBcast(input, output, kind).Failure?
    ensures var e := LowerBcast(input, output, kind).error;
            && (e == NotRank2 <==> !(|input| == |output| == 2))
            && (e == RowsMustBeOne <==> |input| == |output| == 2 && !AxisFits(input, output, 0))
            && (e == ColsMustBeOne <==>
                  |input| == |output| == 2 && AxisFits(input, output, 0) && !AxisFits(input, output, 1))
            && (e == WrongBcastType <==>
                  |input| == |output| == 2 && AxisFits(input, output, 0) && AxisFits(input, output, 1)
                  && !KindFits(kind, input, output))
  {
    AcceptedIff(input, output, kind);
  }

  /** Sizes of one are read at zero, others in place. */
  function Stretched(input: seq<int>, ivs: seq<int>): seq<int>
    requires |input| == |ivs| == 2
  {
    [if input[0] == 1 then 0 else ivs[0], if input[1] == 1 then 0 else ivs[1]]
  }

  /** At every point of the output an accepted broadcast reads that element of its input. */
  lemma ReadsStretched(input: seq<int>, output: seq<int>, kind: BcastType, ivs: seq<int>)
    requires LowerBcast(input, output, kind).Success? && InBox(output, ivs)
    ensures ApplyMap(LowerBcast(input, output, kind).value, ivs) == Stretched(input, ivs)
  {
  }

  /** So does the tensor-level broadcast whose fused form reads in place. */
  lemma FusionReadsStretched(input: seq<int>, output: seq<int>, kind: BcastType, d: Def, i: Index)
    requires LowerBcast(input, output, kind).Success? && d.Bcast?
    requires (d.expandRows <==> input[0] != output[0]) && (d.expandCols <==> input[1] != output[1])
    requires InBox(output, [i.row, i.col])
    ensures var source := BcastSource(d, i); [source.row, source.col] == Stretched(input, [i.row, i.col])
    ensures BcastSource(d, i) == i <==> (d.expandRows ==> i.row == 0) && (d.expandCols ==> i.col == 0)
  {
    assert [i.row, i.col][0] == i.row && [i.row, i.col][1] == i.col;
  }

  /** The index that lowering a tile broadcast chooses, whether or not it was accepted: a column
      read down its rows, a row along its columns, a scalar at zero as soon as either size grows;
      where nothing grows, the place in the loops' own order. */
  lemma ChosenByKind(kind: BcastType, input: seq<int>, output: seq<int>, loops: seq<Loop>)
    requires |input| == |output| == 2 && |loops| >= 2
    ensures var index := ChosenIndex(kind, input, output, loops);
            var rows, cols := output[0] > input[0], output[1] > input[1];
            && (kind.Col? && cols ==> index == loops[1].iv)
            && (kind.Row? && rows ==> index == loops[0].iv)
            && (kind.Scalar? && (rows || cols) ==> index == 0)
            && ((kind.Col? ==> !cols) && (kind.Row? ==> !rows) && (kind.Scalar? ==> !rows && !cols) ==>
                  index == loops[1].iv * loops[0].ub + loops[0].iv)
  {
  }
}
