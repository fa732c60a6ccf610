/** How evenly examples/eltwise_add.py divides its tensor: the largest share is as small as a division
    of rows and of columns can make it, and all but the last cores in each direction have it. */
module ShareLoads {
  import opened ElementwiseShares
  import opened MixedRadix

  lemma CeilDivBelow(n: nat, d: Positive)
    ensures CeilDiv(n, d) > 0 ==> d * (CeilDiv(n, d) - 1) < n
  {
  }

  /** The quotient is the least number of indices a part with which d parts hold all n. */
  lemma CeilDivIsLeast(n: nat, d: Positive, q: nat)
    ensures d * q >= n <==> q >= CeilDiv(n, d)
  {
    var least := CeilDiv(n, d);
    CeilDivBelow(n, d);
    if q < least {
      MulMonotone(q, least - 1, d);
    } else {
      MulMonotone(least, q, d);
    }
  }

  function Sum(loads: seq<nat>): nat {
    if loads == [] then 0 else Sum(loads[..|loads| - 1]) + loads[|loads| - 1]
  }

  lemma {:induction false} SumBelow(loads: seq<nat>, q: nat)
    requires forall i :: 0 <= i < |loads| ==> loads[i] <= q
    ensures Sum(loads) <= |loads| * q
  {
    if loads != [] {
      var k := |loads| - 1;
      SumBelow(loads[..k], q);
      assert k * q + q == |loads| * q;
    }
  }

  /** However n indices are divided among d parts, some part has at least that many. */
  lemma NoBetterDivision(loads: seq<nat>, n: nat, d: Positive)
    requires |loads| == d && Sum(loads) == n
    ensures exists i :: 0 <= i < d && loads[i] >= CeilDiv(n, d)
  {
    var least := CeilDiv(n, d);
    if forall i :: 0 <= i < d ==> loads[i] < least {
      assert loads[0] < least;
      SumBelow(loads, least - 1);
      CeilDivIsLeast(n, d, least - 1);
      assert false;
    }
  }

  /** What part k has: the least number if it ends inside the tensor, else what is left. */
  lemma PartLoad(n: nat, d: Positive, k: nat)
    ensures var per := CeilDiv(n, d);
            Extent(per, k, n) == if (k + 1) * per <= n then per else if k * per < n then n - k * per else 0
  {
    var per := CeilDiv(n, d);
    assert (k + 1) * per == k * per + per;
  }

  /** So a part is full if the next one has anything. */
  lemma FullBeforeLast(n: nat, d: Positive, k: nat)
    requires Extent(CeilDiv(n, d), k + 1, n) > 0
    ensures Extent(CeilDiv(n, d), k, n) == CeilDiv(n, d)
  {
    var per := CeilDiv(n, d);
    assert (k + 1) * per == k * per + per;
  }

  /** No core has more blocks than the least numbers of rows and columns make. */
  lemma LargestShare(l: Layout, core: nat, rows: nat, cols: nat)
    requires l.gridRows * rows >= l.rows && l.gridCols * cols >= l.cols
    ensures ShareRows(l, CoreRow(l, core)) <= rows && ShareCols(l, CoreCol(l, core)) <= cols
    ensures |ShareOf(l, core)| <= rows * cols
  {
    CeilDivIsLeast(l.rows, l.gridRows, rows);
    CeilDivIsLeast(l.cols, l.gridCols, cols);
    var n, m := ShareRows(l, CoreRow(l, core)), ShareCols(l, CoreCol(l, core));
    MulMonotone(n, rows, m);
    MulMonotone(m, cols, rows);
  }

  /** When the grid divides the tensor all cores have equally many. */
  lemma EvenShares(l: Layout, rows: nat, cols: nat, core: nat)
    requires l.rows == l.gridRows * rows && l.cols == l.gridCols * cols && core < l.gridCols * l.gridRows
    ensures ShareRows(l, CoreRow(l, core)) == rows && ShareCols(l, CoreCol(l, core)) == cols
    ensures |ShareOf(l, core)| == rows * cols
  {
    CoordinatesOf(l, core);
    EvenParts(l.gridRows, rows, CoreRow(l, core));
    EvenParts(l.gridCols, cols, CoreCol(l, core));
  }

  lemma EvenParts(d: Positive, q: nat, k: nat)
    requires k < d
    ensures 0 <= d * q && Extent(CeilDiv(d * q, d), k, d * q) == q
  {
    MulMonotone(0, d, q);
    var n: nat := d * q;
    CeilDivIsLeast(n, d, q);
    if CeilDiv(n, d) < q {
      CeilDivIsLeast(n, d, q - 1);
    }
    PartLoad(n, d, k);
    MulMonotone(k + 1, d, q);
  }
}
