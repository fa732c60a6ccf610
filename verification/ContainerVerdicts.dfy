/** What the two-loop proof of lib/Dialect/TTL/IR/TTLOpsVerifyUtils.cpp accepts, said of the loops'
    indices and of the operations around them. */
module ContainerVerdicts {
  import opened ContainerLoops
  import opened IterSpaces
  import opened TransferProgram
  import opened Wrappers

  /** The pattern: in loop l, insert o writes element l.iv of the typed tensor that is the loop's
      m-th result, and no earlier one; extract r reads that result at the index of its own loop, and
      wait w is inside that loop.  Both loops are `scf.for` with constant bounds. */
  ghost predicate IsPattern(p: Program, o: nat, l: nat, m: nat, r: nat, w: nat)
    requires WellFormed(p) && o < |p.ops|
  {
    && p.ops[o].Insert? && p.ops[o].result in p.typedTensors
    && ParentFor(p, o) == Some(l) && p.ops[o].indices == [p.ops[l].iv] && p.ops[l].bounds.Some?
    && m < |p.ops[l].yielded| && m < |p.ops[l].results| && p.ops[l].yielded[m] == p.ops[o].result
    && (forall k: nat | k < m :: p.ops[l].yielded[k] != p.ops[o].result)
    && r < |p.ops| && p.ops[r].Extract? && p.ops[r].tensor == p.ops[l].results[m]
    && ParentFor(p, r).Some?
    && var reader := ParentFor(p, r).value;
    && p.ops[r].indices == [p.ops[reader].iv] && p.ops[reader].bounds.Some?
    && w < |p.ops| && p.ops[w] == Wait(p.ops[r].result) && Inside(p, w, reader)
  }

  ghost predicate HasPattern(p: Program, o: nat)
    requires WellFormed(p) && o < |p.ops|
  {
    exists l: nat, m: nat, r: nat, w: nat :: IsPattern(p, o, l, m, r, w)
  }

  /** There is a verdict if and only if the pattern is there. */
  lemma VerdictIffPattern(p: Program, o: nat)
    requires WellFormed(p) && o < |p.ops|
    ensures ContainerVerdict(p, o).Some? <==> HasPattern(p, o)
  {
    if ContainerVerdict(p, o).Some? {
      var r: nat :| r < |p.ops| && IsReader(p, Container(p, o), r);
      var m, w := ReaderInPattern(p, o, r);
    }
    if HasPattern(p, o) {
      var l: nat, m: nat, r: nat, w: nat :| IsPattern(p, o, l, m, r, w);
      PatternHasReader(p, o, l, m, r, w);
    }
  }

  lemma ReaderInPattern(p: Program, o: nat, r: nat) returns (m: nat, w: nat)
    requires WellFormed(p) && o < |p.ops| && IsWriter(p, o) && r < |p.ops| && IsReader(p, Container(p, o), r)
    ensures IsPattern(p, o, ParentFor(p, o).value, m, r, w)
  {
    var l, reader := ParentFor(p, o).value, ParentFor(p, r).value;
    assert OpWellFormed(p, l);
    m := FirstIndex(p.ops[l].yielded, p.ops[o].result);
    assert WaitedInside(p, p.ops[r].result, reader);
    w :| w < |p.ops| && p.ops[w] == Wait(p.ops[r].result) && Inside(p, w, reader);
  }

  lemma PatternHasReader(p: Program, o: nat, l: nat, m: nat, r: nat, w: nat)
    requires WellFormed(p) && o < |p.ops| && IsPattern(p, o, l, m, r, w)
    ensures IsWriter(p, o) && IsReader(p, Container(p, o), r) && ContainerVerdict(p, o).Some?
  {
    assert p.ops[l].yielded[m] in p.ops[l].yielded;
    var first := FirstIndex(p.ops[l].yielded, p.ops[o].result);
    assert first == m;
    assert WaitedInside(p, p.ops[r].result, ParentFor(p, r).value);
    assert IsReader(p, Container(p, o), r);
  }

  /** A reader loop that starts where the writer does, both by steps of one, and misses nothing. */
  ghost predicate FollowsAlong(p: Program, o: nat, r: nat)
    requires WellFormed(p) && o < |p.ops| && IsWriter(p, o) && r < |p.ops| && IsReader(p, Container(p, o), r)
  {
    var write, read := BoundsAround(p, o), BoundsAround(p, r);
    && write.step == 1 && read.step == 1 && read.lb == write.lb
    && forall i :: Visits(write, i) ==> Visits(read, i)
  }

  /** For any number of reader loops, when the writer runs at all: the verdict is positive if and
      only if one of them starts where the writer does, both by steps of one, and visits every index
      that the writer does. */
  lemma PositiveIff(p: Program, o: nat)
    requires WellFormed(p) && o < |p.ops| && ContainerVerdict(p, o).Some? && Trips(BoundsAround(p, o)) > 0
    ensures ContainerVerdict(p, o) == Some(true) <==>
              exists r: nat :: r < |p.ops| && IsReader(p, Container(p, o), r) && FollowsAlong(p, o, r)
  {
    var tensor, write := Container(p, o), BoundsAround(p, o);
    forall r: nat | r < |p.ops| && IsReader(p, tensor, r)
      ensures FollowsAlong(p, o, r) <==> IsCoveringReader(p, tensor, write, r)
    {
      UnitLoopContains(BoundsAround(p, r), write);
    }
    if ContainerVerdict(p, o) == Some(true) {
      var r: nat :| r < |p.ops| && IsCoveringReader(p, tensor, write, r);
      assert FollowsAlong(p, o, r);
    } else if r: nat :| r < |p.ops| && IsReader(p, tensor, r) && FollowsAlong(p, o, r) {
      assert IsCoveringReader(p, tensor, write, r);
    }
  }

  /** A writer that never runs gets a positive verdict only from a reader whose end is not before
      its own. */
  lemma IdlePositiveIff(p: Program, o: nat)
    requires WellFormed(p) && o < |p.ops| && ContainerVerdict(p, o).Some? && Trips(BoundsAround(p, o)) == 0
    ensures ContainerVerdict(p, o) == Some(true) <==>
              exists r: nat :: r < |p.ops| && IsReader(p, Container(p, o), r) && FollowsAlong(p, o, r)
                               && BoundsAround(p, r).ub >= BoundsAround(p, o).ub
  {
    var tensor, write := Container(p, o), BoundsAround(p, o);
    if ContainerVerdict(p, o) == Some(true) {
      var r: nat :| r < |p.ops| && IsCoveringReader(p, tensor, write, r);
      NothingVisited(write);
      assert FollowsAlong(p, o, r);
    } else if r: nat :| r < |p.ops| && IsReader(p, tensor, r) && FollowsAlong(p, o, r)
                        && BoundsAround(p, r).ub >= BoundsAround(p, o).ub {
      assert IsCoveringReader(p, tensor, write, r);
    }
  }

  lemma NothingVisited(s: IterSpace)
    requires Trips(s) == 0
    ensures forall i :: !Visits(s, i)
  {
    forall i
      ensures !Visits(s, i)
    {
      if Visits(s, i) {
        var k := VisitedIsNth(s, i);
      }
    }
  }

  /** Of two loops by steps of one from the same start, one contains the other exactly when it does
      not end before it. */
  lemma UnitLoopContains(read: IterSpace, write: IterSpace)
    requires Trips(write) > 0
    ensures read.step == 1 && write.step == 1 && read.lb == write.lb ==>
              ((forall i :: Visits(write, i) ==> Visits(read, i)) <==> read.ub >= write.ub)
  {
    if read.step == 1 && write.step == 1 && read.lb == write.lb {
      assert Visits(write, write.ub - 1);
    }
  }

  /** One reader loop that is longer than the writer is enough. */
  lemma LongerReaderCovers(n: nat, more: nat)
    requires n > 0
    ensures var p := TwoLoops(IterSpace(0, n, 1), IterSpace(0, n + more, 1), 3, ONCE);
            WellFormed(p) && ContainerVerdict(p, 2) == Some(true)
  {
    TwoLoopsVerdict(IterSpace(0, n, 1), IterSpace(0, n + more, 1), 3, ONCE);
  }
}
