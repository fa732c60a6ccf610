/** The indices that loops with constant bounds visit, and when some loops visit all that another
    does. */
module IterSpaces {
  import opened Finite
  import opened MixedRadix

  datatype IterSpace = IterSpace(lb: int, ub: int, step: int)

  /** The values a loop's index takes. */
  ghost predicate Visits(s: IterSpace, i: int) {
    s.lb <= i < s.ub && s.step > 0 && (i - s.lb) % s.step == 0
  }

  /** How often a loop runs, and its k-th index. */
  function Trips(s: IterSpace): nat {
    if s.step <= 0 || s.ub <= s.lb then 0 else (s.ub - 1 - s.lb) / s.step + 1
  }

  function Nth(s: IterSpace, k: nat): int {
    s.lb + k * s.step
  }

  lemma NthIsVisited(s: IterSpace, k: nat)
    requires k < Trips(s)
    ensures Visits(s, Nth(s, k))
  {
    var last := (s.ub - 1 - s.lb) / s.step;
    MulMonotone(0, k, s.step);
    MulMonotone(k, last, s.step);
    QuotientUnique(k, 0, s.step);
  }

  lemma VisitedIsNth(s: IterSpace, i: int) returns (k: nat)
    requires Visits(s, i)
    ensures k < Trips(s) && i == Nth(s, k)
  {
    k := (i - s.lb) / s.step;
    QuotientBelow(i - s.lb, s.ub - s.lb, s.step) by {
      MulMonotone(1, s.step, s.ub - s.lb);
    }
    var last := (s.ub - 1 - s.lb) / s.step;
    MulMonotone(last + 1, k, s.step);
  }

  lemma NthDiffers(s: IterSpace, a: nat, b: nat)
    requires s.step > 0 && a != b
    ensures Nth(s, a) != Nth(s, b)
  {
    if a < b {
      MulMonotone(a + 1, b, s.step);
      assert (a + 1) * s.step == a * s.step + s.step;
    } else {
      MulMonotone(b + 1, a, s.step);
      assert (b + 1) * s.step == b * s.step + s.step;
    }
  }

  /** What one reader loop must meet, for all bounds and steps: it starts at or before the
      writer on the writer's indices, does not end before the writer's last, and its step divides
      the writer's unless that writes once. */
  predicate Contains(read: IterSpace, write: IterSpace) {
    Trips(write) == 0 ||
    (&& read.step > 0
     && read.lb <= write.lb && Nth(write, Trips(write) - 1) < read.ub
     && (write.lb - read.lb) % read.step == 0
     && (Trips(write) == 1 || write.step % read.step == 0))
  }

  lemma ContainsIff(read: IterSpace, write: IterSpace)
    ensures (forall i :: Visits(write, i) ==> Visits(read, i)) <==> Contains(read, write)
  {
    if Trips(write) > 0 {
      NthIsVisited(write, 0);
      NthIsVisited(write, Trips(write) - 1);
      if forall i :: Visits(write, i) ==> Visits(read, i) {
        assert Visits(read, Nth(write, 0)) && Visits(read, Nth(write, Trips(write) - 1));
        if Trips(write) > 1 {
          NthIsVisited(write, 1);
          assert Visits(read, Nth(write, 1));
          MultiplesDiffer(write.lb - read.lb, write.lb + write.step - read.lb, read.step);
        }
      }
    }
    if Contains(read, write) {
      forall i | Visits(write, i)
        ensures Visits(read, i)
      {
        var k := VisitedIsNth(write, i);
        MulMonotone(k, Trips(write) - 1, write.step);
        MulMonotone(0, k, write.step);
        if k > 0 {
          MultiplesReach(write.lb - read.lb, write.step, k, read.step);
        }
      }
    }
  }

  lemma MultiplesDiffer(a: int, b: int, d: int)
    requires d > 0 && a % d == 0 && b % d == 0
    ensures (b - a) % d == 0
  {
    QuotientUnique(b / d - a / d, 0, d);
  }

  lemma MultiplesReach(a: int, b: int, k: nat, d: int)
    requires d > 0 && a % d == 0 && b % d == 0
    ensures (a + k * b) % d == 0
  {
    var x, y := a / d, b / d;
    assert a + k * b == (x + k * y) * d by {
      assert k * (y * d) == k * y * d;
    }
    QuotientUnique(x + k * y, 0, d);
  }

  // ----- Several loops together -----

  ghost predicate SomeVisits(spaces: seq<IterSpace>, i: int) {
    exists x: nat :: x < |spaces| && Visits(spaces[x], i)
  }

  /** A common multiple of the steps. */
  function Period(spaces: seq<IterSpace>): (m: nat)
    ensures m > 0
  {
    if spaces == [] then 1
    else
      var step := spaces[|spaces| - 1].step;
      var rest := Period(spaces[..|spaces| - 1]);
      if step > 0 then assert rest * step > 0 by { MulMonotone(1, step, rest); } rest * step else rest
  }

  lemma {:induction false} PeriodIsMultiple(spaces: seq<IterSpace>, x: nat)
    requires x < |spaces| && spaces[x].step > 0
    ensures Period(spaces) % spaces[x].step == 0
    decreases |spaces|
  {
    var k := |spaces| - 1;
    var rest := Period(spaces[..k]);
    if x == k {
      QuotientUnique(rest, 0, spaces[k].step);
    } else {
      PeriodIsMultiple(spaces[..k], x);
      if spaces[k].step > 0 {
        MultiplesReach(0, rest, spaces[k].step, spaces[x].step);
        assert rest * spaces[k].step == 0 + spaces[k].step * rest;
      }
    }
  }

  /** A loop begins or ends between the two indices. */
  ghost predicate Breaks(spaces: seq<IterSpace>, from: int, to: int) {
    exists x: nat :: x < |spaces| && (from < spaces[x].lb <= to || from < spaces[x].ub <= to)
  }

  /** The iterations of `write` that have to be looked at: those of the first period, and those that
      a beginning or end of another loop separates from the one a period before. */
  ghost predicate IsDecisive(spaces: seq<IterSpace>, write: IterSpace, k: nat) {
    k < Period(spaces) || Breaks(spaces, Nth(write, k - Period(spaces)), Nth(write, k))
  }

  lemma SameAfterPeriod(spaces: seq<IterSpace>, write: IterSpace, k: nat, x: nat)
    requires write.step > 0 && x < |spaces| && !IsDecisive(spaces, write, k)
    ensures Visits(spaces[x], Nth(write, k - Period(spaces))) <==> Visits(spaces[x], Nth(write, k))
  {
    var m, s := Period(spaces), spaces[x];
    var from, to := Nth(write, k - m), Nth(write, k);
    assert to - from == m * write.step by {
      assert (k - m) * write.step + m * write.step == k * write.step;
    }
    MulMonotone(1, write.step, m);
    assert !(from < s.lb <= to || from < s.ub <= to);
    if s.step > 0 {
      PeriodIsMultiple(spaces, x);
      MultiplesReach(0, m, write.step, s.step);
      SameRemainder(from - s.lb, m * write.step, s.step);
    }
  }

  lemma SameRemainder(a: int, b: int, d: int)
    requires d > 0 && b % d == 0
    ensures a % d == (a + b) % d
  {
    QuotientUnique(a / d + b / d, a % d, d);
  }

  /** Several loops visit all that `write` does if and only if they visit its decisive iterations. */
  lemma CoverIff(spaces: seq<IterSpace>, write: IterSpace)
    requires write.step > 0
    ensures (forall k: nat | k < Trips(write) :: SomeVisits(spaces, Nth(write, k)))
            <==> forall k: nat | k < Trips(write) && IsDecisive(spaces, write, k) :: SomeVisits(spaces, Nth(write, k))
  {
    if forall k: nat | k < Trips(write) && IsDecisive(spaces, write, k) :: SomeVisits(spaces, Nth(write, k)) {
      forall k: nat | k < Trips(write)
        ensures SomeVisits(spaces, Nth(write, k))
      {
        CoveredBefore(spaces, write, k);
      }
    }
  }

  lemma {:induction false} CoveredBefore(spaces: seq<IterSpace>, write: IterSpace, k: nat)
    requires write.step > 0 && k < Trips(write)
    requires forall j: nat | j < Trips(write) && IsDecisive(spaces, write, j) :: SomeVisits(spaces, Nth(write, j))
    ensures SomeVisits(spaces, Nth(write, k))
    decreases k
  {
    if !IsDecisive(spaces, write, k) {
      var before := k - Period(spaces);
      CoveredBefore(spaces, write, before);
      var x: nat :| x < |spaces| && Visits(spaces[x], Nth(write, before));
      SameAfterPeriod(spaces, write, k, x);
    }
  }

  // ----- How many iterations are decisive -----

  lemma {:induction false} IntervalSize(s: set<nat>, from: int, length: nat)
    requires forall k | k in s :: from <= k < from + length
    ensures |s| <= length
    decreases length
  {
    if length > 0 {
      var last := from + length - 1;
      if last >= 0 && last in s {
        IntervalSize(s - {last}, from, length - 1);
      } else {
        IntervalSize(s, from, length - 1);
      }
    } else {
      assert s == {};
    }
  }

  /** The point b separates iteration k from the one m before. */
  ghost predicate Separates(write: IterSpace, m: nat, b: int, k: nat) {
    k >= m && Nth(write, k - m) < b <= Nth(write, k)
  }

  ghost function SeparatedBy(write: IterSpace, m: nat, b: int): set<nat> {
    set k | k in Below(Trips(write)) && Separates(write, m, b, k)
  }

  lemma FewSeparatedBy(write: IterSpace, m: nat, b: int)
    requires write.step > 0
    ensures |SeparatedBy(write, m, b)| <= m
  {
    var first := (b - write.lb + write.step - 1) / write.step;
    forall k | k in SeparatedBy(write, m, b)
      ensures first <= k < first + m
    {
      SeparatedNear(write, m, b, k, first);
    }
    IntervalSize(SeparatedBy(write, m, b), first, m);
  }

  lemma SeparatedNear(write: IterSpace, m: nat, b: int, k: nat, first: int)
    requires write.step > 0 && Separates(write, m, b, k)
    requires first == (b - write.lb + write.step - 1) / write.step
    ensures first <= k < first + m
  {
    MulMonotone(k + 1, first, write.step);
    MulMonotone(first, k - m, write.step);
    assert (k + 1) * write.step == k * write.step + write.step;
  }

  ghost function Separated(spaces: seq<IterSpace>, write: IterSpace, m: nat): set<nat> {
    if spaces == [] then {}
    else
      var last := spaces[|spaces| - 1];
      Separated(spaces[..|spaces| - 1], write, m)
      + (SeparatedBy(write, m, last.lb) + SeparatedBy(write, m, last.ub))
  }

  lemma UnionSize<T>(a: set<T>, b: set<T>)
    ensures |a + b| <= |a| + |b|
  {
    assert |a + b| + |a * b| == |a| + |b|;
  }

  lemma OneMore(n: nat, c: int)
    ensures (n + 1) * c == n * c + c
  {
  }

  lemma {:induction false} FewSeparated(spaces: seq<IterSpace>, write: IterSpace, m: nat)
    requires write.step > 0
    ensures |Separated(spaces, write, m)| <= |spaces| * (2 * m)
    decreases |spaces|
  {
    if spaces != [] {
      var k := |spaces| - 1;
      var lower, upper := SeparatedBy(write, m, spaces[k].lb), SeparatedBy(write, m, spaces[k].ub);
      FewSeparated(spaces[..k], write, m);
      FewSeparatedBy(write, m, spaces[k].lb);
      FewSeparatedBy(write, m, spaces[k].ub);
      UnionSize(lower, upper);
      UnionSize(Separated(spaces[..k], write, m), lower + upper);
      OneMore(k, 2 * m);
    }
  }

  lemma {:induction false} BreaksSeparate(spaces: seq<IterSpace>, write: IterSpace, m: nat, k: nat, x: nat)
    requires k < Trips(write) && x < |spaces|
    requires Separates(write, m, spaces[x].lb, k) || Separates(write, m, spaces[x].ub, k)
    ensures k in Separated(spaces, write, m)
    decreases |spaces|
  {
    var last := |spaces| - 1;
    if x < last {
      assert spaces[..last][x] == spaces[x];
      BreaksSeparate(spaces[..last], write, m, k, x);
    }
  }

  ghost function Decisive(spaces: seq<IterSpace>, write: IterSpace): set<nat> {
    set k | k in Below(Trips(write)) && IsDecisive(spaces, write, k)
  }

  /** Their number is bounded by the number of loops and their steps, whatever the bounds. */
  lemma DecisiveAreFew(spaces: seq<IterSpace>, write: IterSpace)
    requires write.step > 0
    ensures |Decisive(spaces, write)| <= Period(spaces) + |spaces| * (2 * Period(spaces))
  {
    var m := Period(spaces);
    var early, late := Below(m), Separated(spaces, write, m);
    IntervalSize(early, 0, m);
    FewSeparated(spaces, write, m);
    forall k | k in Decisive(spaces, write)
      ensures k in early + late
    {
      if k >= m {
        var x: nat :| x < |spaces| && (Nth(write, k - m) < spaces[x].lb <= Nth(write, k)
                                       || Nth(write, k - m) < spaces[x].ub <= Nth(write, k));
        BreaksSeparate(spaces, write, m, k, x);
      }
    }
    SubsetSize(Decisive(spaces, write), early + late);
    UnionSize(early, late);
  }
}
