/** Destination ranges of a pipe (python/sim/pipe.py) and the receivers a sender counts. */
module CoreRange {
  import opened CoreContext
  import opened Finite
  import opened MixedRadix
  import opened Wrappers

  /** Python's `range` and `%` refuse a zero step. */
  type Step = s: int | s != 0 witness 1

  datatype Item = Index(index: int) | Slice(start: Option<int>, stop: Option<int>, step: Option<Step>)

  function StartOf(item: Item): int
    requires item.Slice?
  {
    if item.start.Some? then item.start.value else 0
  }

  function StopOf(item: Item, size: int): int
    requires item.Slice?
  {
    if item.stop.Some? then item.stop.value else size
  }

  function StepOf(item: Item): Step
    requires item.Slice?
  {
    if item.step.Some? then item.step.value else 1
  }

  /** Python's `range(start, stop, step)`. */
  function Range(start: int, stop: int, step: Step): seq<int>
    decreases if step > 0 then stop - start else start - stop
  {
    if (step > 0 && start < stop) || (step < 0 && start > stop) then [start] + Range(start + step, stop, step)
    else []
  }

  function Indices(item: Item, size: int): seq<int> {
    match item
    case Index(i) => [i]
    case Slice(_, _, _) => Range(StartOf(item), StopOf(item, size), StepOf(item))
  }

  /** The membership test that a slice or index puts on one coordinate. */
  predicate Matches(item: Item, size: int, coordinate: int) {
    match item
    case Index(i) => coordinate == i
    case Slice(_, _, _) =>
      && StartOf(item) <= coordinate < StopOf(item, size)
      && (coordinate - StartOf(item)) % StepOf(item) == 0
  }

  function IndexLists(items: seq<Item>, shape: seq<int>): (r: seq<seq<int>>)
    requires |items| == |shape|
    ensures |r| == |items|
  {
    seq(|items|, i requires 0 <= i < |items| => Indices(items[i], shape[i]))
  }

  /** Tuples with one element from each list, in order. */
  function Tuples(lists: seq<seq<int>>): seq<seq<int>>
    decreases |lists|, 0, 0
  {
    if lists == [] then [[]] else TuplesFrom(lists[0], lists[1..])
  }

  function TuplesFrom(firsts: seq<int>, lists: seq<seq<int>>): seq<seq<int>>
    decreases |lists|, 1, |firsts|
  {
    if firsts == [] then [] else Prefixed([firsts[0]], Tuples(lists)) + TuplesFrom(firsts[1..], lists)
  }

  function Prefixed(prefix: seq<int>, tuples: seq<seq<int>>): seq<seq<int>> {
    seq(|tuples|, i requires 0 <= i < |tuples| => prefix + tuples[i])
  }

  function Expanded(grid: seq<int>, items: seq<Item>): seq<seq<int>>
    requires IsShape(grid) && items != []
  {
    Tuples(IndexLists(items, GridShape(grid, |items|)))
  }

  /** `_cartesian_product`, appending to `result`. */
  method CartesianProduct(lists: seq<seq<int>>, current: seq<int>, result: seq<seq<int>>)
    returns (r: seq<seq<int>>)
    ensures r == result + Prefixed(current, Tuples(lists))
    decreases |lists|
  {
    if lists == [] {
      assert current + [] == current;
      assert Prefixed(current, Tuples(lists)) == [current];
      return result + [current];
    }
    r := result;
    assert lists[0][0..] == lists[0];
    var k := 0;
    ghost var all := result + Prefixed(current, Tuples(lists));
    while k < |lists[0]|
      invariant 0 <= k <= |lists[0]|
      invariant r + Prefixed(current, TuplesFrom(lists[0][k..], lists[1..])) == all
    {
      var value := lists[0][k];
      ghost var tails := Tuples(lists[1..]);
      ghost var rest := TuplesFrom(lists[0][k + 1..], lists[1..]);
      ghost var before := r;
      assert lists[0][k..][1..] == lists[0][k + 1..];
      assert TuplesFrom(lists[0][k..], lists[1..]) == Prefixed([value], tails) + rest;
      PrefixedSplits(current, value, tails, rest);
      r := CartesianProduct(lists[1..], current + [value], r);
      assert r + Prefixed(current, rest) == before + (Prefixed(current + [value], tails) + Prefixed(current, rest));
      k := k + 1;
    }
    assert r + [] == r;
  }

  lemma PrefixedSplits(current: seq<int>, value: int, tails: seq<seq<int>>, rest: seq<seq<int>>)
    ensures Prefixed(current, Prefixed([value], tails) + rest)
            == Prefixed(current + [value], tails) + Prefixed(current, rest)
  {
    forall i | 0 <= i < |tails|
      ensures current + ([value] + tails[i]) == (current + [value]) + tails[i]
    {
    }
  }

  /** `expand_core_range`. */
  method ExpandCoreRange(grid: seq<int>, items: seq<Item>) returns (cores: seq<seq<int>>)
    requires IsShape(grid) && items != []
    ensures cores == Expanded(grid, items)
  {
    var shape := GridSize(grid, |items|);
    var lists: seq<seq<int>> := [];
    for i := 0 to |items|
      invariant |lists| == i && forall j :: 0 <= j < i ==> lists[j] == Indices(items[j], shape.value[j])
    {
      lists := lists + [Indices(items[i], shape.value[i])];
    }
    assert lists == IndexLists(items, shape.value);
    cores := CartesianProduct(lists, [], []);
    assert forall t: seq<int> :: [] + t == t;
    assert cores == Tuples(lists);
  }

  /** The coordinates pass their items' tests. */
  ghost predicate Passes(grid: seq<int>, items: seq<Item>, t: seq<int>)
    requires IsShape(grid) && items != []
  {
    |t| == |items| && forall i :: 0 <= i < |items| ==> Matches(items[i], GridShape(grid, |items|)[i], t[i])
  }

  ghost predicate Accepted(grid: seq<int>, items: seq<Item>, cid: int)
    requires IsShape(grid) && items != []
  {
    && 0 <= cid < Product(grid) && IsShape(CoreShape(grid, |items|))
    && Passes(grid, items, Digits(CoreShape(grid, |items|), cid))
  }

  /** A destination: one index, or a tuple of indices and slices. */
  datatype Destination = Linear(index: int) | Tuple(items: seq<Item>)

  predicate HasSlices(items: seq<Item>) {
    exists i :: 0 <= i < |items| && items[i].Slice?
  }

  function ItemsOf(dst: Destination): seq<Item> {
    match dst
    case Linear(index) => [Index(index)]
    case Tuple(items) => items
  }

  /** One index in a tuple of its own, which no core's coordinate of rank one, an `int`, equals. */
  predicate IsLone(dst: Destination) {
    dst.Tuple? && |dst.items| == 1 && dst.items[0].Index?
  }

  ghost predicate InRange(grid: seq<int>, dst: Destination, cid: int)
    requires IsShape(grid) && ItemsOf(dst) != []
  {
    !IsLone(dst) && Accepted(grid, ItemsOf(dst), cid)
  }

  lemma LinearShape(grid: seq<int>, cid: int)
    requires IsShape(grid) && 0 <= cid < Product(grid)
    ensures CoreShape(grid, 1) == [Product(grid)] && Digits(CoreShape(grid, 1), cid) == [cid]
  {
    assert grid[..|grid|] == grid;
    assert |grid| == 1 ==> grid == [Product(grid)] by {
      assert grid[..0] == [];
    }
    SingleDigit(Product(grid), cid);
  }

  /** The branch of `core_in_dst_range` for a tuple with slices. */
  method PassesEach(grid: seq<int>, coords: seq<int>, items: seq<Item>) returns (inRange: bool)
    requires IsShape(grid) && items != [] && |coords| == |items|
    ensures inRange <==> Passes(grid, items, coords)
  {
    for i := 0 to |items|
      invariant forall j :: 0 <= j < i ==> Matches(items[j], GridShape(grid, |items|)[j], coords[j])
    {
      match items[i] {
        case Slice(_, _, _) =>
          var shape := GridSize(grid, |items|);
          if !(StartOf(items[i]) <= coords[i] < StopOf(items[i], shape.value[i])
               && (coords[i] - StartOf(items[i])) % StepOf(items[i]) == 0) {
            return false;
          }
        case Index(index) =>
          if coords[i] != index {
            return false;
          }
      }
    }
    return true;
  }

  /** `core_in_dst_range`; coordinates of rank zero cannot be computed. */
  method CoreInDstRange(grid: seq<int>, cid: int, dst: Destination) returns (inRange: Option<bool>)
    requires IsShape(grid) && 0 <= cid < Product(grid)
    ensures inRange.None? <==> ItemsOf(dst) == []
    ensures inRange.Some? ==> (inRange.value <==> InRange(grid, dst, cid))
  {
    match dst {
      case Linear(index) =>
        var coords := Core(grid, cid, 1);
        LinearShape(grid, cid);
        return Some(coords[0] == index);
      case Tuple(items) =>
        if items == [] {
          return None;
        }
        CoreShapeIsShape(grid, |items|);
        DigitsInBox(CoreShape(grid, |items|), cid);
        var coords := Core(grid, cid, |items|);
        if HasSlices(items) {
          var passes := PassesEach(grid, coords, items);
          return Some(passes);
        } else if |items| == 1 {
          assert items[0].Index?;
          return Some(false);
        }
        var indices := seq(|items|, i requires 0 <= i < |items| && items[i].Index? => items[i].index);
        assert coords == indices <==> Passes(grid, items, coords);
        return Some(coords == indices);
    }
  }

  /** The receivers that a send on the pipe counts. */
  method NumReceivers(grid: seq<int>, dst: Destination) returns (n: nat)
    requires IsShape(grid)
    ensures ItemsOf(dst) != [] ==> n == |Expanded(grid, ItemsOf(dst))|
    ensures ItemsOf(dst) == [] ==> n == 1
  {
    match dst {
      case Linear(index) =>
        NoSlicesExpandToOne(grid, [Index(index)]);
        n := 1;
      case Tuple(items) =>
        if HasSlices(items) {
          var expanded := ExpandCoreRange(grid, items);
          n := |expanded|;
        } else {
          if items != [] {
            NoSlicesExpandToOne(grid, items);
          }
          n := 1;
        }
    }
  }

  lemma NoSlicesExpandToOne(grid: seq<int>, items: seq<Item>)
    requires IsShape(grid) && items != [] && !HasSlices(items)
    ensures |Expanded(grid, items)| == 1
  {
    SingleTuple(IndexLists(items, GridShape(grid, |items|)));
  }

  lemma {:induction false} SingleTuple(lists: seq<seq<int>>)
    requires forall i :: 0 <= i < |lists| ==> |lists[i]| == 1
    ensures |Tuples(lists)| == 1
  {
    if lists != [] {
      SingleTuple(lists[1..]);
      assert TuplesFrom(lists[0][1..], lists[1..]) == [];
    }
  }

  lemma ModuloShift(d: int, s: int)
    requires s > 0
    ensures d % s == (d - s) % s
    ensures 0 <= d < s ==> d % s == d
  {
    QuotientUnique(d / s - 1, d % s, s);
    if 0 <= d < s {
      QuotientUnique(0, d, s);
    }
  }

  lemma {:induction false} RangeMembers(start: int, stop: int, step: Step, x: int)
    requires step > 0
    ensures x in Range(start, stop, step) <==> start <= x < stop && (x - start) % step == 0
    decreases stop - start
  {
    if start < stop {
      RangeMembers(start + step, stop, step, x);
      ModuloShift(x - start, step);
    }
  }

  lemma {:induction false} RangeDistinct(start: int, stop: int, step: Step)
    ensures Distinct(Range(start, stop, step))
    ensures forall x :: x in Range(start, stop, step) ==> if step > 0 then x >= start else x <= start
    decreases if step > 0 then stop - start else start - stop
  {
    if (step > 0 && start < stop) || (step < 0 && start > stop) {
      RangeDistinct(start + step, stop, step);
      var rest := Range(start + step, stop, step);
      assert Range(start, stop, step) == [start] + rest;
      assert start !in rest;
    }
  }

  /** One slice's expansion and its membership test agree on all coordinates exactly when its step
      is positive or it is empty. */
  lemma SliceAgreesIff(item: Item, size: int)
    requires item.Slice?
    ensures (forall x :: x in Indices(item, size) <==> Matches(item, size, x))
            <==> StepOf(item) > 0 || StartOf(item) == StopOf(item, size)
  {
    var start, stop, step := StartOf(item), StopOf(item, size), StepOf(item);
    if step > 0 {
      forall x
        ensures x in Indices(item, size) <==> Matches(item, size, x)
      {
        RangeMembers(start, stop, step, x);
      }
    } else if start > stop {
      assert start in Indices(item, size) && !Matches(item, size, start);
    } else if start < stop {
      assert start !in Indices(item, size) && Matches(item, size, start);
    }
  }

  /** Expansion and membership test agree on each item. */
  ghost predicate Agreeing(grid: seq<int>, items: seq<Item>)
    requires IsShape(grid) && items != []
  {
    forall i :: 0 <= i < |items| && items[i].Slice? ==>
      StepOf(items[i]) > 0 || StartOf(items[i]) == StopOf(items[i], GridShape(grid, |items|)[i])
  }

  ghost predicate Picks(lists: seq<seq<int>>, t: seq<int>) {
    |t| == |lists| && forall i :: 0 <= i < |lists| ==> t[i] in lists[i]
  }

  /** `_cartesian_product` lists exactly the choices of one element from each list ... */
  lemma {:induction false} TuplesMembers(lists: seq<seq<int>>, t: seq<int>)
    ensures t in Tuples(lists) <==> Picks(lists, t)
    decreases |lists|, 0, 0
  {
    if lists != [] {
      TuplesFromMembers(lists[0], lists[1..], t);
      assert Picks(lists, t) <==> t != [] && t[0] in lists[0] && Picks(lists[1..], t[1..]);
    }
  }

  lemma {:induction false} TuplesFromMembers(firsts: seq<int>, lists: seq<seq<int>>, t: seq<int>)
    ensures t in TuplesFrom(firsts, lists) <==> t != [] && t[0] in firsts && Picks(lists, t[1..])
    decreases |lists|, 1, |firsts|
  {
    if firsts != [] {
      TuplesFromMembers(firsts[1..], lists, t);
      PrefixedMembers(firsts[0], Tuples(lists), t);
      if t != [] {
        TuplesMembers(lists, t[1..]);
      }
    }
  }

  lemma PrefixedMembers(x: int, tuples: seq<seq<int>>, t: seq<int>)
    ensures t in Prefixed([x], tuples) <==> t != [] && t[0] == x && t[1..] in tuples
  {
    if t != [] && t[0] == x && t[1..] in tuples {
      var i :| 0 <= i < |tuples| && tuples[i] == t[1..];
      assert Prefixed([x], tuples)[i] == t;
    }
  }

  /** ... and none of them twice, when no list repeats. */
  lemma {:induction false} TuplesDistinct(lists: seq<seq<int>>)
    requires forall i :: 0 <= i < |lists| ==> Distinct(lists[i])
    ensures Distinct(Tuples(lists))
    decreases |lists|, 0, 0
  {
    if lists != [] {
      TuplesFromDistinct(lists[0], lists[1..]);
    }
  }

  lemma {:induction false} TuplesFromDistinct(firsts: seq<int>, lists: seq<seq<int>>)
    requires Distinct(firsts) && forall i :: 0 <= i < |lists| ==> Distinct(lists[i])
    ensures Distinct(TuplesFrom(firsts, lists))
    decreases |lists|, 1, |firsts|
  {
    if firsts != [] {
      TuplesDistinct(lists);
      TuplesFromDistinct(firsts[1..], lists);
      var head, rest := Prefixed([firsts[0]], Tuples(lists)), TuplesFrom(firsts[1..], lists);
      forall i, j | 0 <= i < j < |head|
        ensures head[i] != head[j]
      {
        assert head[i][1..] == Tuples(lists)[i] && head[j][1..] == Tuples(lists)[j];
      }
      forall t | t in head
        ensures t !in rest
      {
        TuplesFromMembers(firsts[1..], lists, t);
      }
      DistinctConcat(head, rest);
    }
  }

  lemma DistinctConcat<T>(a: seq<T>, b: seq<T>)
    requires Distinct(a) && Distinct(b) && forall x :: x in a ==> x !in b
    ensures Distinct(a + b)
  {
    forall i, j | 0 <= i < j < |a + b|
      ensures (a + b)[i] != (a + b)[j]
    {
      if i < |a| <= j {
        assert (a + b)[i] in a && (a + b)[j] in b;
      }
    }
  }

  lemma ExpandedIsDistinct(grid: seq<int>, items: seq<Item>)
    requires IsShape(grid) && items != []
    ensures Distinct(Expanded(grid, items))
  {
    var shape := GridShape(grid, |items|);
    forall i | 0 <= i < |items|
      ensures Distinct(Indices(items[i], shape[i]))
    {
      if items[i].Slice? {
        RangeDistinct(StartOf(items[i]), StopOf(items[i], shape[i]), StepOf(items[i]));
      }
    }
    TuplesDistinct(IndexLists(items, shape));
  }

  // ----- Boxes: coordinate-wise conditions -----

  ghost predicate Within<T(!new)>(n: nat, p: (nat, T) -> bool, t: seq<T>) {
    |t| == n && forall i: nat | i < n :: p(i, t[i])
  }

  ghost predicate IsGap<T(!new)>(p: (nat, T) -> bool, i: nat) {
    forall x :: !p(i, x)
  }

  ghost predicate HasGap<T(!new)>(n: nat, p: (nat, T) -> bool) {
    exists i: nat :: i < n && IsGap(p, i)
  }

  ghost predicate SameFactors<T(!new)>(n: nat, p: (nat, T) -> bool, q: (nat, T) -> bool) {
    forall i: nat, x: T | i < n :: p(i, x) <==> q(i, x)
  }

  lemma {:induction false} Inhabited<T(!new)>(n: nat, p: (nat, T) -> bool) returns (t: seq<T>)
    requires !HasGap(n, p)
    ensures Within(n, p, t)
  {
    t := [];
    for k := 0 to n
      invariant Within(k, p, t)
    {
      assert !IsGap(p, k);
      var x :| p(k, x);
      t := t + [x];
    }
  }

  lemma NoGap<T(!new)>(n: nat, p: (nat, T) -> bool, t: seq<T>)
    requires Within(n, p, t)
    ensures !HasGap(n, p)
  {
    forall i: nat | i < n
      ensures !IsGap(p, i)
    {
      assert p(i, t[i]);
    }
  }

  lemma OneFactor<T(!new)>(n: nat, p: (nat, T) -> bool, q: (nat, T) -> bool, i: nat, x: T)
    requires i < n && !HasGap(n, p) && p(i, x)
    requires forall t :: Within(n, p, t) ==> Within(n, q, t)
    ensures q(i, x)
  {
    var t := Inhabited(n, p);
    assert Within(n, p, t[i := x]);
    assert t[i := x][i] == x;
  }

  /** Two boxes hold the same tuples exactly when they have the same factors or both are empty. */
  lemma SameBoxIff<T(!new)>(n: nat, p: (nat, T) -> bool, q: (nat, T) -> bool)
    ensures (forall t :: Within(n, p, t) <==> Within(n, q, t))
            <==> SameFactors(n, p, q) || (HasGap(n, p) && HasGap(n, q))
  {
    if forall t :: Within(n, p, t) <==> Within(n, q, t) {
      if !HasGap(n, p) {
        var t := Inhabited(n, p);
        NoGap(n, q, t);
      }
      if !HasGap(n, q) {
        var t := Inhabited(n, q);
        NoGap(n, p, t);
      }
      if !HasGap(n, p) {
        forall i: nat, x: T | i < n
          ensures p(i, x) <==> q(i, x)
        {
          if p(i, x) {
            OneFactor(n, p, q, i, x);
          } else if q(i, x) {
            OneFactor(n, q, p, i, x);
          }
        }
      }
    } else if HasGap(n, p) && HasGap(n, q) {
      forall t
        ensures Within(n, p, t) <==> Within(n, q, t)
      {
        if Within(n, p, t) {
          NoGap(n, p, t);
        } else if Within(n, q, t) {
          NoGap(n, q, t);
        }
      }
    }
  }

  // ----- Expansion against membership -----

  ghost function Listed(grid: seq<int>, items: seq<Item>): (nat, int) -> bool
    requires IsShape(grid) && items != []
  {
    (i: nat, x: int) => i < |items| && x in Indices(items[i], GridShape(grid, |items|)[i])
  }

  ghost function Matched(grid: seq<int>, items: seq<Item>): (nat, int) -> bool
    requires IsShape(grid) && items != []
  {
    (i: nat, x: int) => i < |items| && Matches(items[i], GridShape(grid, |items|)[i], x)
  }

  lemma ListedTuples(grid: seq<int>, items: seq<Item>, t: seq<int>)
    requires IsShape(grid) && items != []
    ensures t in Expanded(grid, items) <==> Within(|items|, Listed(grid, items), t)
    ensures Passes(grid, items, t) <==> Within(|items|, Matched(grid, items), t)
  {
    TuplesMembers(IndexLists(items, GridShape(grid, |items|)), t);
  }

  /** Some item has no index to expand to. */
  ghost predicate LacksIndex(grid: seq<int>, items: seq<Item>)
    requires IsShape(grid) && items != []
  {
    exists i :: 0 <= i < |items| && Indices(items[i], GridShape(grid, |items|)[i]) == []
  }

  /** Some item matches no coordinate. */
  ghost predicate LacksMatch(grid: seq<int>, items: seq<Item>)
    requires IsShape(grid) && items != []
  {
    exists i :: 0 <= i < |items| && items[i].Slice?
                && StartOf(items[i]) >= StopOf(items[i], GridShape(grid, |items|)[i])
  }

  lemma Gaps(grid: seq<int>, items: seq<Item>)
    requires IsShape(grid) && items != []
    ensures HasGap(|items|, Listed(grid, items)) <==> LacksIndex(grid, items)
    ensures HasGap(|items|, Matched(grid, items)) <==> LacksMatch(grid, items)
  {
    var shape := GridShape(grid, |items|);
    forall i: nat | i < |items|
      ensures IsGap(Listed(grid, items), i) <==> Indices(items[i], shape[i]) == []
      ensures IsGap(Matched(grid, items), i) <==> items[i].Slice? && StartOf(items[i]) >= StopOf(items[i], shape[i])
    {
      if Indices(items[i], shape[i]) != [] {
        assert Listed(grid, items)(i, Indices(items[i], shape[i])[0]);
      }
      if items[i].Index? {
        assert Matched(grid, items)(i, items[i].index);
      } else if StartOf(items[i]) < StopOf(items[i], shape[i]) {
        assert Matched(grid, items)(i, StartOf(items[i]));
      }
    }
  }

  lemma AgreeingIff(grid: seq<int>, items: seq<Item>)
    requires IsShape(grid) && items != []
    ensures Agreeing(grid, items) <==> SameFactors(|items|, Listed(grid, items), Matched(grid, items))
  {
    var shape, p, q := GridShape(grid, |items|), Listed(grid, items), Matched(grid, items);
    forall i: nat | i < |items|
      ensures (forall x :: p(i, x) <==> q(i, x))
              <==> (items[i].Slice? ==>
                      StepOf(items[i]) > 0 || StartOf(items[i]) == StopOf(items[i], shape[i]))
    {
      if items[i].Slice? {
        SliceAgreesIff(items[i], shape[i]);
        assert forall x :: p(i, x) <==> x in Indices(items[i], shape[i]);
        assert forall x :: q(i, x) <==> Matches(items[i], shape[i], x);
      }
    }
  }

  /** The expansion lists exactly the tuples that pass the membership test, if and only if every
      slice has a positive step or is empty, or neither has any tuple. */
  lemma ExpandedMembers(grid: seq<int>, items: seq<Item>)
    requires IsShape(grid) && items != []
    ensures (forall t :: t in Expanded(grid, items) <==> Passes(grid, items, t))
            <==> Agreeing(grid, items) || (LacksIndex(grid, items) && LacksMatch(grid, items))
  {
    var p, q := Listed(grid, items), Matched(grid, items);
    forall t
      ensures t in Expanded(grid, items) <==> Within(|items|, p, t)
      ensures Passes(grid, items, t) <==> Within(|items|, q, t)
    {
      ListedTuples(grid, items, t);
    }
    SameBoxIff(|items|, p, q);
    AgreeingIff(grid, items);
    Gaps(grid, items);
  }

  /** When they do not agree, one of the two is empty. */
  lemma DisagreementEmpties(grid: seq<int>, items: seq<Item>)
    requires IsShape(grid) && items != [] && !Agreeing(grid, items)
    ensures Expanded(grid, items) == [] || forall t :: !Passes(grid, items, t)
  {
    var shape := GridShape(grid, |items|);
    var i: nat :| i < |items| && items[i].Slice? && StepOf(items[i]) < 0
                  && StartOf(items[i]) != StopOf(items[i], shape[i]);
    if StartOf(items[i]) < StopOf(items[i], shape[i]) {
      assert Indices(items[i], shape[i]) == [];
      ExpandedEmptyIff(grid, items);
    } else {
      assert LacksMatch(grid, items);
      Gaps(grid, items);
      forall t
        ensures !Passes(grid, items, t)
      {
        ListedTuples(grid, items, t);
        if Passes(grid, items, t) {
          NoGap(|items|, Matched(grid, items), t);
        }
      }
    }
  }

  lemma ExpandedEmptyIff(grid: seq<int>, items: seq<Item>)
    requires IsShape(grid) && items != []
    ensures Expanded(grid, items) == [] <==> LacksIndex(grid, items)
  {
    var p := Listed(grid, items);
    Gaps(grid, items);
    if LacksIndex(grid, items) {
      if Expanded(grid, items) != [] {
        ListedTuples(grid, items, Expanded(grid, items)[0]);
        NoGap(|items|, p, Expanded(grid, items)[0]);
      }
    } else {
      var t := Inhabited(|items|, p);
      ListedTuples(grid, items, t);
    }
  }

  // ----- Cores -----

  ghost function OnCores(grid: seq<int>, dims: nat, p: (nat, int) -> bool): (nat, int) -> bool
    requires IsShape(grid) && dims > 0
  {
    var shape := CoreShape(grid, dims);
    (i: nat, x: int) => i < |shape| && 0 <= x < shape[i] && p(i, x)
  }

  lemma WithinOnCores(grid: seq<int>, dims: nat, p: (nat, int) -> bool, t: seq<int>)
    requires IsShape(grid) && dims > 0
    ensures Within(dims, OnCores(grid, dims, p), t) <==> Within(dims, p, t) && InBox(CoreShape(grid, dims), t)
  {
    CoreShapeIsShape(grid, dims);
    if Within(dims, OnCores(grid, dims, p), t) {
      assert forall i: nat | i < dims :: OnCores(grid, dims, p)(i, t[i]);
    }
  }

  /** The core's coordinates pass the test exactly when the sender's expansion lists them. */
  ghost predicate Consistent(grid: seq<int>, items: seq<Item>, cid: int)
    requires IsShape(grid) && items != []
  {
    IsShape(CoreShape(grid, |items|)) &&
    (Accepted(grid, items, cid) <==> Digits(CoreShape(grid, |items|), cid) in Expanded(grid, items))
  }

  ghost predicate SameOnCores(grid: seq<int>, items: seq<Item>, t: seq<int>)
    requires IsShape(grid) && items != []
  {
    var n := |items|;
    Within(n, OnCores(grid, n, Listed(grid, items)), t) <==> Within(n, OnCores(grid, n, Matched(grid, items)), t)
  }

  lemma ConsistentIsSame(grid: seq<int>, items: seq<Item>)
    requires IsShape(grid) && items != []
    ensures (forall cid :: 0 <= cid < Product(grid) ==> Consistent(grid, items, cid))
            <==> forall t :: SameOnCores(grid, items, t)
  {
    var shape := CoreShape(grid, |items|);
    CoreShapeIsShape(grid, |items|);
    if forall cid :: 0 <= cid < Product(grid) ==> Consistent(grid, items, cid) {
      forall t
        ensures SameOnCores(grid, items, t)
      {
        CoordinatesWithin(grid, items, t);
        if InBox(shape, t) {
          assert Consistent(grid, items, Flatten(shape, t));
        }
      }
    }
    if forall t :: SameOnCores(grid, items, t) {
      forall cid | 0 <= cid < Product(grid)
        ensures Consistent(grid, items, cid)
      {
        FlattenDigits(shape, cid);
        DigitsInBox(shape, cid);
        CoordinatesWithin(grid, items, Digits(shape, cid));
        assert SameOnCores(grid, items, Digits(shape, cid));
      }
    }
  }

  /** Every core accepts exactly when its own coordinates are in the sender's expansion, if and
      only if expansion and test agree on every coordinate that cores have, or each leaves out all
      of them somewhere. */
  lemma AcceptedIffExpanded(grid: seq<int>, items: seq<Item>)
    requires IsShape(grid) && items != []
    ensures var n := |items|;
            var listed, matched := OnCores(grid, n, Listed(grid, items)), OnCores(grid, n, Matched(grid, items));
            (forall cid :: 0 <= cid < Product(grid) ==> Consistent(grid, items, cid))
            <==> SameFactors(n, listed, matched) || (HasGap(n, listed) && HasGap(n, matched))
  {
    var n := |items|;
    ConsistentIsSame(grid, items);
    SameBoxIff(n, OnCores(grid, n, Listed(grid, items)), OnCores(grid, n, Matched(grid, items)));
    assert forall t :: SameOnCores(grid, items, t) <==>
      (Within(n, OnCores(grid, n, Listed(grid, items)), t) <==> Within(n, OnCores(grid, n, Matched(grid, items)), t));
  }

  /** So positive steps suffice, in every rank. */
  lemma AgreeingIsConsistent(grid: seq<int>, items: seq<Item>, cid: int)
    requires IsShape(grid) && items != [] && Agreeing(grid, items) && 0 <= cid < Product(grid)
    ensures Consistent(grid, items, cid)
  {
    CoreShapeIsShape(grid, |items|);
    ExpandedMembers(grid, items);
  }

  lemma CoordinatesWithin(grid: seq<int>, items: seq<Item>, t: seq<int>)
    requires IsShape(grid) && items != [] && IsShape(CoreShape(grid, |items|))
    ensures var shape := CoreShape(grid, |items|);
            && (Within(|items|, OnCores(grid, |items|, Listed(grid, items)), t)
                <==> InBox(shape, t) && t in Expanded(grid, items))
            && (Within(|items|, OnCores(grid, |items|, Matched(grid, items)), t)
                <==> InBox(shape, t) && Passes(grid, items, t))
            && (InBox(shape, t) ==>
                  var c := Flatten(shape, t);
                  0 <= c < Product(grid) && Digits(shape, c) == t
                  && (Accepted(grid, items, c) <==> Passes(grid, items, t)))
  {
    WithinOnCores(grid, |items|, Listed(grid, items), t);
    WithinOnCores(grid, |items|, Matched(grid, items), t);
    ListedTuples(grid, items, t);
    CoordinatesAreABijection(grid, |items|);
  }

  // ----- The receiver count -----

  ghost function AcceptingCores(grid: seq<int>, items: seq<Item>): set<int>
    requires IsShape(grid) && items != []
  {
    set cid | 0 <= cid < Product(grid) && Accepted(grid, items, cid)
  }

  /** The cores that receive. */
  ghost function Receivers(grid: seq<int>, dst: Destination): set<int>
    requires IsShape(grid) && ItemsOf(dst) != []
  {
    set cid | 0 <= cid < Product(grid) && InRange(grid, dst, cid)
  }

  lemma {:induction false} ImageSize<K, V>(m: map<K, V>)
    requires forall j, k :: j in m && k in m && m[j] == m[k] ==> j == k
    ensures |m.Values| == |m|
  {
    if m != map[] {
      var k :| k in m;
      ImageSize(m - {k});
      forall v
        ensures v in m.Values <==> v in (m - {k}).Values + {m[k]}
      {
        if v in m.Values {
          var j :| j in m && m[j] == v;
          assert j == k || (j in m - {k} && (m - {k})[j] == v);
        }
      }
      assert m.Values == (m - {k}).Values + {m[k]};
      assert |m| == |m - {k}| + 1;
    }
  }

  lemma OntoSize<K, V>(m: map<K, V>, s: set<V>)
    requires forall j, k :: j in m && k in m && m[j] == m[k] ==> j == k
    requires forall v :: v in s <==> exists k :: k in m && m[k] == v
    ensures |m| == |s|
  {
    ImageSize(m);
    assert m.Values == s;
  }

  ghost function CoordinateMap(grid: seq<int>, items: seq<Item>): (m: map<int, seq<int>>)
    requires IsShape(grid) && items != [] && IsShape(CoreShape(grid, |items|))
    ensures m.Keys == AcceptingCores(grid, items)
    ensures forall c :: c in m ==> m[c] == Digits(CoreShape(grid, |items|), c)
  {
    map c | c in AcceptingCores(grid, items) :: Digits(CoreShape(grid, |items|), c)
  }

  lemma PassingCoordinates(grid: seq<int>, items: seq<Item>, t: seq<int>)
    requires IsShape(grid) && items != [] && IsShape(CoreShape(grid, |items|))
    ensures InBox(CoreShape(grid, |items|), t) && Passes(grid, items, t)
            <==> exists c :: c in AcceptingCores(grid, items) && Digits(CoreShape(grid, |items|), c) == t
  {
    var shape := CoreShape(grid, |items|);
    CoordinatesWithin(grid, items, t);
    if InBox(shape, t) && Passes(grid, items, t) {
      assert Flatten(shape, t) in AcceptingCores(grid, items);
    }
    if c :| c in AcceptingCores(grid, items) && Digits(shape, c) == t {
      DigitsInBox(shape, c);
    }
  }

  /** As many cores accept as there are coordinates in the box that pass the test. */
  lemma AcceptingImage(grid: seq<int>, items: seq<Item>, passing: set<seq<int>>)
    requires IsShape(grid) && items != []
    requires forall t :: t in passing <==> InBox(CoreShape(grid, |items|), t) && Passes(grid, items, t)
    ensures |AcceptingCores(grid, items)| == |passing|
  {
    CoreShapeIsShape(grid, |items|);
    var image := CoordinateMap(grid, items);
    forall t
      ensures t in passing <==> exists c :: c in image && image[c] == t
    {
      PassingCoordinates(grid, items, t);
      assert forall c :: c in AcceptingCores(grid, items) <==> c in image;
    }
    SameDigits(grid, items);
    OntoSize(image, passing);
    assert image.Keys == AcceptingCores(grid, items);
  }

  lemma SameDigits(grid: seq<int>, items: seq<Item>)
    requires IsShape(grid) && items != [] && IsShape(CoreShape(grid, |items|))
    ensures var m := CoordinateMap(grid, items); forall j, k :: j in m && k in m && m[j] == m[k] ==> j == k
  {
    CoordinatesAreABijection(grid, |items|);
  }

  lemma AgreeingCount(grid: seq<int>, items: seq<Item>)
    requires IsShape(grid) && items != [] && Agreeing(grid, items)
    ensures |AcceptingCores(grid, items)| <= |Expanded(grid, items)|
    ensures |AcceptingCores(grid, items)| == |Expanded(grid, items)|
            <==> forall t :: t in Expanded(grid, items) ==> InBox(CoreShape(grid, |items|), t)
  {
    var tuples := Expanded(grid, items);
    var inBox := set t | t in tuples && InBox(CoreShape(grid, |items|), t);
    ExpandedMembers(grid, items);
    AcceptingImage(grid, items, inBox);
    ExpandedIsDistinct(grid, items);
    DistinctSize(tuples);
    SubsetSize(inBox, Members(tuples));
    assert inBox == Members(tuples) <==> forall t :: t in tuples ==> t in inBox;
  }

  /** For every destination, the number of receivers that the sender counts is the number of cores
      that receive exactly when it is not a lone index in a tuple and every expanded coordinate is
      some core's; or, where a negative step makes expansion and test disagree, when neither has
      any.  Where they agree the count is never too small. */
  lemma ReceiverCount(grid: seq<int>, dst: Destination)
    requires IsShape(grid) && ItemsOf(dst) != []
    ensures var items := ItemsOf(dst);
            var counted := |Expanded(grid, items)|;
            && (Agreeing(grid, items) ==> |Receivers(grid, dst)| <= counted)
            && (|Receivers(grid, dst)| == counted
                <==> && !IsLone(dst)
                     && if Agreeing(grid, items) then
                          forall t :: t in Expanded(grid, items) ==> InBox(CoreShape(grid, |items|), t)
                        else LacksIndex(grid, items) && AcceptingCores(grid, items) == {})
  {
    var items := ItemsOf(dst);
    if IsLone(dst) {
      NoSlicesExpandToOne(grid, items);
      assert Receivers(grid, dst) == {};
    } else {
      assert forall cid :: cid in Receivers(grid, dst) <==> cid in AcceptingCores(grid, items);
      assert Receivers(grid, dst) == AcceptingCores(grid, items);
      if Agreeing(grid, items) {
        AgreeingCount(grid, items);
      } else {
        DisagreementEmpties(grid, items);
        ExpandedEmptyIff(grid, items);
        if Expanded(grid, items) != [] {
          assert AcceptingCores(grid, items) == {};
        }
      }
    }
  }

  /** No core accepts exactly when some item matches no coordinate that cores have. */
  lemma NoneAcceptsIff(grid: seq<int>, items: seq<Item>)
    requires IsShape(grid) && items != []
    ensures AcceptingCores(grid, items) == {} <==> HasGap(|items|, OnCores(grid, |items|, Matched(grid, items)))
  {
    var p, shape := OnCores(grid, |items|, Matched(grid, items)), CoreShape(grid, |items|);
    CoreShapeIsShape(grid, |items|);
    if HasGap(|items|, p) {
      forall cid | 0 <= cid < Product(grid)
        ensures !Accepted(grid, items, cid)
      {
        if Accepted(grid, items, cid) {
          DigitsInBox(shape, cid);
          CoordinatesWithin(grid, items, Digits(shape, cid));
          NoGap(|items|, p, Digits(shape, cid));
        }
      }
    } else {
      var t := Inhabited(|items|, p);
      CoordinatesWithin(grid, items, t);
      assert Flatten(shape, t) in AcceptingCores(grid, items);
    }
  }

  /** Indices and slice bounds stay inside the sizes `grid_size` reports. */
  ghost predicate InGrid(grid: seq<int>, items: seq<Item>)
    requires IsShape(grid) && items != []
  {
    forall i :: 0 <= i < |items| ==>
      var size := GridShape(grid, |items|)[i];
      match items[i]
      case Index(k) => 0 <= k < size
      case Slice(_, _, _) => 0 <= StartOf(items[i]) && StopOf(items[i], size) <= size
  }

  /** The count is right for `dst`. */
  ghost predicate IsRight(grid: seq<int>, dst: Destination)
    requires IsShape(grid)
  {
    ItemsOf(dst) != [] && |Receivers(grid, dst)| == |Expanded(grid, ItemsOf(dst))|
  }

  /** An in-grid destination in which `dims` coordinates are given, with positive steps or empty
      slices, and not a lone index in a tuple. */
  ghost predicate IsOrdinary(grid: seq<int>, dims: nat, dst: Destination)
    requires IsShape(grid)
  {
    && |ItemsOf(dst)| == dims > 0 && !IsLone(dst)
    && Agreeing(grid, ItemsOf(dst)) && InGrid(grid, ItemsOf(dst))
  }

  /** The count is right for all ordinary destinations of a rank if and only if `core` and
      `grid_size` use the same shape there. */
  lemma ReceiverCountIsRight(grid: seq<int>, dims: nat)
    requires IsShape(grid) && dims > 0
    ensures (forall dst :: IsOrdinary(grid, dims, dst) ==> IsRight(grid, dst))
            <==> dims == 1 || dims >= |grid| || AllOnes(grid, 1, |grid| - 1)
  {
    ShapesAgree(grid, dims);
    if CoreShape(grid, dims) == GridShape(grid, dims) {
      forall dst | IsOrdinary(grid, dims, dst)
        ensures IsRight(grid, dst)
      {
        OrdinaryInBox(grid, dims, dst);
        ReceiverCount(grid, dst);
      }
    } else {
      var dst := WrongDestination(grid, dims);
      assert IsOrdinary(grid, dims, dst) && !IsRight(grid, dst);
    }
  }

  lemma OrdinaryInBox(grid: seq<int>, dims: nat, dst: Destination)
    requires IsShape(grid) && IsOrdinary(grid, dims, dst) && CoreShape(grid, dims) == GridShape(grid, dims)
    ensures forall t :: t in Expanded(grid, ItemsOf(dst)) ==> InBox(CoreShape(grid, dims), t)
  {
    ExpandedMembers(grid, ItemsOf(dst));
  }

  lemma GridShapeIsShape(grid: seq<int>, dims: nat)
    requires IsShape(grid) && dims > 0
    ensures IsShape(GridShape(grid, dims)) && |GridShape(grid, dims)| == dims
    ensures Product(GridShape(grid, dims)) == Product(grid)
  {
    if dims < |grid| {
      ProductSplit(grid, dims - 1);
      ProductPositive(grid[dims - 1..]);
      var shape := GridShape(grid, dims);
      assert shape[..|shape| - 1] == grid[..dims - 1];
    } else {
      ProductPadded(grid, dims - |grid|);
    }
  }

  lemma {:induction false} ProductSplit(s: seq<int>, k: nat)
    requires k <= |s|
    ensures Product(s) == Product(s[..k]) * Product(s[k..])
    decreases |s|
  {
    if k == |s| {
      assert s[..k] == s && s[k..] == [];
    } else {
      var last := |s| - 1;
      ProductSplit(s[..last], k);
      assert s[..last][..k] == s[..k] && s[..last][k..] == s[k..][..last - k];
      Associates(Product(s[..k]), Product(s[k..][..last - k]), s[last]);
    }
  }

  lemma Associates(a: int, b: int, c: int)
    ensures a * b * c == a * (b * c)
  {
  }

  lemma CancelLarger(p: int, q: int, x: int, y: int)
    requires p > 0 && q > 0 && 0 < y <= x && p * x <= q * y
    ensures p <= q && (p == q ==> x == y)
  {
    MulMonotone(y, x, q);
    MulMonotone(q + 1, p, x);
    MulMonotone(y + 1, x, p);
  }

  /** Of two different shapes with the same product one has a larger size somewhere. */
  lemma {:induction false} LargerSize(a: seq<int>, b: seq<int>) returns (i: nat)
    requires AllPositive(a) && AllPositive(b) && |a| == |b| && a != b && Product(a) <= Product(b)
    ensures i < |a| && b[i] > a[i]
    decreases |a|
  {
    var k := |a| - 1;
    if b[k] > a[k] {
      i := k;
    } else {
      var p, q := a[..k], b[..k];
      assert a == p + [a[k]] && b == q + [b[k]];
      ProductPositive(p);
      ProductPositive(q);
      CancelLarger(Product(p), Product(q), a[k], b[k]);
      i := LargerSize(p, q);
    }
  }

  /** Where the shapes differ, one in-grid core coordinate belongs to no core. */
  lemma WrongDestination(grid: seq<int>, dims: nat) returns (dst: Destination)
    requires IsShape(grid) && dims > 1 && CoreShape(grid, dims) != GridShape(grid, dims)
    ensures IsOrdinary(grid, dims, dst) && !IsRight(grid, dst)
  {
    var shape := GridShape(grid, dims);
    CoreShapeIsShape(grid, dims);
    GridShapeIsShape(grid, dims);
    var k := LargerSize(CoreShape(grid, dims), shape);
    var t := seq(dims, i requires 0 <= i < dims => if i == k then shape[k] - 1 else 0);
    var items := seq(dims, i requires 0 <= i < dims => Index(t[i]));
    dst := Tuple(items);
    assert Agreeing(grid, items) && InGrid(grid, items);
    ExpandedMembers(grid, items);
    assert Passes(grid, items, t);
    assert t[k] >= CoreShape(grid, dims)[k];
    ReceiverCount(grid, dst);
  }

  /** `(k,)` is counted as one receiver and received by no core, while `k` is right in the grid. */
  lemma LoneIndexIsNeverReceived(grid: seq<int>, k: int)
    requires IsShape(grid)
    ensures Receivers(grid, Tuple([Index(k)])) == {} && |Expanded(grid, [Index(k)])| == 1
    ensures |Receivers(grid, Linear(k))| == 1 <==> 0 <= k < Product(grid)
  {
    NoSlicesExpandToOne(grid, [Index(k)]);
    LinearReceivers(grid, k);
    if 0 <= k < Product(grid) {
      assert Receivers(grid, Linear(k)) == {k};
    } else {
      assert Receivers(grid, Linear(k)) == {};
    }
  }

  lemma LinearReceivers(grid: seq<int>, k: int)
    requires IsShape(grid)
    ensures forall cid :: 0 <= cid < Product(grid) ==> (InRange(grid, Linear(k), cid) <==> cid == k)
  {
    forall cid | 0 <= cid < Product(grid)
      ensures InRange(grid, Linear(k), cid) <==> cid == k
    {
      LinearShape(grid, cid);
    }
  }

  /** A rank in between: on a 2x3x4 grid the in-grid range (0, :) has twelve expanded cores but
      four that accept. */
  lemma MiddleRanksDisagree()
    ensures var grid, items := [2, 3, 4], [Index(0), Slice(None, None, None)];
            && IsShape(grid) && IsOrdinary(grid, 2, Tuple(items))
            && CoreShape(grid, 2) == [6, 4] && GridShape(grid, 2) == [2, 12]
            && |Receivers(grid, Tuple(items))| < |Expanded(grid, items)|
  {
    var grid, items := [2, 3, 4], [Index(0), Slice(None, None, None)];
    MiddleShapes();
    ZeroRowIsOrdinary(grid, items);
    OutsideIsExpanded(grid, items, [0, 5]);
    ReceiverCount(grid, Tuple(items));
  }

  lemma MiddleShapes()
    ensures CoreShape([2, 3, 4], 2) == [6, 4] && GridShape([2, 3, 4], 2) == [2, 12]
  {
    var grid := [2, 3, 4];
    assert Product([2]) == 2 && Product([2, 3]) == 6 && Product([3]) == 3 && Product([3, 4]) == 12 by {
      assert [2][..0] == [] && [2, 3][..1] == [2] && [3][..0] == [] && [3, 4][..1] == [3];
    }
    assert grid[..2] == [2, 3] && grid[2..] == [4] && grid[..1] == [2] && grid[1..] == [3, 4];
  }

  lemma ZeroRowIsOrdinary(grid: seq<int>, items: seq<Item>)
    requires IsShape(grid) && GridShape(grid, 2) == [2, 12] && items == [Index(0), Slice(None, None, None)]
    ensures IsOrdinary(grid, 2, Tuple(items))
  {
  }

  /** An expanded tuple that is no core's coordinate. */
  lemma OutsideIsExpanded(grid: seq<int>, items: seq<Item>, t: seq<int>)
    requires IsShape(grid) && GridShape(grid, 2) == [2, 12] && CoreShape(grid, 2) == [6, 4]
    requires items == [Index(0), Slice(None, None, None)] && t == [0, 5] && Agreeing(grid, items)
    ensures t in Expanded(grid, items) && !InBox(CoreShape(grid, 2), t)
  {
    ExpandedMembers(grid, items);
    assert Passes(grid, items, t);
    assert t[1] >= CoreShape(grid, 2)[1];
  }
}
