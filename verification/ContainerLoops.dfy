/** The two-loop proof for containers of handles in lib/Dialect/TTL/IR/TTLOpsVerifyUtils.cpp
    (`allTensorContainerWritesAreWaited`): one loop writes handles into a tensor, others read them
    back and wait.  The verdict, and what it has to do with the waits that really happen. */
module ContainerLoops {
  import opened IterSpaces
  import opened TransferProgram
  import opened Wrappers

  /** `isDirectWaitInLoopBody`. */
  predicate WaitedInside(p: Program, handle: nat, l: nat)
    requires Nested(p)
  {
    exists w: nat :: w < |p.ops| && p.ops[w] == Wait(handle) && Inside(p, w, l)
  }

  /** Operation o extracts from `tensor` at its innermost loop's index and waits for the handle in
      that loop, which has constant bounds. */
  ghost predicate IsReader(p: Program, tensor: nat, o: nat)
    requires WellFormed(p) && o < |p.ops|
  {
    && p.ops[o].Extract? && p.ops[o].tensor == tensor && |p.ops[o].indices| == 1 && ParentFor(p, o).Some?
    && var l := ParentFor(p, o).value;
    && p.ops[o].indices[0] == p.ops[l].iv
    && WaitedInside(p, p.ops[o].result, l)
    && p.ops[l].bounds.Some?
  }

  /** The bounds of the innermost `scf.for` around the operation. */
  function BoundsAround(p: Program, o: nat): IterSpace
    requires Nested(p) && o < |p.ops| && ParentFor(p, o).Some? && p.ops[ParentFor(p, o).value].bounds.Some?
  {
    p.ops[ParentFor(p, o).value].bounds.value
  }

  predicate Covers(read: IterSpace, write: IterSpace) {
    write.step == 1 && read.step == 1 && read.lb == write.lb && read.ub >= write.ub
  }

  ghost predicate IsCoveringReader(p: Program, tensor: nat, write: IterSpace, o: nat)
    requires WellFormed(p) && o < |p.ops|
  {
    IsReader(p, tensor, o) && Covers(BoundsAround(p, o), write)
  }

  /** The insert writes at its innermost loop's index a tensor that the loop yields, and the loop's
      bounds are constant. */
  predicate IsWriter(p: Program, o: nat)
    requires Nested(p) && o < |p.ops|
  {
    && p.ops[o].Insert? && p.ops[o].result in p.typedTensors && |p.ops[o].indices| == 1
    && ParentFor(p, o).Some?
    && var l := ParentFor(p, o).value;
    && p.ops[o].indices[0] == p.ops[l].iv
    && p.ops[o].result in p.ops[l].yielded
    && p.ops[l].bounds.Some?
  }

  /** The loop result that carries the writer's tensor out. */
  ghost function Container(p: Program, o: nat): nat
    requires WellFormed(p) && o < |p.ops| && IsWriter(p, o)
  {
    var l := ParentFor(p, o).value;
    assert OpWellFormed(p, l);
    p.ops[l].results[FirstIndex(p.ops[l].yielded, p.ops[o].result)]
  }

  ghost function ContainerVerdict(p: Program, o: nat): Option<bool>
    requires WellFormed(p) && o < |p.ops|
  {
    if !IsWriter(p, o) || !(exists r: nat :: r < |p.ops| && IsReader(p, Container(p, o), r)) then None
    else
      var write := BoundsAround(p, o);
      Some(exists r: nat :: r < |p.ops| && IsCoveringReader(p, Container(p, o), write, r))
  }

  /** `allTensorContainerWritesAreWaited`. */
  method ContainerWritesAreWaited(p: Program, o: nat) returns (covered: Option<bool>)
    requires WellFormed(p) && o < |p.ops| && p.ops[o].Insert?
    ensures covered == ContainerVerdict(p, o)
  {
    var insert := p.ops[o];
    if insert.result !in p.typedTensors || |insert.indices| != 1 || ParentFor(p, o).None? {
      return None;
    }
    var l := ParentFor(p, o).value;
    var loop := p.ops[l];
    assert OpWellFormed(p, l);
    if insert.indices[0] != loop.iv {
      return None;
    }
    var index := 0;
    while index < |loop.yielded| && loop.yielded[index] != insert.result
      invariant 0 <= index <= |loop.yielded|
      invariant forall j :: 0 <= j < index ==> loop.yielded[j] != insert.result
    {
      index := index + 1;
    }
    if index == |loop.yielded| || loop.bounds.None? {
      return None;
    }
    assert loop.yielded[index] in loop.yielded;
    var tensor := loop.results[index];
    assert tensor == Container(p, o);
    assert IsWriter(p, o) && BoundsAround(p, o) == loop.bounds.value;
    var sawWaitLoop, allCovered := false, false;
    for r := 0 to |p.ops|
      invariant sawWaitLoop <==> exists x: nat :: x < r && IsReader(p, tensor, x)
      invariant allCovered <==> exists x: nat :: x < r && IsCoveringReader(p, tensor, BoundsAround(p, o), x)
    {
      var found := ReadsAndWaits(p, tensor, r);
      if found {
        sawWaitLoop := true;
        if Covers(BoundsAround(p, r), loop.bounds.value) {
          assert IsCoveringReader(p, tensor, BoundsAround(p, o), r);
          allCovered := true;
        }
      }
    }
    return if sawWaitLoop then Some(allCovered) else None;
  }

  /** The checks on one use of the container. */
  method ReadsAndWaits(p: Program, tensor: nat, r: nat) returns (found: bool)
    requires WellFormed(p) && r < |p.ops|
    ensures found <==> IsReader(p, tensor, r)
  {
    if !p.ops[r].Extract? || p.ops[r].tensor != tensor || |p.ops[r].indices| != 1 || ParentFor(p, r).None? {
      return false;
    }
    var l := ParentFor(p, r).value;
    return p.ops[r].indices[0] == p.ops[l].iv && WaitedInside(p, p.ops[r].result, l) && p.ops[l].bounds.Some?;
  }

  // ----- What really happens -----

  /** A tensor's element: the handle that an insert wrote in an iteration of the writer loop, or
      something else. */
  datatype Cell = Written(op: nat, iteration: nat) | Foreign

  /** All that a program leaves open: the bounds of loops that are not constant, whether other
      operations run their regions, the indices of inserts that do not use the loop's own, and the
      contents of tensors from outside the writer loop's body. */
  datatype Execution = Execution(spaces: nat -> IterSpace, enters: nat -> bool,
                                 indices: (nat, nat) -> int, outside: (nat, nat, int) -> Cell)

  predicate IsConstantFor(p: Program, l: nat)
    requires l < |p.ops|
  {
    p.ops[l].Loop? && p.ops[l].isFor && p.ops[l].bounds.Some?
  }

  /** Constant bounds are what they are. */
  ghost predicate Respects(e: Execution, p: Program) {
    forall l: nat | l < |p.ops| && IsConstantFor(p, l) :: e.spaces(l) == p.ops[l].bounds.value
  }

  /** The body of x runs. */
  predicate RegionRuns(p: Program, e: Execution, x: nat)
    requires x < |p.ops|
  {
    if p.ops[x].Loop? && p.ops[x].isFor then Trips(e.spaces(x)) > 0 else e.enters(x)
  }

  /** The index that insert u writes at in iteration j of loop l. */
  function IndexAt(p: Program, e: Execution, l: nat, u: nat, j: nat): int
    requires l < |p.ops| && p.ops[l].Loop? && u < |p.ops| && p.ops[u].Insert?
  {
    if p.ops[u].indices == [p.ops[l].iv] then Nth(e.spaces(l), j) else e.indices(u, j)
  }

  /** An insert's result as defined in the body of l, and the insert. */
  predicate InsertedIn(p: Program, l: nat, v: nat)
    requires Nested(p)
  {
    v < |p.defs| && p.defs[v].ByInsert? && p.defs[v].op < |p.ops| && p.scopes[p.defs[v].op] == Some(l)
  }

  function InsertNumber(p: Program, v: nat): nat {
    if v < |p.defs| && p.defs[v].ByInsert? then p.defs[v].op + 1 else 0
  }

  lemma DestIsEarlier(p: Program, v: nat)
    requires WellFormed(p) && InsertsDominate(p) && v < |p.defs| && p.defs[v].ByInsert?
    ensures var u := p.defs[v].op;
            && u < |p.ops| && p.ops[u].Insert? && p.ops[u].result == v && p.ops[u].dest < |p.defs|
            && InsertNumber(p, p.ops[u].dest) < InsertNumber(p, v)
  {
    var u := p.defs[v].op;
    assert DefWellFormed(p, v);
    assert OpWellFormed(p, u);
    assert p.ops[u].dest in OperandsOf(p, u);
    assert InsertDominates(p, u, p.ops[u].dest);
  }

  /** Element i of tensor value v in iteration j of loop l. */
  ghost function ElementAt(p: Program, e: Execution, l: nat, v: nat, j: nat, i: int): Cell
    requires WellFormed(p) && InsertsDominate(p) && l < |p.ops| && p.ops[l].Loop? && v < |p.defs|
    decreases j, InsertNumber(p, v)
  {
    if InsertedIn(p, l, v) then
      DestIsEarlier(p, v);
      var u := p.defs[v].op;
      if IndexAt(p, e, l, u, j) == i then Written(u, j) else ElementAt(p, e, l, p.ops[u].dest, j, i)
    else
      var carried := CarriedOver(p, l, v);
      if carried.Some? && j > 0 then ElementAt(p, e, l, carried.value, j - 1, i) else e.outside(v, j, i)
  }

  /** What an argument of l was yielded as in the iteration before. */
  ghost function CarriedOver(p: Program, l: nat, v: nat): (y: Option<nat>)
    requires WellFormed(p) && InsertsDominate(p) && l < |p.ops| && p.ops[l].Loop? && v < |p.defs|
    ensures y.Some? ==> y.value < |p.defs| && !p.defs[v].ByInsert?
  {
    match p.defs[v]
    case IterArg(x, m) =>
      assert LoopCloses(p, l) && OpWellFormed(p, l) && OpWellFormed(p, p.ops[l].terminator);
      if x == l && m < |p.ops[l].yielded| then
        assert p.ops[l].yielded[m] in OperandsOf(p, p.ops[l].terminator);
        Some(p.ops[l].yielded[m])
      else None
    case _ => None
  }

  /** Element i of what the writer loop has in the insert's result at its end. */
  ghost function ContainerAt(p: Program, e: Execution, o: nat, i: int): Cell
    requires WellFormed(p) && InsertsDominate(p) && o < |p.ops| && IsWriter(p, o)
  {
    assert OpWellFormed(p, o);
    var l := ParentFor(p, o).value;
    var n := Trips(p.ops[l].bounds.value);
    if n == 0 then Foreign else ElementAt(p, e, l, p.ops[o].result, n - 1, i)
  }

  /** The loop result t carries the insert's result out. */
  predicate CarriesOut(p: Program, o: nat, t: nat)
    requires Nested(p) && o < |p.ops| && IsWriter(p, o)
  {
    var loop := p.ops[ParentFor(p, o).value];
    exists m: nat :: m < |loop.yielded| && m < |loop.results| &&
                     loop.yielded[m] == p.ops[o].result && loop.results[m] == t
  }

  /** Operation r reads the container at its innermost loop's index. */
  predicate Reads(p: Program, o: nat, r: nat)
    requires Nested(p) && o < |p.ops| && IsWriter(p, o) && r < |p.ops|
  {
    && p.ops[r].Extract? && CarriesOut(p, o, p.ops[r].tensor) && ParentFor(p, r).Some?
    && p.ops[r].indices == [p.ops[ParentFor(p, r).value].iv]
  }

  /** Operation x is around w, but neither the reader's own loop nor around the writer. */
  predicate Between(p: Program, o: nat, r: nat, w: nat, x: nat)
    requires Nested(p) && o < |p.ops| && r < |p.ops| && w < |p.ops| && ParentFor(p, r).Some?
  {
    Inside(p, w, x) && x != ParentFor(p, r).value && !Inside(p, o, x)
  }

  /** Whenever the writer loop has run, w waits for what r reads in each iteration of r's loop. */
  ghost predicate WaitsFor(p: Program, e: Execution, o: nat, r: nat, w: nat)
    requires Nested(p) && o < |p.ops| && IsWriter(p, o) && r < |p.ops| && Reads(p, o, r) && w < |p.ops|
  {
    && p.ops[w] == Wait(p.ops[r].result) && Inside(p, w, ParentFor(p, r).value)
    && forall x: nat | x < |p.ops| && Between(p, o, r, w, x) :: RegionRuns(p, e, x)
  }

  ghost predicate WaitedThrough(p: Program, e: Execution, o: nat, j: nat, r: nat, w: nat, i: int)
    requires WellFormed(p) && InsertsDominate(p) && o < |p.ops| && IsWriter(p, o)
  {
    && r < |p.ops| && w < |p.ops| && Reads(p, o, r) && WaitsFor(p, e, o, r, w)
    && Visits(e.spaces(ParentFor(p, r).value), i) && ContainerAt(p, e, o, i) == Written(o, j)
  }

  /** The handle written in iteration j is waited for, read back from the container. */
  ghost predicate HandleWaited(p: Program, e: Execution, o: nat, j: nat)
    requires WellFormed(p) && InsertsDominate(p) && o < |p.ops| && IsWriter(p, o)
  {
    exists r: nat, w: nat, i: int :: WaitedThrough(p, e, o, j, r, w, i)
  }

  /** Every handle that the insert writes is waited for. */
  ghost predicate AllWaited(p: Program, e: Execution, o: nat)
    requires WellFormed(p) && InsertsDominate(p) && o < |p.ops| && IsWriter(p, o)
  {
    forall j: nat | j < Trips(BoundsAround(p, o)) :: HandleWaited(p, e, o, j)
  }

  // ----- What the container keeps -----

  /** Going back through the inserts of l's body, the first value that is not one of them. */
  ghost function BaseOf(p: Program, l: nat, v: nat): (b: nat)
    requires WellFormed(p) && InsertsDominate(p) && l < |p.ops| && p.ops[l].Loop? && v < |p.defs|
    ensures b < |p.defs| && !InsertedIn(p, l, b)
    decreases InsertNumber(p, v)
  {
    if InsertedIn(p, l, v) then
      DestIsEarlier(p, v);
      BaseOf(p, l, p.ops[p.defs[v].op].dest)
    else v
  }

  /** All those inserts are at l's own index. */
  ghost predicate InsertsAtIndex(p: Program, l: nat, v: nat)
    requires WellFormed(p) && InsertsDominate(p) && l < |p.ops| && p.ops[l].Loop? && v < |p.defs|
    decreases InsertNumber(p, v)
  {
    InsertedIn(p, l, v) ==>
      (DestIsEarlier(p, v);
       var u := p.defs[v].op;
       p.ops[u].indices == [p.ops[l].iv] && InsertsAtIndex(p, l, p.ops[u].dest))
  }

  /** The insert adds to the tensor that it yielded in the iteration before. */
  ghost predicate Keeps(p: Program, o: nat)
    requires WellFormed(p) && InsertsDominate(p) && o < |p.ops| && IsWriter(p, o)
  {
    assert OpWellFormed(p, o) && p.ops[o].dest in OperandsOf(p, o);
    var l, dest := ParentFor(p, o).value, p.ops[o].dest;
    InsertsAtIndex(p, l, dest) && CarriedOver(p, l, BaseOf(p, l, dest)) == Some(p.ops[o].result)
  }

  /** The insert is in the loop's own body. */
  lemma WriterIsInBody(p: Program, o: nat)
    requires WellFormed(p) && InsertsDominate(p) && o < |p.ops| && IsWriter(p, o)
    ensures var l := ParentFor(p, o).value;
            && p.ops[o].result < |p.defs| && p.defs[p.ops[o].result] == ByInsert(o)
            && p.scopes[o] == Some(l) && InsertedIn(p, l, p.ops[o].result)
            && p.ops[o].indices == [p.ops[l].iv] && p.ops[o].dest < |p.defs|
  {
    var l := ParentFor(p, o).value;
    assert OpWellFormed(p, o) && OpWellFormed(p, l) && LoopCloses(p, l);
    var t := p.ops[l].terminator;
    assert p.ops[o].result in OperandsOf(p, t) && p.ops[o].dest in OperandsOf(p, o);
    assert InsertDominates(p, t, p.ops[o].result);
    ScopeIsLoop(p, t, o, l);
  }

  /** What is around l's body besides l comes before l. */
  lemma ScopeIsLoop(p: Program, t: nat, o: nat, l: nat)
    requires Nested(p) && t < |p.ops| && o < |p.ops| && p.scopes[t] == Some(l) && ParentFor(p, o) == Some(l)
    requires p.scopes[o].Some? ==> Inside(p, t, p.scopes[o].value)
    ensures p.scopes[o] == Some(l)
  {
    var x := p.scopes[o].value;
    if x != l {
      InsideIsEarlier(p, l, x);
    }
  }

  lemma {:induction false} InsideIsEarlier(p: Program, o: nat, x: nat)
    requires Nested(p) && o < |p.ops| && Inside(p, o, x)
    ensures x < o
    decreases o
  {
    if p.scopes[o].value != x {
      InsideIsEarlier(p, p.scopes[o].value, x);
    }
  }

  /** Inserts at the loop's own index leave the other elements alone. */
  lemma {:induction false} PassesInserts(p: Program, e: Execution, l: nat, v: nat, q: nat, i: int)
    requires WellFormed(p) && InsertsDominate(p) && l < |p.ops| && p.ops[l].Loop? && v < |p.defs|
    requires InsertsAtIndex(p, l, v) && i != Nth(e.spaces(l), q)
    ensures ElementAt(p, e, l, v, q, i) == ElementAt(p, e, l, BaseOf(p, l, v), q, i)
    decreases InsertNumber(p, v)
  {
    if InsertedIn(p, l, v) {
      DestIsEarlier(p, v);
      PassesInserts(p, e, l, p.ops[p.defs[v].op].dest, q, i);
    }
  }

  /** A writer that keeps the container has, after iteration q, every handle written until then. */
  lemma {:induction false} KeptElement(p: Program, e: Execution, o: nat, j: nat, q: nat)
    requires WellFormed(p) && InsertsDominate(p) && o < |p.ops| && IsWriter(p, o) && Respects(e, p)
    requires j <= q < Trips(BoundsAround(p, o)) && (j < q ==> Keeps(p, o))
    requires p.ops[o].result < |p.defs|
    ensures ElementAt(p, e, ParentFor(p, o).value, p.ops[o].result, q, Nth(BoundsAround(p, o), j)) == Written(o, j)
    decreases q
  {
    WriterIsInBody(p, o);
    var l, i := ParentFor(p, o).value, Nth(BoundsAround(p, o), j);
    assert IsConstantFor(p, l);
    if j < q {
      NthDiffers(BoundsAround(p, o), j, q);
      PassesInserts(p, e, l, p.ops[o].dest, q, i);
      KeptElement(p, e, o, j, q - 1);
    }
  }

  /** The least that an execution need do: only constant loops run, all inserts not at their loop's
      own index write at `at`, and nothing comes from outside. */
  ghost function Least(p: Program, at: int): Execution {
    Execution((l: nat) => if l < |p.ops| && IsConstantFor(p, l) then p.ops[l].bounds.value else IterSpace(0, 0, 1),
              (x: nat) => false, (u: nat, j: nat) => at, (v: nat, j: nat, i: int) => Foreign)
  }

  lemma LeastRespects(p: Program, at: int)
    ensures Respects(Least(p, at), p)
  {
  }

  /** An element holds a handle only at the index and after the iteration it was written in. */
  lemma {:induction false} WrittenWhere(p: Program, at: int, l: nat, v: nat, q: nat, i: int, u: nat, j: nat)
    requires WellFormed(p) && InsertsDominate(p) && l < |p.ops| && p.ops[l].Loop? && v < |p.defs|
    requires ElementAt(p, Least(p, at), l, v, q, i) == Written(u, j)
    ensures j <= q && u < |p.ops| && p.ops[u].Insert? && IndexAt(p, Least(p, at), l, u, j) == i
    decreases q, InsertNumber(p, v)
  {
    var e := Least(p, at);
    if InsertedIn(p, l, v) {
      DestIsEarlier(p, v);
      var x := p.defs[v].op;
      if IndexAt(p, e, l, x, q) != i {
        WrittenWhere(p, at, l, p.ops[x].dest, q, i, u, j);
      }
    } else {
      var carried := CarriedOver(p, l, v);
      if carried.Some? && q > 0 {
        WrittenWhere(p, at, l, carried.value, q - 1, i, u, j);
      }
    }
  }

  /** Another insert that writes at i in iteration q hides what was there. */
  lemma {:induction false} Hides(p: Program, at: int, l: nat, v: nat, q: nat)
    requires WellFormed(p) && InsertsDominate(p) && l < |p.ops| && p.ops[l].Loop? && v < |p.defs|
    requires Nth(Least(p, at).spaces(l), q) != at && !InsertsAtIndex(p, l, v)
    ensures exists u: nat :: ElementAt(p, Least(p, at), l, v, q, at) == Written(u, q)
    decreases InsertNumber(p, v)
  {
    DestIsEarlier(p, v);
    var u := p.defs[v].op;
    if p.ops[u].indices == [p.ops[l].iv] {
      Hides(p, at, l, p.ops[u].dest, q);
    }
  }

  /** A writer that does not keep the container may lose the last handle but one. */
  lemma LosesHandle(p: Program, o: nat, i: int)
    requires WellFormed(p) && InsertsDominate(p) && o < |p.ops| && IsWriter(p, o)
    requires var n := Trips(BoundsAround(p, o)); n >= 2 && !Keeps(p, o)
    ensures var write := BoundsAround(p, o);
            var n := Trips(write);
            ContainerAt(p, Least(p, Nth(write, n - 2)), o, i) != Written(o, n - 2)
  {
    WriterIsInBody(p, o);
    var l, write := ParentFor(p, o).value, BoundsAround(p, o);
    var n := Trips(write);
    var at := Nth(write, n - 2);
    var e, dest := Least(p, at), p.ops[o].dest;
    assert IsConstantFor(p, l) && e.spaces(l) == write;
    if ContainerAt(p, e, o, i) == Written(o, n - 2) {
      WrittenWhere(p, at, l, p.ops[o].result, n - 1, i, o, n - 2);
      assert i == at;
      NthDiffers(write, n - 2, n - 1);
      if InsertsAtIndex(p, l, dest) {
        PassesInserts(p, e, l, dest, n - 1, at);
        LosesBefore(p, o, BaseOf(p, l, dest));
      } else {
        Hides(p, at, l, dest, n - 1);
      }
      assert false;
    }
  }

  /** What was carried over from the iteration before is another insert's result, or has nothing
      from that iteration. */
  lemma LosesBefore(p: Program, o: nat, base: nat)
    requires WellFormed(p) && InsertsDominate(p) && o < |p.ops| && IsWriter(p, o) && base < |p.defs|
    requires var n := Trips(BoundsAround(p, o)); n >= 2
    requires var l := ParentFor(p, o).value;
             !InsertedIn(p, l, base) && CarriedOver(p, l, base) != Some(p.ops[o].result)
    ensures var write, l := BoundsAround(p, o), ParentFor(p, o).value;
            var n := Trips(write);
            var at := Nth(write, n - 2);
            ElementAt(p, Least(p, at), l, base, n - 1, at) != Written(o, n - 2)
  {
    WriterIsInBody(p, o);
    var l, write := ParentFor(p, o).value, BoundsAround(p, o);
    var n := Trips(write);
    var at := Nth(write, n - 2);
    var e, carried := Least(p, at), CarriedOver(p, l, base);
    assert IsConstantFor(p, l) && e.spaces(l) == write;
    if carried.Some? {
      var y := carried.value;
      if InsertedIn(p, l, y) {
        DestIsEarlier(p, y);
        assert IndexAt(p, e, l, p.defs[y].op, n - 2) == at;
      } else if ElementAt(p, e, l, y, n - 2, at) == Written(o, n - 2) {
        var before := CarriedOver(p, l, y);
        if before.Some? && n > 2 {
          WrittenWhere(p, at, l, before.value, n - 3, at, o, n - 2);
        }
        assert false;
      }
    }
  }

  // ----- When everything written is waited for -----

  /** Every operation between is a constant loop that runs. */
  predicate SurelyWaits(p: Program, o: nat, r: nat, w: nat)
    requires Nested(p) && o < |p.ops| && IsWriter(p, o) && r < |p.ops| && Reads(p, o, r) && w < |p.ops|
  {
    && p.ops[w] == Wait(p.ops[r].result) && Inside(p, w, ParentFor(p, r).value)
    && forall x: nat | x < |p.ops| && Between(p, o, r, w, x) ::
         IsConstantFor(p, x) && Trips(p.ops[x].bounds.value) > 0
  }

  /** A reader in a constant loop, with a wait that surely runs. */
  predicate IsSureReader(p: Program, o: nat, r: nat)
    requires Nested(p) && o < |p.ops| && IsWriter(p, o)
  {
    && r < |p.ops| && Reads(p, o, r) && p.ops[ParentFor(p, r).value].bounds.Some?
    && exists w: nat :: w < |p.ops| && SurelyWaits(p, o, r, w)
  }

  /** The bounds of the loops with a sure reader among the first n operations. */
  function SureSpaces(p: Program, o: nat, n: nat): seq<IterSpace>
    requires Nested(p) && o < |p.ops| && IsWriter(p, o) && n <= |p.ops|
  {
    if n == 0 then []
    else SureSpaces(p, o, n - 1) + if IsSureReader(p, o, n - 1) then [BoundsAround(p, n - 1)] else []
  }

  /** Some sure reader reads index i. */
  ghost predicate SurelyReadAt(p: Program, o: nat, i: int)
    requires Nested(p) && o < |p.ops| && IsWriter(p, o)
  {
    exists r: nat :: IsSureReader(p, o, r) && Visits(BoundsAround(p, r), i)
  }

  lemma {:induction false} SpacesOfReaders(p: Program, o: nat, i: int, n: nat)
    requires Nested(p) && o < |p.ops| && IsWriter(p, o) && n <= |p.ops|
    ensures SomeVisits(SureSpaces(p, o, n), i) <==>
              exists r: nat :: r < n && IsSureReader(p, o, r) && Visits(BoundsAround(p, r), i)
  {
    if n > 0 {
      SpacesOfReaders(p, o, i, n - 1);
      var before, now := SureSpaces(p, o, n - 1), SureSpaces(p, o, n);
      if SomeVisits(before, i) {
        var x: nat :| x < |before| && Visits(before[x], i);
        assert now[x] == before[x];
      }
      if IsSureReader(p, o, n - 1) {
        assert now[|before|] == BoundsAround(p, n - 1);
      }
      if SomeVisits(now, i) {
        var x: nat :| x < |now| && Visits(now[x], i);
        assert x < |before| ==> Visits(before[x], i);
      }
    }
  }

  /** In every execution. */
  ghost predicate AlwaysWaited(p: Program, o: nat)
    requires WellFormed(p) && InsertsDominate(p) && o < |p.ops| && IsWriter(p, o)
  {
    forall e: Execution :: Respects(e, p) ==> AllWaited(p, e, o)
  }

  ghost predicate KeepsHandles(p: Program, o: nat)
    requires WellFormed(p) && InsertsDominate(p) && o < |p.ops| && IsWriter(p, o)
  {
    Trips(BoundsAround(p, o)) <= 1 || Keeps(p, o)
  }

  /** The sure readers together read every index written; that is told by the decisive iterations
      of the writer loop, of which IterSpaces.DecisiveAreFew bounds the number. */
  ghost predicate ReadsAll(p: Program, o: nat)
    requires Nested(p) && o < |p.ops| && IsWriter(p, o)
  {
    var spaces, write := SureSpaces(p, o, |p.ops|), BoundsAround(p, o);
    forall k: nat | k < Trips(write) && IsDecisive(spaces, write, k) :: SomeVisits(spaces, Nth(write, k))
  }

  lemma ReadsAllIff(p: Program, o: nat)
    requires Nested(p) && o < |p.ops| && IsWriter(p, o)
    ensures ReadsAll(p, o) <==>
              forall k: nat | k < Trips(BoundsAround(p, o)) :: SurelyReadAt(p, o, Nth(BoundsAround(p, o), k))
  {
    var spaces, write := SureSpaces(p, o, |p.ops|), BoundsAround(p, o);
    if write.step > 0 {
      CoverIff(spaces, write);
    }
    forall k: nat | k < Trips(write)
      ensures SomeVisits(spaces, Nth(write, k)) <==> SurelyReadAt(p, o, Nth(write, k))
    {
      SpacesOfReaders(p, o, Nth(write, k), |p.ops|);
    }
  }

  lemma SureWaitRuns(p: Program, e: Execution, o: nat, j: nat, r: nat)
    requires WellFormed(p) && InsertsDominate(p) && o < |p.ops| && IsWriter(p, o) && Respects(e, p)
    requires j < Trips(BoundsAround(p, o)) && KeepsHandles(p, o)
    requires IsSureReader(p, o, r) && Visits(BoundsAround(p, r), Nth(BoundsAround(p, o), j))
    ensures HandleWaited(p, e, o, j)
  {
    var i := Nth(BoundsAround(p, o), j);
    var w: nat :| w < |p.ops| && SurelyWaits(p, o, r, w);
    WriterIsInBody(p, o);
    KeptElement(p, e, o, j, Trips(BoundsAround(p, o)) - 1);
    assert IsConstantFor(p, ParentFor(p, r).value);
    assert WaitsFor(p, e, o, r, w);
    assert WaitedThrough(p, e, o, j, r, w, i);
  }

  lemma LeastWaits(p: Program, at: int, o: nat, j: nat)
    requires WellFormed(p) && InsertsDominate(p) && o < |p.ops| && IsWriter(p, o)
    requires j < Trips(BoundsAround(p, o)) && HandleWaited(p, Least(p, at), o, j)
    ensures SurelyReadAt(p, o, Nth(BoundsAround(p, o), j))
  {
    var e := Least(p, at);
    var r: nat, w: nat, i: int :| WaitedThrough(p, e, o, j, r, w, i);
    WriterIsInBody(p, o);
    var l, reader := ParentFor(p, o).value, ParentFor(p, r).value;
    WrittenWhere(p, at, l, p.ops[o].result, Trips(BoundsAround(p, o)) - 1, i, o, j);
    assert IsConstantFor(p, l) && i == Nth(BoundsAround(p, o), j);
    assert IsConstantFor(p, reader);
    forall x: nat | x < |p.ops| && Between(p, o, r, w, x)
      ensures IsConstantFor(p, x) && Trips(p.ops[x].bounds.value) > 0
    {
      assert RegionRuns(p, e, x);
    }
    assert SurelyWaits(p, o, r, w);
    assert IsSureReader(p, o, r);
  }

  /** Everything that the writer loop writes is waited for in every execution if and only if the
      loop runs at most once or adds to its own tensor, and the sure readers read every index. */
  lemma AlwaysWaitedIff(p: Program, o: nat)
    requires WellFormed(p) && InsertsDominate(p) && o < |p.ops| && IsWriter(p, o)
    ensures AlwaysWaited(p, o) <==> KeepsHandles(p, o) && ReadsAll(p, o)
  {
    var write := BoundsAround(p, o);
    var n := Trips(write);
    ReadsAllIff(p, o);
    if KeepsHandles(p, o) && ReadsAll(p, o) {
      forall e: Execution, j: nat | Respects(e, p) && j < n
        ensures HandleWaited(p, e, o, j)
      {
        assert SurelyReadAt(p, o, Nth(write, j));
        var r: nat :| IsSureReader(p, o, r) && Visits(BoundsAround(p, r), Nth(write, j));
        SureWaitRuns(p, e, o, j, r);
      }
    }
    if AlwaysWaited(p, o) {
      LeastRespects(p, 0);
      forall k: nat | k < n
        ensures SurelyReadAt(p, o, Nth(write, k))
      {
        LeastWaits(p, 0, o, k);
      }
      if !KeepsHandles(p, o) {
        LosesSome(p, o);
      }
    }
  }

  lemma LosesSome(p: Program, o: nat)
    requires WellFormed(p) && InsertsDominate(p) && o < |p.ops| && IsWriter(p, o) && !KeepsHandles(p, o)
    ensures !AlwaysWaited(p, o)
  {
    var write := BoundsAround(p, o);
    var n := Trips(write);
    var e := Least(p, Nth(write, n - 2));
    LeastRespects(p, Nth(write, n - 2));
    if HandleWaited(p, e, o, n - 2) {
      var r: nat, w: nat, i: int :| WaitedThrough(p, e, o, n - 2, r, w, i);
      LosesHandle(p, o, i);
      assert false;
    }
  }

  // ----- What the verdict says of it -----

  ghost predicate HasSureCover(p: Program, o: nat)
    requires WellFormed(p) && o < |p.ops| && IsWriter(p, o)
  {
    exists r: nat :: r < |p.ops| && IsCoveringReader(p, Container(p, o), BoundsAround(p, o), r) && IsSureReader(p, o, r)
  }

  /** A positive verdict is right if and only if the writer keeps its handles, and a covering loop's
      wait surely runs, or else other readers do for it. */
  lemma PositiveVerdictIsRightIff(p: Program, o: nat)
    requires WellFormed(p) && InsertsDominate(p) && o < |p.ops| && ContainerVerdict(p, o) == Some(true)
    ensures AlwaysWaited(p, o) <==> KeepsHandles(p, o) && (HasSureCover(p, o) || ReadsAll(p, o))
  {
    AlwaysWaitedIff(p, o);
    if HasSureCover(p, o) {
      SureCoverReadsAll(p, o);
    }
  }

  lemma SureCoverReadsAll(p: Program, o: nat)
    requires WellFormed(p) && o < |p.ops| && IsWriter(p, o) && HasSureCover(p, o)
    ensures ReadsAll(p, o)
  {
    ReadsAllIff(p, o);
    var write := BoundsAround(p, o);
    var r: nat :| r < |p.ops| && IsCoveringReader(p, Container(p, o), write, r) && IsSureReader(p, o, r);
    forall k: nat | k < Trips(write)
      ensures SurelyReadAt(p, o, Nth(write, k))
    {
      NthIsVisited(write, k);
      assert Visits(BoundsAround(p, r), Nth(write, k));
    }
  }

  /** A negative verdict is wrong if and only if the writer keeps its handles and the sure readers
      together read every decisive iteration's index. */
  lemma NegativeVerdictIsWrongIff(p: Program, o: nat)
    requires WellFormed(p) && InsertsDominate(p) && o < |p.ops| && ContainerVerdict(p, o) == Some(false)
    ensures AlwaysWaited(p, o) <==> KeepsHandles(p, o) && ReadsAll(p, o)
  {
    AlwaysWaitedIff(p, o);
  }

  /** With one reader: what the verdict compares, and what is true. */
  lemma OneReaderVerdict(p: Program, o: nat, r: nat)
    requires WellFormed(p) && InsertsDominate(p) && o < |p.ops| && IsWriter(p, o) && r < |p.ops|
    requires IsReader(p, Container(p, o), r) && forall x: nat | x < |p.ops| :: Reads(p, o, x) <==> x == r
    ensures var write, read := BoundsAround(p, o), BoundsAround(p, r);
            && ContainerVerdict(p, o) == Some(Covers(read, write))
            && (AlwaysWaited(p, o) <==>
                  KeepsHandles(p, o) && (Trips(write) == 0 || (Contains(read, write) && IsSureReader(p, o, r))))
  {
    var write, read := BoundsAround(p, o), BoundsAround(p, r);
    AlwaysWaitedIff(p, o);
    ReadsAllIff(p, o);
    ContainsIff(read, write);
    OnlyReader(p, o, r);
    if IsSureReader(p, o, r) && ReadsAll(p, o) {
      forall i | Visits(write, i)
        ensures Visits(read, i)
      {
        var k := VisitedIsNth(write, i);
        assert SurelyReadAt(p, o, i);
      }
    }
    if Contains(read, write) && IsSureReader(p, o, r) {
      forall k: nat | k < Trips(write)
        ensures SurelyReadAt(p, o, Nth(write, k))
      {
        NthIsVisited(write, k);
      }
    }
    if Trips(write) > 0 && ReadsAll(p, o) {
      assert SurelyReadAt(p, o, Nth(write, 0));
    }
  }

  lemma OnlyReader(p: Program, o: nat, r: nat)
    requires WellFormed(p) && o < |p.ops| && IsWriter(p, o) && r < |p.ops|
    requires IsReader(p, Container(p, o), r) && forall x: nat | x < |p.ops| :: Reads(p, o, x) <==> x == r
    ensures forall x: nat | x < |p.ops| :: IsReader(p, Container(p, o), x) <==> x == r
    ensures ContainerVerdict(p, o) == Some(Covers(BoundsAround(p, r), BoundsAround(p, o)))
  {
    forall x: nat | x < |p.ops| && IsReader(p, Container(p, o), x)
      ensures x == r
    {
      ReaderReads(p, o, x);
    }
    if Covers(BoundsAround(p, r), BoundsAround(p, o)) {
      assert IsCoveringReader(p, Container(p, o), BoundsAround(p, o), r);
    }
  }

  lemma ReaderReads(p: Program, o: nat, x: nat)
    requires WellFormed(p) && o < |p.ops| && IsWriter(p, o) && x < |p.ops| && IsReader(p, Container(p, o), x)
    ensures Reads(p, o, x)
  {
    var loop := p.ops[ParentFor(p, o).value];
    assert OpWellFormed(p, ParentFor(p, o).value);
    var m := FirstIndex(loop.yielded, p.ops[o].result);
    assert loop.yielded[m] == p.ops[o].result && loop.results[m] == Container(p, o);
  }

  // ----- Two loops -----

  /** A writer loop that inserts into `dest` (2 is the tensor before the loop, 3 the loop's own
      argument), and a reader loop that waits inside an inner loop. */
  function TwoLoops(write: IterSpace, read: IterSpace, dest: nat, inner: IterSpace): Program {
    Program([Loop(true, 0, Some(write), [2], [3], [4], [5], 3),
             Copy(1), Insert(1, dest, [0], 4), Yield(0),
             Loop(true, 6, Some(read), [], [], [], [], 9),
             Extract(5, [6], 7), Loop(true, 8, Some(inner), [], [], [], [], 8), Wait(7), Yield(6), Yield(4)],
            [Otherwise, ByCopy, Otherwise, IterArg(0, 0), ByInsert(2), LoopResult(0, 0), Otherwise, ByExtract(5),
             Otherwise],
            [None, Some(0), Some(0), Some(0), None, Some(4), Some(4), Some(6), Some(6), Some(4)],
            {1, 7}, {2, 3, 4, 5})
  }

  lemma TwoLoopsOps(write: IterSpace, read: IterSpace, dest: nat, inner: IterSpace, o: nat)
    requires (dest == 2 || dest == 3) && o < 10
    ensures OpWellFormed(TwoLoops(write, read, dest, inner), o)
  {
    assert o == 0 || o == 1 || o == 2 || o == 3 || o == 4 || o == 5 || o == 6 || o == 7 || o == 8 || o == 9;
  }

  lemma TwoLoopsValues(write: IterSpace, read: IterSpace, dest: nat, inner: IterSpace, v: nat)
    requires v < 9
    ensures DefWellFormed(TwoLoops(write, read, dest, inner), v)
  {
    assert v == 0 || v == 1 || v == 2 || v == 3 || v == 4 || v == 5 || v == 6 || v == 7 || v == 8;
  }

  lemma TwoLoopsDominance(write: IterSpace, read: IterSpace, dest: nat, inner: IterSpace, o: nat, v: nat)
    requires (dest == 2 || dest == 3) && o < 10
    requires Nested(TwoLoops(write, read, dest, inner)) && v in OperandsOf(TwoLoops(write, read, dest, inner), o)
    ensures InsertDominates(TwoLoops(write, read, dest, inner), o, v)
  {
    assert o == 0 || o == 1 || o == 2 || o == 3 || o == 4 || o == 5 || o == 6 || o == 7 || o == 8 || o == 9;
    assert v == 4 ==> o == 3;
  }

  lemma TwoLoopsWellFormed(write: IterSpace, read: IterSpace, dest: nat, inner: IterSpace)
    requires dest == 2 || dest == 3
    ensures WellFormed(TwoLoops(write, read, dest, inner)) && InsertsDominate(TwoLoops(write, read, dest, inner))
  {
    var p := TwoLoops(write, read, dest, inner);
    forall o: nat | o < |p.ops|
      ensures OpWellFormed(p, o)
    {
      TwoLoopsOps(write, read, dest, inner, o);
    }
    forall v: nat | v < |p.defs|
      ensures DefWellFormed(p, v)
    {
      TwoLoopsValues(write, read, dest, inner, v);
    }
    forall o: nat, v: nat | o < |p.ops| && v in OperandsOf(p, o)
      ensures InsertDominates(p, o, v)
    {
      TwoLoopsDominance(write, read, dest, inner, o, v);
    }
  }

  lemma TwoLoopsShape(write: IterSpace, read: IterSpace, dest: nat, inner: IterSpace)
    requires dest == 2 || dest == 3
    ensures var p := TwoLoops(write, read, dest, inner);
            && WellFormed(p) && IsWriter(p, 2) && Container(p, 2) == 5
            && (forall x: nat | x < 10 :: Reads(p, 2, x) <==> x == 5) && IsReader(p, 5, 5)
            && BoundsAround(p, 2) == write && BoundsAround(p, 5) == read
  {
    var p := TwoLoops(write, read, dest, inner);
    TwoLoopsWellFormed(write, read, dest, inner);
    assert ParentFor(p, 2) == Some(0) && ParentFor(p, 5) == Some(4);
    assert p.ops[7] == Wait(7) && Inside(p, 7, 6) && Inside(p, 7, 4);
    assert WaitedInside(p, 7, 4);
    assert FirstIndex([4], 4) == 0;
    assert p.ops[0].yielded[0] == 4 && p.ops[0].results[0] == 5;
  }

  lemma TwoLoopsWaits(write: IterSpace, read: IterSpace, dest: nat, inner: IterSpace)
    requires dest == 2 || dest == 3
    requires var p := TwoLoops(write, read, dest, inner);
             WellFormed(p) && IsWriter(p, 2) && IsReader(p, 5, 5) && Reads(p, 2, 5)
    ensures IsSureReader(TwoLoops(write, read, dest, inner), 2, 5) <==> Trips(inner) > 0
  {
    var p := TwoLoops(write, read, dest, inner);
    assert ParentFor(p, 5) == Some(4) && p.scopes[7] == Some(6) && p.scopes[6] == Some(4) && p.scopes[4] == None;
    assert Inside(p, 7, 6) && Inside(p, 7, 4) && !Inside(p, 2, 6) && p.ops[7] == Wait(7);
    forall x: nat | x < |p.ops| && Between(p, 2, 5, 7, x)
      ensures x == 6
    {
      assert Inside(p, 7, x) <==> x == 6 || Inside(p, 6, x);
      assert Inside(p, 6, x) <==> x == 4;
    }
    assert Between(p, 2, 5, 7, 6);
    assert SurelyWaits(p, 2, 5, 7) <==> Trips(inner) > 0;
    forall w: nat | w < |p.ops| && SurelyWaits(p, 2, 5, w)
      ensures w == 7
    {
      assert p.ops[w].Wait?;
    }
  }

  lemma TwoLoopsKeeps(write: IterSpace, read: IterSpace, dest: nat, inner: IterSpace)
    requires dest == 2 || dest == 3
    requires var p := TwoLoops(write, read, dest, inner);
             WellFormed(p) && InsertsDominate(p) && IsWriter(p, 2)
    ensures Keeps(TwoLoops(write, read, dest, inner), 2) <==> dest == 3
  {
    var p := TwoLoops(write, read, dest, inner);
    assert ParentFor(p, 2) == Some(0) && !InsertedIn(p, 0, dest);
  }

  /** The verdict on these programs, and the truth. */
  lemma TwoLoopsVerdict(write: IterSpace, read: IterSpace, dest: nat, inner: IterSpace)
    requires dest == 2 || dest == 3
    ensures var p := TwoLoops(write, read, dest, inner);
            && WellFormed(p) && InsertsDominate(p) && IsWriter(p, 2)
            && ContainerVerdict(p, 2) == Some(Covers(read, write))
            && (AlwaysWaited(p, 2) <==>
                  && (Trips(write) <= 1 || dest == 3)
                  && (Trips(write) == 0 || (Contains(read, write) && Trips(inner) > 0)))
  {
    var p := TwoLoops(write, read, dest, inner);
    TwoLoopsWellFormed(write, read, dest, inner);
    TwoLoopsShape(write, read, dest, inner);
    TwoLoopsWaits(write, read, dest, inner);
    TwoLoopsKeeps(write, read, dest, inner);
    OneReaderVerdict(p, 2, 5);
  }

  const ZERO_TO_THREE := IterSpace(0, 3, 1)
  const ONCE := IterSpace(0, 1, 1)
  const NEVER := IterSpace(0, 0, 1)

  /** The inner loop is between every wait and the reader's loop. */
  lemma InnerLoopRuns(write: IterSpace, read: IterSpace, dest: nat, inner: IterSpace, e: Execution, w: nat)
    requires dest == 2 || dest == 3
    requires var p := TwoLoops(write, read, dest, inner);
             && WellFormed(p) && IsWriter(p, 2) && Reads(p, 2, 5) && Respects(e, p)
             && w < |p.ops| && WaitsFor(p, e, 2, 5, w)
    ensures Trips(inner) > 0
  {
    var p := TwoLoops(write, read, dest, inner);
    assert p.ops[w] == Wait(7);
    assert w == 7;
    assert ParentFor(p, 5) == Some(4) && p.scopes[7] == Some(6) && p.scopes[2] == Some(0) && p.scopes[0] == None;
    assert Between(p, 2, 5, 7, 6);
    assert IsConstantFor(p, 6);
  }

  lemma WaitedMeansInnerRuns(write: IterSpace, read: IterSpace, dest: nat, inner: IterSpace, e: Execution, j: nat)
    requires dest == 2 || dest == 3
    requires var p := TwoLoops(write, read, dest, inner);
             && WellFormed(p) && InsertsDominate(p) && IsWriter(p, 2) && Respects(e, p)
             && (forall x: nat | x < 10 :: Reads(p, 2, x) <==> x == 5) && HandleWaited(p, e, 2, j)
    ensures Trips(inner) > 0
  {
    var p := TwoLoops(write, read, dest, inner);
    var r: nat, w: nat, i: int :| WaitedThrough(p, e, 2, j, r, w, i);
    InnerLoopRuns(write, read, dest, inner, e, w);
  }

  lemma NothingWaited(write: IterSpace, read: IterSpace, dest: nat, inner: IterSpace, e: Execution, j: nat)
    requires (dest == 2 || dest == 3) && Trips(inner) == 0
    requires var p := TwoLoops(write, read, dest, inner);
             WellFormed(p) && InsertsDominate(p) && IsWriter(p, 2) && Respects(e, p)
    ensures !HandleWaited(TwoLoops(write, read, dest, inner), e, 2, j)
  {
    TwoLoopsShape(write, read, dest, inner);
    if HandleWaited(TwoLoops(write, read, dest, inner), e, 2, j) {
      WaitedMeansInnerRuns(write, read, dest, inner, e, j);
    }
  }

  /** A positive verdict although no wait ever runs, in any execution: the wait is in an empty loop
      inside the reader's. */
  lemma WaitThatNeverRuns(e: Execution, j: nat)
    ensures var p := TwoLoops(ZERO_TO_THREE, ZERO_TO_THREE, 3, NEVER);
            && WellFormed(p) && InsertsDominate(p) && IsWriter(p, 2)
            && ContainerVerdict(p, 2) == Some(true)
            && (Respects(e, p) ==> !HandleWaited(p, e, 2, j))
  {
    TwoLoopsVerdict(ZERO_TO_THREE, ZERO_TO_THREE, 3, NEVER);
    if Respects(e, TwoLoops(ZERO_TO_THREE, ZERO_TO_THREE, 3, NEVER)) {
      NothingWaited(ZERO_TO_THREE, ZERO_TO_THREE, 3, NEVER, e, j);
    }
  }

  /** A positive verdict although handles are lost: each iteration inserts into the tensor from
      before the loop, so that only the last handle is left. */
  lemma HandlesThatAreDropped()
    ensures var p := TwoLoops(ZERO_TO_THREE, ZERO_TO_THREE, 2, ONCE);
            && WellFormed(p) && InsertsDominate(p) && IsWriter(p, 2)
            && ContainerVerdict(p, 2) == Some(true) && !AlwaysWaited(p, 2)
  {
    TwoLoopsVerdict(ZERO_TO_THREE, ZERO_TO_THREE, 2, ONCE);
    assert Trips(ZERO_TO_THREE) == 3;
  }

  /** Handles are written at 2, 3 and 4, and waited for at 0 to 9. */
  const WIDER := TwoLoops(IterSpace(2, 5, 1), IterSpace(0, 10, 1), 3, ONCE)

  lemma WiderIsAlwaysWaited()
    ensures WellFormed(WIDER) && InsertsDominate(WIDER) && IsWriter(WIDER, 2)
    ensures ContainerVerdict(WIDER, 2) == Some(false) && AlwaysWaited(WIDER, 2)
  {
    TwoLoopsVerdict(IterSpace(2, 5, 1), IterSpace(0, 10, 1), 3, ONCE);
    assert Trips(IterSpace(2, 5, 1)) == 3 && Nth(IterSpace(2, 5, 1), 2) == 4;
    assert Trips(ONCE) == 1;
  }
}
