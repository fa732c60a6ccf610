/** The transfer-handle checks in lib/Dialect/TTL/IR/TTLOpsVerifyUtils.cpp: every copy's handle must
    reach a wait, and every waited handle must come from a copy. */
module TransferVerifier {
  import opened ContainerLoops
  import opened Finite
  import opened TransferProgram
  import opened Wrappers

  // ----- Forward: from a copy to its waits -----

  /** A container edge that is not followed. */
  ghost predicate Pruned(p: Program, o: nat)
    requires WellFormed(p) && o < |p.ops|
  {
    p.ops[o].Insert? && ContainerVerdict(p, o) == Some(false)
  }

  /** The values that a use of v by operation o passes the handle on to: none or one. */
  ghost function Forwarded(p: Program, v: nat, o: nat): seq<nat>
    requires WellFormed(p) && o < |p.ops|
  {
    assert OpWellFormed(p, o);
    match p.ops[o]
    case Insert(scalar, _, _, result) => if scalar == v && !Pruned(p, o) then [result] else []
    case Extract(tensor, _, result) => if tensor == v then [result] else []
    case Loop(_, _, _, inits, iterArgs, _, _, _) =>
      var i := FirstIndex(inits, v);
      if i < |inits| then [iterArgs[i]] else []
    case Yield(l) =>
      var i := FirstIndex(p.ops[l].yielded, v);
      if i < |p.ops[l].yielded| then [p.ops[l].results[i]] else []
    case _ => []
  }

  /** `tryEnqueueForwardedHandle`. */
  method TryEnqueueForwardedHandle(p: Program, v: nat, o: nat, queue: seq<nat>)
    returns (waited: bool, more: seq<nat>)
    requires WellFormed(p) && o < |p.ops| && v in OperandsOf(p, o)
    ensures waited <==> p.ops[o] == Wait(v)
    ensures more == queue + Forwarded(p, v, o)
  {
    more := queue;
    waited := false;
    assert OpWellFormed(p, o);
    match p.ops[o] {
      case Wait(_) =>
        waited := true;
      case Insert(scalar, _, _, result) =>
        if v == scalar {
          var covered := ContainerWritesAreWaited(p, o);
          if covered != Some(false) {
            more := queue + [result];
          }
        }
      case Extract(tensor, _, result) =>
        if v == tensor {
          more := queue + [result];
        }
      case Loop(_, _, _, inits, iterArgs, _, _, _) =>
        var i := FindUse(inits, v);
        if i < |inits| {
          more := queue + [iterArgs[i]];
        }
      case Yield(l) =>
        var i := FindUse(p.ops[l].yielded, v);
        if i < |p.ops[l].yielded| {
          more := queue + [p.ops[l].results[i]];
        }
      case _ =>
    }
  }

  /** The search for the used operand, stopping at the first that matches. */
  method FindUse(values: seq<nat>, v: nat) returns (i: nat)
    ensures i == FirstIndex(values, v)
  {
    i := 0;
    while i < |values| && values[i] != v
      invariant i <= |values|
      invariant FirstIndex(values, v) == i + FirstIndex(values[i..], v)
    {
      i := i + 1;
    }
  }

  ghost predicate Edge(p: Program, v: nat, w: nat)
    requires WellFormed(p)
  {
    exists o: nat :: o < |p.ops| && v in OperandsOf(p, o) && w in Forwarded(p, v, o)
  }

  predicate IsWaited(p: Program, v: nat) {
    exists o: nat :: o < |p.ops| && p.ops[o] == Wait(v)
  }

  /** Consecutive values of a path are forwarding edges. */
  ghost predicate IsPath(p: Program, path: seq<nat>)
    requires WellFormed(p)
  {
    path != [] && forall i: nat | i + 1 < |path| :: Edge(p, path[i], path[i + 1])
  }

  ghost predicate Reaches(p: Program, v: nat, w: nat)
    requires WellFormed(p)
  {
    exists path :: IsPath(p, path) && path[0] == v && path[|path| - 1] == w
  }

  lemma ReachesItself(p: Program, v: nat)
    requires WellFormed(p)
    ensures Reaches(p, v, v)
  {
    assert IsPath(p, [v]);
  }

  lemma ReachesNext(p: Program, v: nat, w: nat, x: nat)
    requires WellFormed(p) && Reaches(p, v, w) && Edge(p, w, x)
    ensures Reaches(p, v, x)
  {
    var path :| IsPath(p, path) && path[0] == v && path[|path| - 1] == w;
    var longer := path + [x];
    forall i: nat | i + 1 < |longer|
      ensures Edge(p, longer[i], longer[i + 1])
    {
      if i + 1 < |path| {
        assert Edge(p, path[i], path[i + 1]);
      }
    }
    assert IsPath(p, longer);
  }

  /** A set closed under edges holds everything reachable from its members. */
  lemma {:induction false} ClosedHoldsReachable(p: Program, closed: set<nat>, path: seq<nat>)
    requires WellFormed(p) && IsPath(p, path) && path[0] in closed
    requires forall v: nat, w: nat :: v in closed && Edge(p, v, w) ==> w in closed
    ensures path[|path| - 1] in closed
    decreases |path|
  {
    if |path| > 1 {
      var n := |path| - 1;
      ClosedHoldsReachable(p, closed, path[..n]);
      assert Edge(p, path[n - 1], path[n - 1 + 1]);
    }
  }

  datatype VerifyError = NotDirectionTyped | NeverWaited | NotFromCopy

  /** Everything visited has been expanded, except for `v` from operation o on. */
  ghost predicate Expanded(p: Program, visited: set<nat>, worklist: seq<nat>, v: nat, o: nat)
    requires WellFormed(p)
  {
    forall x: nat, u: nat :: x in visited && u < |p.ops| && (x == v ==> u < o) && x in OperandsOf(p, u) ==>
      p.ops[u] != Wait(x) && forall w: nat :: w in Forwarded(p, x, u) ==> w in visited || w in worklist
  }

  ghost predicate AllReached(p: Program, handle: nat, visited: set<nat>, worklist: seq<nat>)
    requires WellFormed(p)
  {
    && (forall x: nat :: x in visited || x in worklist ==> Reaches(p, handle, x) && x < |p.defs|)
    && (handle in visited || handle in worklist)
  }

  lemma ForwardedInRange(p: Program, v: nat, o: nat)
    requires WellFormed(p) && o < |p.ops|
    ensures forall w: nat :: w in Forwarded(p, v, o) ==> w < |p.defs|
  {
    assert OpWellFormed(p, o);
  }

  /** One use adds reached values only. */
  lemma UseKeepsReached(p: Program, handle: nat, visited: set<nat>, worklist: seq<nat>, v: nat, o: nat)
    requires WellFormed(p) && AllReached(p, handle, visited, worklist)
    requires v in visited && o < |p.ops| && v in OperandsOf(p, o)
    ensures AllReached(p, handle, visited, worklist + Forwarded(p, v, o))
  {
    ForwardedInRange(p, v, o);
    forall w: nat | w in Forwarded(p, v, o)
      ensures Reaches(p, handle, w)
    {
      assert Edge(p, v, w);
      ReachesNext(p, handle, v, w);
    }
  }

  ghost predicate UseDone(p: Program, v: nat, o: nat, visited: set<nat>, worklist: seq<nat>)
    requires WellFormed(p) && o < |p.ops|
  {
    p.ops[o] != Wait(v) && forall w: nat :: w in Forwarded(p, v, o) ==> w in visited || w in worklist
  }

  /** The uses of v by one operation, an operand at a time; it stops at a wait. */
  method ExpandUsesBy(p: Program, handle: nat, v: nat, visited: set<nat>, worklist: seq<nat>, o: nat)
    returns (waited: bool, more: seq<nat>)
    requires WellFormed(p) && AllReached(p, handle, visited, worklist) && v in visited && o < |p.ops|
    ensures waited ==> IsWaited(p, v)
    ensures !waited ==> AllReached(p, handle, visited, more) && (forall w: nat :: w in worklist ==> w in more)
    ensures !waited && v in OperandsOf(p, o) ==> UseDone(p, v, o, visited, more)
  {
    more := worklist;
    var operands := OperandsOf(p, o);
    for j := 0 to |operands|
      invariant AllReached(p, handle, visited, more) && forall w: nat :: w in worklist ==> w in more
      invariant v in operands[..j] ==> UseDone(p, v, o, visited, more)
    {
      assert operands[..j + 1] == operands[..j] + [operands[j]];
      if operands[j] == v {
        UseKeepsReached(p, handle, visited, more, v, o);
        waited, more := TryEnqueueForwardedHandle(p, v, o, more);
        if waited {
          return;
        }
      }
    }
    assert operands[..|operands|] == operands;
    waited := false;
  }

  /** The loop over the uses of v. */
  method ExpandUses(p: Program, handle: nat, v: nat, visited: set<nat>, worklist: seq<nat>)
    returns (waited: bool, more: seq<nat>)
    requires WellFormed(p) && AllReached(p, handle, visited, worklist) && v in visited
    requires Expanded(p, visited, worklist, v, 0)
    ensures waited ==> IsWaited(p, v)
    ensures !waited ==> AllReached(p, handle, visited, more) && Expanded(p, visited, more, v, |p.ops|)
  {
    more := worklist;
    for o := 0 to |p.ops|
      invariant AllReached(p, handle, visited, more) && Expanded(p, visited, more, v, o)
    {
      ghost var before := more;
      waited, more := ExpandUsesBy(p, handle, v, visited, more, o);
      if waited {
        return;
      }
      OneMoreUse(p, visited, before, more, v, o);
    }
    waited := false;
  }

  lemma OneMoreUse(p: Program, visited: set<nat>, before: seq<nat>, after: seq<nat>, v: nat, o: nat)
    requires WellFormed(p) && o < |p.ops| && Expanded(p, visited, before, v, o)
    requires forall w: nat :: w in before ==> w in after
    requires v in OperandsOf(p, o) ==> UseDone(p, v, o, visited, after)
    ensures Expanded(p, visited, after, v, o + 1)
  {
  }

  /** Moving a value from the worklist to the visited ones. */
  lemma VisitKeepsReached(p: Program, handle: nat, visited: set<nat>, rest: seq<nat>, v: nat)
    requires WellFormed(p) && AllReached(p, handle, visited, rest + [v])
    requires Expanded(p, visited, rest + [v], 0, |p.ops|)
    ensures AllReached(p, handle, visited + {v}, rest) && v < |p.defs| && Reaches(p, handle, v)
    ensures Expanded(p, visited + {v}, rest, v, 0)
    ensures v in visited ==> AllReached(p, handle, visited, rest) && Expanded(p, visited, rest, 0, |p.ops|)
  {
    assert forall x: nat :: x in rest + [v] <==> x in rest || x == v;
  }

  /** `isEventuallyWaitedOn`: the worklist search always ends, and finds a wait exactly when one can
      be reached from the handle. */
  method IsEventuallyWaitedOn(p: Program, handle: nat) returns (r: Result<(), VerifyError>)
    requires WellFormed(p) && handle < |p.defs|
    ensures r == if handle !in p.typedHandles then Failure(NotDirectionTyped)
                 else if exists w: nat :: Reaches(p, handle, w) && IsWaited(p, w) then Success(())
                 else Failure(NeverWaited)
  {
    if handle !in p.typedHandles {
      return Failure(NotDirectionTyped);
    }
    ReachesItself(p, handle);
    ghost var values := Below(|p.defs|);
    var visited: set<nat> := {};
    var worklist := [handle];
    while worklist != []
      invariant AllReached(p, handle, visited, worklist) && Expanded(p, visited, worklist, 0, |p.ops|)
      decreases values - visited, |worklist|
    {
      ghost var before := worklist;
      var v := worklist[|worklist| - 1];
      worklist := worklist[..|worklist| - 1];
      assert before == worklist + [v];
      VisitKeepsReached(p, handle, visited, worklist, v);
      if v !in visited {
        visited := visited + {v};
        var waited: bool;
        waited, worklist := ExpandUses(p, handle, v, visited, worklist);
        if waited {
          return Success(());
        }
      }
    }
    NoWaitReached(p, handle, visited);
    return Failure(NeverWaited);
  }

  lemma NoWaitReached(p: Program, handle: nat, visited: set<nat>)
    requires WellFormed(p) && handle in visited && Expanded(p, visited, [], 0, |p.ops|)
    ensures forall w: nat :: Reaches(p, handle, w) ==> !IsWaited(p, w)
  {
    forall w: nat | Reaches(p, handle, w)
      ensures !IsWaited(p, w)
    {
      var path :| IsPath(p, path) && path[0] == handle && path[|path| - 1] == w;
      ClosedHoldsReachable(p, visited, path);
      assert forall o: nat | o < |p.ops| :: p.ops[o] == Wait(w) ==> w in OperandsOf(p, o);
    }
  }

  // ----- Backward: from a wait to its copy -----

  /** The value that the definition of v takes the handle from. */
  ghost function Source(p: Program, v: nat): (s: Option<nat>)
    requires WellFormed(p) && v < |p.defs|
    ensures s.Some? ==> s.value < |p.defs|
  {
    assert DefWellFormed(p, v);
    match p.defs[v]
    case ByInsert(o) =>
      assert OpWellFormed(p, o) && p.ops[o].scalar in OperandsOf(p, o);
      Some(p.ops[o].scalar)
    case ByExtract(o) =>
      assert OpWellFormed(p, o) && p.ops[o].tensor in OperandsOf(p, o);
      Some(p.ops[o].tensor)
    case LoopResult(o, i) =>
      assert OpWellFormed(p, o) && OpWellFormed(p, p.ops[o].terminator);
      assert p.ops[o].yielded[i] in OperandsOf(p, p.ops[o].terminator);
      Some(p.ops[o].yielded[i])
    case IterArg(o, i) =>
      assert OpWellFormed(p, o) && p.ops[o].inits[i] in OperandsOf(p, o);
      Some(p.ops[o].inits[i])
    case _ => None
  }

  /** The value n steps back from v. */
  ghost function WalkBack(p: Program, v: nat, n: nat): (w: Option<nat>)
    requires WellFormed(p) && v < |p.defs|
    ensures w.Some? ==> w.value < |p.defs|
    decreases n
  {
    if n == 0 then Some(v)
    else if Source(p, v).None? then None
    else WalkBack(p, Source(p, v).value, n - 1)
  }

  ghost predicate CopyAfter(p: Program, v: nat, n: nat)
    requires WellFormed(p) && v < |p.defs|
  {
    WalkBack(p, v, n).Some? && p.defs[WalkBack(p, v, n).value] == ByCopy
  }

  /** What has been seen leads on to v without a copy. */
  ghost predicate LeadsTo(p: Program, seen: set<nat>, v: nat)
    requires WellFormed(p)
  {
    forall x: nat :: x in seen ==>
      && x < |p.defs| && p.defs[x] != ByCopy
      && Source(p, x).Some? && (Source(p, x).value in seen || Source(p, x).value == v)
  }

  lemma {:induction false} CycleHasNoCopy(p: Program, seen: set<nat>, v: nat, n: nat)
    requires WellFormed(p) && v in seen && v < |p.defs|
    requires LeadsTo(p, seen, v)
    ensures !CopyAfter(p, v, n)
    decreases n
  {
    CycleStays(p, seen, v, v, n);
  }

  lemma {:induction false} CycleStays(p: Program, seen: set<nat>, v: nat, x: nat, n: nat)
    requires WellFormed(p) && v in seen && x in seen && x < |p.defs| && LeadsTo(p, seen, v)
    ensures WalkBack(p, x, n).Some? && WalkBack(p, x, n).value in seen
    decreases n
  {
    if n > 0 {
      CycleStays(p, seen, v, Source(p, x).value, n - 1);
    }
  }

  /** `isDerivedFromCopy`: always ends, and says whether walking back meets a copy. */
  method IsDerivedFromCopy(p: Program, v: nat, seen: set<nat>) returns (r: bool)
    requires WellFormed(p) && v < |p.defs| && LeadsTo(p, seen, v)
    ensures r <==> exists n: nat :: CopyAfter(p, v, n)
    decreases Below(|p.defs|) - seen
  {
    if v in seen {
      forall n: nat
        ensures !CopyAfter(p, v, n)
      {
        CycleHasNoCopy(p, seen, v, n);
      }
      return false;
    }
    assert DefWellFormed(p, v);
    CopyOneBack(p, v);
    match p.defs[v] {
      case ByCopy =>
        return true;
      case ByExtract(o) =>
        r := IsDerivedFromCopy(p, p.ops[o].tensor, seen + {v});
      case ByInsert(o) =>
        r := IsDerivedFromCopy(p, p.ops[o].scalar, seen + {v});
      case LoopResult(o, i) =>
        assert OpWellFormed(p, o);
        r := IsDerivedFromCopy(p, p.ops[o].yielded[i], seen + {v});
      case IterArg(o, i) =>
        assert OpWellFormed(p, o);
        r := IsDerivedFromCopy(p, p.ops[o].inits[i], seen + {v});
      case Otherwise =>
        return false;
    }
  }

  lemma CopyOneBack(p: Program, v: nat)
    requires WellFormed(p) && v < |p.defs|
    ensures (exists n: nat :: CopyAfter(p, v, n))
            <==> p.defs[v] == ByCopy || (Source(p, v).Some? && exists n: nat :: CopyAfter(p, Source(p, v).value, n))
  {
    assert CopyAfter(p, v, 0) <==> p.defs[v] == ByCopy;
    if n: nat :| CopyAfter(p, v, n) {
      assert n == 0 || CopyAfter(p, Source(p, v).value, n - 1);
    }
    if Source(p, v).Some? {
      if n: nat :| CopyAfter(p, Source(p, v).value, n) {
        var m := n + 1;
        assert CopyAfter(p, v, m);
      }
    }
  }

  /** `isValidWaitOperand`. */
  method IsValidWaitOperand(p: Program, handle: nat) returns (r: Result<(), VerifyError>)
    requires WellFormed(p) && handle < |p.defs|
    ensures r == if handle !in p.typedHandles then Failure(NotDirectionTyped)
                 else if exists n: nat :: CopyAfter(p, handle, n) then Success(())
                 else Failure(NotFromCopy)
  {
    if handle !in p.typedHandles {
      return Failure(NotDirectionTyped);
    }
    var derived := IsDerivedFromCopy(p, handle, {});
    return if derived then Success(()) else Failure(NotFromCopy);
  }

  // ----- Duality -----

  /** The forward walk follows the edge into w: its container edge is not pruned, a loop result is
      carried by an `scf.yield`, and its operand is
      the first of its value in the list it is in. */
  ghost predicate Followed(p: Program, w: nat)
    requires WellFormed(p) && w < |p.defs|
  {
    assert DefWellFormed(p, w);
    match p.defs[w]
    case ByInsert(o) => !Pruned(p, o)
    case LoopResult(o, i) =>
      assert OpWellFormed(p, o);
      p.ops[p.ops[o].terminator] == Yield(o) && FirstIndex(p.ops[o].yielded, p.ops[o].yielded[i]) == i
    case IterArg(o, i) => assert OpWellFormed(p, o); FirstIndex(p.ops[o].inits, p.ops[o].inits[i]) == i
    case _ => true
  }

  /** The forward edges are the backward steps that are followed. */
  lemma EdgeIsSource(p: Program, v: nat, w: nat)
    requires WellFormed(p)
    ensures Edge(p, v, w) <==> w < |p.defs| && Source(p, w) == Some(v) && Followed(p, w)
  {
    if o: nat :| o < |p.ops| && v in OperandsOf(p, o) && w in Forwarded(p, v, o) {
      assert OpWellFormed(p, o);
    }
    if w < |p.defs| && Source(p, w) == Some(v) && Followed(p, w) {
      SourceIsEdge(p, v, w);
    }
  }

  lemma SourceIsEdge(p: Program, v: nat, w: nat)
    requires WellFormed(p) && w < |p.defs| && Source(p, w) == Some(v) && Followed(p, w)
    ensures Edge(p, v, w)
  {
    assert DefWellFormed(p, w);
    var o := match p.defs[w]
      case ByInsert(o) => o
      case ByExtract(o) => o
      case LoopResult(o, _) => assert OpWellFormed(p, o); p.ops[o].terminator
      case IterArg(o, _) => o
      case _ => 0;
    assert OpWellFormed(p, o);
    assert v in OperandsOf(p, o) && w in Forwarded(p, v, o);
  }

  ghost predicate WalkFollowed(p: Program, w: nat, n: nat)
    requires WellFormed(p) && w < |p.defs|
    decreases n
  {
    n == 0 || (Source(p, w).Some? && Followed(p, w) && WalkFollowed(p, Source(p, w).value, n - 1))
  }

  /** The forward walk from v reaches w exactly when walking back from w comes to v by followed
      steps only. */
  lemma ForwardIsBackward(p: Program, v: nat, w: nat)
    requires WellFormed(p) && v < |p.defs| && w < |p.defs|
    ensures Reaches(p, v, w) <==> exists n: nat :: WalkBack(p, w, n) == Some(v) && WalkFollowed(p, w, n)
  {
    if path :| IsPath(p, path) && path[0] == v && path[|path| - 1] == w {
      PathIsWalk(p, path);
    }
    if n: nat :| WalkBack(p, w, n) == Some(v) && WalkFollowed(p, w, n) {
      WalkIsPath(p, v, w, n);
    }
  }

  lemma {:induction false} PathIsWalk(p: Program, path: seq<nat>)
    requires WellFormed(p) && IsPath(p, path) && path[0] < |p.defs|
    ensures var w := path[|path| - 1];
            w < |p.defs| && WalkBack(p, w, |path| - 1) == Some(path[0]) && WalkFollowed(p, w, |path| - 1)
    decreases |path|
  {
    if |path| > 1 {
      var n := |path| - 1;
      assert Edge(p, path[n - 1], path[n - 1 + 1]);
      EdgeIsSource(p, path[n - 1], path[n]);
      PathIsWalk(p, path[..n]);
    }
  }

  lemma {:induction false} WalkIsPath(p: Program, v: nat, w: nat, n: nat)
    requires WellFormed(p) && w < |p.defs| && WalkBack(p, w, n) == Some(v) && WalkFollowed(p, w, n)
    ensures Reaches(p, v, w)
    decreases n
  {
    if n == 0 {
      ReachesItself(p, v);
    } else {
      WalkIsPath(p, v, Source(p, w).value, n - 1);
      EdgeIsSource(p, Source(p, w).value, w);
      ReachesNext(p, v, Source(p, w).value, w);
    }
  }

  /** Whatever value the forward walk from a copy reaches, the backward walk from it ends at that
      copy and at no other; and the other way round when every edge is followed. */
  lemma Duality(p: Program, copy: nat, w: nat)
    requires WellFormed(p) && copy < |p.defs| && w < |p.defs| && p.defs[copy] == ByCopy
    ensures Reaches(p, copy, w) ==>
              exists n: nat :: CopyAfter(p, w, n) && WalkBack(p, w, n) == Some(copy)
    ensures Reaches(p, copy, w) ==>
              forall n: nat :: CopyAfter(p, w, n) ==> WalkBack(p, w, n) == Some(copy)
    ensures (forall x: nat | x < |p.defs| :: Followed(p, x)) ==>
              (Reaches(p, copy, w) <==> exists n: nat :: WalkBack(p, w, n) == Some(copy))
  {
    ForwardIsBackward(p, copy, w);
    if Reaches(p, copy, w) {
      var n: nat :| WalkBack(p, w, n) == Some(copy) && WalkFollowed(p, w, n);
      assert CopyAfter(p, w, n);
      forall m: nat | CopyAfter(p, w, m)
        ensures WalkBack(p, w, m) == Some(copy)
      {
        OneCopy(p, w, n, m);
      }
    }
    if forall x: nat | x < |p.defs| :: Followed(p, x) {
      if n: nat :| WalkBack(p, w, n) == Some(copy) {
        AllFollowed(p, w, n);
      }
    }
  }

  /** The walk stops at the first copy. */
  lemma {:induction false} OneCopy(p: Program, w: nat, n: nat, m: nat)
    requires WellFormed(p) && w < |p.defs| && CopyAfter(p, w, n) && CopyAfter(p, w, m)
    ensures n == m
    decreases n
  {
    if n > 0 && m > 0 {
      OneCopy(p, Source(p, w).value, n - 1, m - 1);
    }
  }

  lemma {:induction false} AllFollowed(p: Program, w: nat, n: nat)
    requires WellFormed(p) && w < |p.defs| && WalkBack(p, w, n).Some?
    requires forall x: nat | x < |p.defs| :: Followed(p, x)
    ensures WalkFollowed(p, w, n)
    decreases n
  {
    if n > 0 {
      AllFollowed(p, Source(p, w).value, n - 1);
    }
  }

  // ----- A program refused without need -----

  /** Every handle that this program writes is waited for, but the verdict on its container is
      negative, and its copy does not reach a wait. */
  lemma NegativeVerdictIsConservative()
    ensures WellFormed(WIDER) && InsertsDominate(WIDER) && IsWriter(WIDER, 2) && AlwaysWaited(WIDER, 2)
    ensures ContainerVerdict(WIDER, 2) == Some(false)
    ensures WIDER.defs[1] == ByCopy && forall w: nat :: Reaches(WIDER, 1, w) ==> !IsWaited(WIDER, w)
  {
    WiderIsAlwaysWaited();
    CopyReachesNoWait();
  }

  lemma CopyReachesNoWait()
    requires WellFormed(WIDER) && ContainerVerdict(WIDER, 2) == Some(false)
    ensures WIDER.defs[1] == ByCopy && forall w: nat :: Reaches(WIDER, 1, w) ==> !IsWaited(WIDER, w)
  {
    CopyIsPruned();
    NoWaitReached(WIDER, 1, {1});
  }

  lemma CopyIsPruned()
    requires WellFormed(WIDER) && ContainerVerdict(WIDER, 2) == Some(false)
    ensures Expanded(WIDER, {1}, [], 0, |WIDER.ops|)
  {
    var p := WIDER;
    forall u: nat | u < |p.ops| && 1 in OperandsOf(p, u)
      ensures u == 2 && Forwarded(p, 1, u) == [] && p.ops[u] != Wait(1)
    {
      assert u == 0 || u == 1 || u == 2 || u == 3 || u == 4 || u == 5 || u == 6 || u == 7 || u == 8 || u == 9;
    }
  }
}
