/** Programs as the transfer-handle checks in lib/Dialect/TTL/IR/TTLOpsVerifyUtils.cpp see them.
    Values and operations are numbered. */
module TransferProgram {
  import opened IterSpaces
  import opened Wrappers

  /** A loop is any operation with the loop interface; one that reports no yielded values and
      results has none here.  `isFor` marks `scf.for`.  A loop's terminator need not be an
      `scf.yield`, which is what `Yield` stands for. */
  datatype Op = Copy(result: nat)
              | Wait(handle: nat)
              | Insert(scalar: nat, dest: nat, indices: seq<nat>, result: nat)
              | Extract(tensor: nat, indices: seq<nat>, result: nat)
              | Loop(isFor: bool, iv: nat, bounds: Option<IterSpace>, inits: seq<nat>, iterArgs: seq<nat>,
                     yielded: seq<nat>, results: seq<nat>, terminator: nat)
              | Yield(loop: nat)
              | Other(operands: seq<nat>)

  /** What defines a value. */
  datatype Def = ByCopy | ByInsert(op: nat) | ByExtract(op: nat)
               | LoopResult(op: nat, index: nat) | IterArg(op: nat, index: nat) | Otherwise

  /** Operations are numbered in program order.  `scopes` gives the innermost operation with a region
      around each operation, `typedHandles` the direction-typed handles, `typedTensors` the rank-1
      tensors of such handles. */
  datatype Program = Program(ops: seq<Op>, defs: seq<Def>, scopes: seq<Option<nat>>,
                             typedHandles: set<nat>, typedTensors: set<nat>)

  function OperandsOf(p: Program, o: nat): seq<nat>
    requires o < |p.ops|
  {
    match p.ops[o]
    case Copy(_) => []
    case Wait(h) => [h]
    case Insert(s, d, i, _) => [s, d] + i
    case Extract(t, i, _) => [t] + i
    case Loop(_, _, _, inits, _, _, _, _) => inits
    case Yield(l) => if l < |p.ops| && p.ops[l].Loop? then p.ops[l].yielded else []
    case Other(x) => x
  }

  ghost predicate LoopWellFormed(p: Program, o: nat)
    requires o < |p.ops| && p.ops[o].Loop?
  {
    var l := p.ops[o];
    && |l.inits| == |l.iterArgs| && |l.yielded| == |l.results|
    && l.terminator < |p.ops|
    && (p.ops[l.terminator] == Yield(o) || (!l.isFor && p.ops[l.terminator] == Other(l.yielded)))
    && (forall i: nat | i < |l.iterArgs| ::
          l.iterArgs[i] < |p.defs| && p.defs[l.iterArgs[i]] == IterArg(o, i))
    && (forall i: nat | i < |l.results| :: l.results[i] < |p.defs| && p.defs[l.results[i]] == LoopResult(o, i))
  }

  ghost predicate OpWellFormed(p: Program, o: nat)
    requires o < |p.ops|
  {
    && (forall v: nat | v in OperandsOf(p, o) :: v < |p.defs|)
    && match p.ops[o]
       case Copy(r) => r < |p.defs| && p.defs[r] == ByCopy
       case Insert(_, _, _, r) => r < |p.defs| && p.defs[r] == ByInsert(o)
       case Extract(_, _, r) => r < |p.defs| && p.defs[r] == ByExtract(o)
       case Loop(_, _, _, _, _, _, _, _) => LoopWellFormed(p, o)
       case Yield(l) => l < |p.ops| && p.ops[l].Loop? && p.ops[l].terminator == o && LoopWellFormed(p, l)
       case _ => true
  }

  ghost predicate DefWellFormed(p: Program, v: nat)
    requires v < |p.defs|
  {
    match p.defs[v]
    case ByInsert(o) => o < |p.ops| && p.ops[o].Insert? && p.ops[o].result == v
    case ByExtract(o) => o < |p.ops| && p.ops[o].Extract? && p.ops[o].result == v
    case LoopResult(o, i) => o < |p.ops| && p.ops[o].Loop? && i < |p.ops[o].results| && p.ops[o].results[i] == v
    case IterArg(o, i) => o < |p.ops| && p.ops[o].Loop? && i < |p.ops[o].iterArgs| && p.ops[o].iterArgs[i] == v
    case _ => true
  }

  ghost predicate WellFormed(p: Program) {
    && (forall o: nat | o < |p.ops| :: OpWellFormed(p, o))
    && (forall v: nat | v < |p.defs| :: DefWellFormed(p, v))
    && Nested(p)
  }

  /** What is around an operation comes before it. */
  predicate Nested(p: Program) {
    |p.scopes| == |p.ops| && forall o: nat | o < |p.ops| :: p.scopes[o].Some? ==> p.scopes[o].value < o
  }

  /** `isProperAncestor`: operation o is inside l, at any depth. */
  predicate Inside(p: Program, o: nat, l: nat)
    requires Nested(p) && o < |p.ops|
    decreases o
  {
    p.scopes[o].Some? && (p.scopes[o].value == l || Inside(p, p.scopes[o].value, l))
  }

  /** `getParentOfType<scf::ForOp>`. */
  function ParentFor(p: Program, o: nat): (l: Option<nat>)
    requires Nested(p) && o < |p.ops|
    ensures l.Some? ==> l.value < o && p.ops[l.value].Loop? && p.ops[l.value].isFor && Inside(p, o, l.value)
    decreases o
  {
    match p.scopes[o]
    case None => None
    case Some(s) => if p.ops[s].Loop? && p.ops[s].isFor then Some(s) else ParentFor(p, s)
  }

  /** SSA dominance, as far as it is about inserts: an insert's result is used later, in its own
      region or deeper.  A loop's terminator is in its body, and an `scf.for` yields a value for
      each of its arguments. */
  ghost predicate InsertsDominate(p: Program)
    requires WellFormed(p)
  {
    && (forall o: nat, v: nat | o < |p.ops| && v in OperandsOf(p, o) :: InsertDominates(p, o, v))
    && (forall l: nat | l < |p.ops| && p.ops[l].Loop? :: LoopCloses(p, l))
  }

  ghost predicate LoopCloses(p: Program, l: nat)
    requires WellFormed(p) && l < |p.ops| && p.ops[l].Loop?
  {
    var t := p.ops[l].terminator;
    && t < |p.ops| && p.scopes[t] == Some(l)
    && (p.ops[l].isFor ==> |p.ops[l].yielded| == |p.ops[l].iterArgs|)
  }

  ghost predicate InsertDominates(p: Program, o: nat, v: nat)
    requires Nested(p) && o < |p.ops|
  {
    v < |p.defs| && p.defs[v].ByInsert? ==>
      var u := p.defs[v].op;
      u < o && (p.scopes[u].None? || Inside(p, o, p.scopes[u].value))
  }

  function FirstIndex(s: seq<nat>, v: nat): (i: nat)
    ensures i <= |s| && (forall j :: 0 <= j < i ==> s[j] != v) && (i < |s| ==> s[i] == v)
  {
    if s == [] || s[0] == v then 0 else 1 + FirstIndex(s[1..], v)
  }
}
