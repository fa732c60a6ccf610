/** Fusing elementwise chains: `traceElementwiseToRoots` (lib/Dialect/TTL/IR/TTLOpsUtils.cpp) and
    `buildFusedCompute` (lib/Dialect/TTL/Transforms/ConvertTTLToCompute.cpp).  An SSA value is
    the number of its definition, whose operands have smaller numbers. */
module Fusion {
  import opened Finite
  import opened Wrappers

  datatype BcastType = Row | Col | Scalar

  datatype Def = BlockArgument
               | Unary(opcode: int, input: nat)
               | Binary(opcode: int, lhs: nat, rhs: nat)
               | Bcast(source: nat, kind: BcastType, expandRows: bool, expandCols: bool)
               | OtherOp

  /** `attached` holds the values with a circular buffer (`getAttachedCB`). */
  datatype Program = Program(defs: seq<Def>, attached: set<nat>)

  predicate IsElementwise(d: Def) {
    d.Unary? || d.Binary?
  }

  /** `getElementwiseOperands`. */
  function Operands(d: Def): seq<nat> {
    match d
    case Unary(_, x) => [x]
    case Binary(_, x, y) => [x, y]
    case _ => []
  }

  predicate Below(s: seq<nat>, v: nat) {
    forall i :: 0 <= i < |s| ==> s[i] < v
  }

  predicate WellFormed(p: Program) {
    forall v: nat :: v < |p.defs| ==>
      && Below(Operands(p.defs[v]), v)
      && (p.defs[v].Bcast? ==> p.defs[v].source < v)
  }

  datatype Reason = NotCBAttached | NotElementwiseOp

  datatype TraceFailure = Failed(reason: Reason, value: nat)

  datatype Trace = Trace(roots: seq<nat>, ops: seq<nat>, failure: Option<TraceFailure>)

  predicate FusableBcast(p: Program, v: nat)
    requires v < |p.defs|
  {
    p.defs[v].Bcast? && p.defs[v].source in p.attached
  }

  /** Why tracing stops at v itself, if it does. */
  function Blocked(p: Program, v: nat): Option<TraceFailure>
    requires v < |p.defs|
  {
    if v in p.attached || FusableBcast(p, v) || IsElementwise(p.defs[v]) then None
    else Some(Failed(if p.defs[v].BlockArgument? then NotCBAttached else NotElementwiseOp, v))
  }

  /** The first blocked value met going depth first through elementwise operands. */
  function FirstFailure(p: Program, v: nat): Option<TraceFailure>
    requires WellFormed(p) && v < |p.defs|
    decreases v, 1
  {
    if v in p.attached || FusableBcast(p, v) || !IsElementwise(p.defs[v]) then Blocked(p, v)
    else FirstFailureIn(p, v, Operands(p.defs[v]))
  }

  function FirstFailureIn(p: Program, v: nat, operands: seq<nat>): Option<TraceFailure>
    requires WellFormed(p) && v < |p.defs| && Below(operands, v)
    decreases v, 0, |operands|
  {
    if operands == [] then None
    else
      var first := FirstFailure(p, operands[0]);
      if first.Some? then first else FirstFailureIn(p, v, operands[1..])
  }

  /** x is one of the unattached values that v is computed from, v included. */
  ghost predicate Reaches(p: Program, v: nat, x: nat)
    requires WellFormed(p) && v < |p.defs|
    decreases v, 1
  {
    v !in p.attached &&
    (x == v || (IsElementwise(p.defs[v]) && ReachedFrom(p, v, Operands(p.defs[v]), x)))
  }

  ghost predicate ReachedFrom(p: Program, v: nat, operands: seq<nat>, x: nat)
    requires WellFormed(p) && v < |p.defs| && Below(operands, v)
    decreases v, 0
  {
    exists y: nat :: y in operands && Reaches(p, y, x)
  }

  /** What the operation with result v reads. */
  function Reads(p: Program, v: nat): seq<nat>
    requires v < |p.defs|
  {
    match p.defs[v]
    case Bcast(x, _, _, _) => [x]
    case d => Operands(d)
  }

  /** Everything ops[k] reads is a root or an earlier result. */
  ghost predicate Wired(p: Program, roots: seq<nat>, ops: seq<nat>, k: nat)
    requires k < |ops|
  {
    && ops[k] < |p.defs| && ops[k] !in p.attached
    && (FusableBcast(p, ops[k]) || IsElementwise(p.defs[ops[k]]))
    && forall x: nat :: x in Reads(p, ops[k]) ==> x in roots || x in ops[..k]
  }

  /** Duplicate-free, topologically ordered, with attached roots. */
  ghost predicate Ordered(p: Program, roots: seq<nat>, ops: seq<nat>) {
    && Distinct(roots) && Distinct(ops)
    && (forall x: nat :: x in roots ==> x in p.attached && x < |p.defs|)
    && (forall k: nat | k < |ops| :: Wired(p, roots, ops, k))
  }

  ghost predicate UsedBy(p: Program, ops: seq<nat>, x: nat) {
    exists o: nat :: o in ops && o < |p.defs| && x in Reads(p, o)
  }

  /** Every root is among `others` or read by an operation. */
  ghost predicate RootsUsed(p: Program, roots: seq<nat>, ops: seq<nat>, others: seq<nat>) {
    forall x: nat :: x in roots ==> x in others || UsedBy(p, ops, x)
  }

  lemma RootsUsedMerged(p: Program, r: Trace, t: Trace, merged: Trace, others: seq<nat>, y: nat)
    requires RootsUsed(p, r.roots, r.ops, others) && RootsUsed(p, t.roots, t.ops, [y])
    requires forall x: nat :: x in merged.roots <==> x in r.roots || x in t.roots
    requires forall x: nat :: x in merged.ops <==> x in r.ops || x in t.ops
    ensures RootsUsed(p, merged.roots, merged.ops, others + [y])
  {
  }

  lemma RootsUsedByLast(p: Program, roots: seq<nat>, ops: seq<nat>, v: nat)
    requires v < |p.defs| && RootsUsed(p, roots, ops, Reads(p, v))
    ensures RootsUsed(p, roots, Insert(ops, v), [v])
  {
    assert v in Insert(ops, v);
  }

  function Insert(s: seq<nat>, x: nat): seq<nat> {
    if x in s then s else s + [x]
  }

  lemma InsertOp(p: Program, roots: seq<nat>, ops: seq<nat>, x: nat)
    requires Ordered(p, roots, ops) && x < |p.defs| && x !in p.attached
    requires FusableBcast(p, x) || IsElementwise(p.defs[x])
    requires forall y: nat :: y in Reads(p, x) ==> y in roots || y in ops
    ensures Ordered(p, roots, Insert(ops, x))
  {
    var more := Insert(ops, x);
    forall k: nat | k < |more|
      ensures Wired(p, roots, more, k)
    {
      if k < |ops| {
        assert Wired(p, roots, ops, k);
        assert more[..k] == ops[..k];
      } else {
        assert more[..k] == ops;
      }
    }
  }

  lemma InsertRoot(p: Program, roots: seq<nat>, ops: seq<nat>, x: nat)
    requires Ordered(p, roots, ops) && x in p.attached && x < |p.defs|
    ensures Ordered(p, Insert(roots, x), ops)
  {
    forall k: nat | k < |ops|
      ensures Wired(p, Insert(roots, x), ops, k)
    {
      assert Wired(p, roots, ops, k);
    }
  }

  /** What one level of the recursion adds to the result it is merging into. */
  method Merge(p: Program, r: Trace, t: Trace) returns (merged: Trace)
    requires Ordered(p, r.roots, r.ops) && Ordered(p, t.roots, t.ops)
    ensures merged.failure == r.failure && Ordered(p, merged.roots, merged.ops)
    ensures forall x: nat :: x in merged.roots <==> x in r.roots || x in t.roots
    ensures forall x: nat :: x in merged.ops <==> x in r.ops || x in t.ops
  {
    var roots, ops := r.roots, r.ops;
    for i := 0 to |t.roots|
      invariant Ordered(p, roots, ops)
      invariant forall x: nat :: x in roots <==> x in r.roots || x in t.roots[..i]
    {
      InsertRoot(p, roots, ops, t.roots[i]);
      assert t.roots[..i + 1] == t.roots[..i] + [t.roots[i]];
      roots := Insert(roots, t.roots[i]);
    }
    assert t.roots[..|t.roots|] == t.roots;
    for i := 0 to |t.ops|
      invariant Ordered(p, roots, ops)
      invariant forall x: nat :: x in ops <==> x in r.ops || x in t.ops[..i]
    {
      assert Wired(p, t.roots, t.ops, i);
      InsertOp(p, roots, ops, t.ops[i]);
      assert t.ops[..i + 1] == t.ops[..i] + [t.ops[i]];
      ops := Insert(ops, t.ops[i]);
    }
    assert t.ops[..|t.ops|] == t.ops;
    merged := Trace(roots, ops, r.failure);
  }

  /** `traceElementwiseToRoots`. */
  method TraceToRoots(p: Program, v: nat) returns (r: Trace)
    requires WellFormed(p) && v < |p.defs|
    ensures r.failure == FirstFailure(p, v)
    ensures Ordered(p, r.roots, r.ops)
    ensures r.failure.None? ==> forall x: nat :: x in r.ops <==> Reaches(p, v, x)
    ensures r.failure.None? ==> RootsUsed(p, r.roots, r.ops, [v])
    ensures v in p.attached ==> r.roots == [v] && r.ops == []
    ensures r.failure.None? && v !in p.attached ==> r.ops != [] && r.ops[|r.ops| - 1] == v
    decreases v
  {
    if v in p.attached {
      return Trace([v], [], None);
    }
    if p.defs[v].BlockArgument? {
      return Trace([], [], Some(Failed(NotCBAttached, v)));
    }
    if FusableBcast(p, v) {
      RootsUsedByLast(p, [p.defs[v].source], [], v);
      return Trace([p.defs[v].source], [v], None);
    }
    if !IsElementwise(p.defs[v]) {
      return Trace([], [], Some(Failed(NotElementwiseOp, v)));
    }
    r := Trace([], [], None);
    var operands := Operands(p.defs[v]);
    for i := 0 to |operands|
      invariant r.failure.None? && Ordered(p, r.roots, r.ops)
      invariant FirstFailure(p, v) == FirstFailureIn(p, v, operands[i..])
      invariant forall x: nat :: x in r.ops <==> ReachedFrom(p, v, operands[..i], x)
      invariant forall y: nat :: y in operands[..i] ==> y in r.roots || y in r.ops
      invariant RootsUsed(p, r.roots, r.ops, operands[..i])
    {
      var t := TraceToRoots(p, operands[i]);
      assert operands[i] in p.attached || Reaches(p, operands[i], operands[i]);
      assert operands[i..][1..] == operands[i + 1..];
      assert operands[..i + 1] == operands[..i] + [operands[i]];
      if t.failure.Some? {
        return t;
      }
      ReachedFromOneMore(p, v, operands[..i], operands[i]);
      var merged := Merge(p, r, t);
      RootsUsedMerged(p, r, t, merged, operands[..i], operands[i]);
      r := merged;
    }
    assert operands[..|operands|] == operands;
    ReachesBelow(p, v, operands);
    InsertOp(p, r.roots, r.ops, v);
    RootsUsedByLast(p, r.roots, r.ops, v);
    r := r.(ops := Insert(r.ops, v));
  }

  lemma ReachedFromOneMore(p: Program, v: nat, operands: seq<nat>, y: nat)
    requires WellFormed(p) && v < |p.defs| && y < v && Below(operands, v)
    ensures forall x: nat ::
              ReachedFrom(p, v, operands + [y], x) <==> ReachedFrom(p, v, operands, x) || Reaches(p, y, x)
  {
    assert y in operands + [y];
  }

  lemma {:induction false} ReachesOnlyBelow(p: Program, v: nat, x: nat)
    requires WellFormed(p) && v < |p.defs| && Reaches(p, v, x)
    ensures x <= v
    decreases v
  {
    if x != v {
      var y: nat :| y in Operands(p.defs[v]) && Reaches(p, y, x);
      ReachesOnlyBelow(p, y, x);
    }
  }

  lemma ReachesBelow(p: Program, v: nat, operands: seq<nat>)
    requires WellFormed(p) && v < |p.defs| && Below(operands, v)
    ensures forall x: nat :: ReachedFrom(p, v, operands, x) ==> x < v
  {
    forall x: nat | ReachedFrom(p, v, operands, x)
      ensures x < v
    {
      var y: nat :| y in operands && Reaches(p, y, x);
      ReachesOnlyBelow(p, y, x);
    }
  }

  /** Tracing fails exactly when some value it reaches is blocked, and then reports one. */
  lemma {:induction false} FailsIffBlocked(p: Program, v: nat)
    requires WellFormed(p) && v < |p.defs|
    ensures FirstFailure(p, v).Some? <==>
            exists x: nat :: x < |p.defs| && Reaches(p, v, x) && Blocked(p, x).Some?
    ensures FirstFailure(p, v).Some? ==>
              var f := FirstFailure(p, v).value;
              f.value < |p.defs| && Reaches(p, v, f.value) && Blocked(p, f.value) == Some(f)
    decreases v, 1
  {
    if v !in p.attached && !FusableBcast(p, v) && IsElementwise(p.defs[v]) {
      FailsInIffBlocked(p, v, Operands(p.defs[v]));
    } else if FirstFailure(p, v).None? {
      forall x: nat | x < |p.defs| && Reaches(p, v, x)
        ensures Blocked(p, x).None?
      {
        assert x == v;
      }
    } else {
      assert Reaches(p, v, v);
    }
  }

  lemma {:induction false} FailsInIffBlocked(p: Program, v: nat, operands: seq<nat>)
    requires WellFormed(p) && v < |p.defs| && Below(operands, v)
    ensures FirstFailureIn(p, v, operands).Some? <==>
            exists x: nat :: x < |p.defs| && ReachedFrom(p, v, operands, x) && Blocked(p, x).Some?
    ensures FirstFailureIn(p, v, operands).Some? ==>
              var f := FirstFailureIn(p, v, operands).value;
              f.value < |p.defs| && ReachedFrom(p, v, operands, f.value) && Blocked(p, f.value) == Some(f)
    decreases v, 0, |operands|
  {
    if operands != [] {
      var y, rest := operands[0], operands[1..];
      FailsIffBlocked(p, y);
      FailsInIffBlocked(p, v, rest);
      forall x: nat
        ensures ReachedFrom(p, v, operands, x) <==> Reaches(p, y, x) || ReachedFrom(p, v, rest, x)
      {
        assert forall z: nat :: z in operands <==> z == y || z in rest;
      }
    }
  }

  // ----- The fused body -----

  /** A value inside the body: a block argument, or the result of one of its operations. */
  datatype TileValue = Argument(index: nat) | OpResult(index: nat)

  datatype TileOp = TileUnary(opcode: int, input: TileValue)
                  | TileBinary(opcode: int, lhs: TileValue, rhs: TileValue)
                  | TileBcast(source: TileValue, kind: BcastType)

  datatype FusionError = OperandNotMapped | UnsupportedOp

  /** `emitTileOpFor` and the broadcast case, with the operands already mapped. */
  function Emitted(d: Def, tiles: seq<TileValue>): TileOp
    requires !d.BlockArgument? && !d.OtherOp? && |tiles| == (if d.Binary? then 2 else 1)
  {
    match d
    case Unary(op, _) => TileUnary(op, tiles[0])
    case Binary(op, _, _) => TileBinary(op, tiles[0], tiles[1])
    case Bcast(_, kind, _, _) => TileBcast(tiles[0], kind)
  }

  /** The tile value standing for tensor value x after the operations listed in `ops`. */
  ghost predicate StandsFor(roots: seq<nat>, ops: seq<nat>, t: TileValue, x: nat) {
    match t
    case Argument(i) => i < |roots| && roots[i] == x
    case OpResult(k) => k < |ops| && ops[k] == x
  }

  ghost predicate AllStandFor(roots: seq<nat>, ops: seq<nat>, tiles: seq<TileValue>, xs: seq<nat>) {
    |tiles| == |xs| && forall i :: 0 <= i < |xs| ==> StandsFor(roots, ops, tiles[i], xs[i])
  }

  /** body[k] is the tile form of ops[k], on tile values standing for what ops[k] reads. */
  ghost predicate Renders(p: Program, roots: seq<nat>, ops: seq<nat>, body: seq<TileOp>, k: nat)
    requires k < |ops| && k < |body|
  {
    && ops[k] < |p.defs| && (p.defs[ops[k]].Bcast? || IsElementwise(p.defs[ops[k]]))
    && exists tiles ::
         AllStandFor(roots, ops[..k], tiles, Reads(p, ops[k])) && body[k] == Emitted(p.defs[ops[k]], tiles)
  }

  predicate Supported(p: Program, supported: set<int>, v: nat) {
    v < |p.defs| && match p.defs[v]
                    case Unary(op, _) => op in supported
                    case Binary(op, _, _) => op in supported
                    case _ => true
  }

  /** The body built by `buildFusedCompute`; `supported` holds the operations that have a tile form.
      Whatever tracing returned, "operand not mapped" does not happen. */
  method BuildFusedBody(p: Program, roots: seq<nat>, ops: seq<nat>, supported: set<int>)
    returns (r: Result<seq<TileOp>, FusionError>)
    requires Ordered(p, roots, ops)
    ensures r.Success? <==> forall k :: 0 <= k < |ops| ==> Supported(p, supported, ops[k])
    ensures r.Failure? ==> r.error == UnsupportedOp
    ensures r.Success? ==> |r.value| == |ops| && forall k: nat | k < |ops| :: Renders(p, roots, ops, r.value, k)
  {
    var tensorToTile: map<nat, TileValue> := map[];
    for i := 0 to |roots|
      invariant forall x: nat :: x in tensorToTile <==> x in roots[..i]
      invariant forall x: nat :: x in tensorToTile ==> StandsFor(roots, [], tensorToTile[x], x)
    {
      assert roots[..i + 1] == roots[..i] + [roots[i]];
      tensorToTile := tensorToTile[roots[i] := Argument(i)];
    }
    assert roots[..|roots|] == roots;
    var body: seq<TileOp> := [];
    for k := 0 to |ops|
      invariant |body| == k
      invariant Maps(roots, ops[..k], tensorToTile)
      invariant forall j :: 0 <= j < k ==> Supported(p, supported, ops[j])
      invariant forall j: nat | j < k :: Renders(p, roots, ops, body, j)
    {
      assert Wired(p, roots, ops, k);
      var inputs := Reads(p, ops[k]);
      var tiles: seq<TileValue> := [];
      for i := 0 to |inputs|
        invariant AllStandFor(roots, ops[..k], tiles, inputs[..i])
      {
        assert inputs[i] in inputs;
        if inputs[i] !in tensorToTile {
          return Failure(OperandNotMapped);
        }
        tiles := tiles + [tensorToTile[inputs[i]]];
      }
      assert inputs[..|inputs|] == inputs;
      if !Supported(p, supported, ops[k]) {
        return Failure(UnsupportedOp);
      }
      assert AllStandFor(roots, ops[..k], tiles, inputs);
      RendersOneMore(p, roots, ops, body, tiles);
      body := body + [Emitted(p.defs[ops[k]], tiles)];
      ResultMapped(roots, ops, tensorToTile, k);
      tensorToTile := tensorToTile[ops[k] := OpResult(k)];
    }
    return Success(body);
  }

  /** Exactly the roots and the operations so far have tile values, which stand for them. */
  ghost predicate Maps(roots: seq<nat>, ops: seq<nat>, tiles: map<nat, TileValue>) {
    && (forall x: nat :: x in tiles <==> x in roots || x in ops)
    && (forall x: nat :: x in tiles ==> StandsFor(roots, ops, tiles[x], x))
  }

  lemma ResultMapped(roots: seq<nat>, ops: seq<nat>, tiles: map<nat, TileValue>, k: nat)
    requires k < |ops| && Maps(roots, ops[..k], tiles)
    ensures Maps(roots, ops[..k + 1], tiles[ops[k] := OpResult(k)])
  {
    assert ops[..k + 1] == ops[..k] + [ops[k]];
  }

  lemma RendersOneMore(p: Program, roots: seq<nat>, ops: seq<nat>, body: seq<TileOp>, tiles: seq<TileValue>)
    requires |body| < |ops| && forall j: nat | j < |body| :: Renders(p, roots, ops, body, j)
    requires Wired(p, roots, ops, |body|)
    requires AllStandFor(roots, ops[..|body|], tiles, Reads(p, ops[|body|]))
    ensures var after := body + [Emitted(p.defs[ops[|body|]], tiles)];
            forall j: nat | j <= |body| :: Renders(p, roots, ops, after, j)
  {
    var after := body + [Emitted(p.defs[ops[|body|]], tiles)];
    forall j: nat | j <= |body|
      ensures Renders(p, roots, ops, after, j)
    {
      if j < |body| {
        assert Renders(p, roots, ops, body, j);
      }
    }
  }

  // ----- Meaning -----

  datatype Index = Index(row: nat, col: nat)

  /** The tile operations, as functions on tiles of any kind. */
  datatype Semantics<!T> = Semantics(unary: (int, T) -> T, binary: (int, T, T) -> T, bcast: (BcastType, T) -> T)

  /** The input tile that a tensor-level broadcast reads for output tile i. */
  function BcastSource(d: Def, i: Index): Index
    requires d.Bcast?
  {
    Index(if d.expandRows then 0 else i.row, if d.expandCols then 0 else i.col)
  }

  /** Tile i of tensor value v; `env` gives the tiles of the values with a buffer. */
  function TensorTile<T>(p: Program, sem: Semantics<T>, env: (nat, Index) -> T, v: nat, i: Index): T
    requires WellFormed(p) && v < |p.defs|
    decreases v
  {
    if v in p.attached then env(v, i)
    else
      match p.defs[v]
      case Unary(op, x) =>
        assert Operands(p.defs[v])[0] == x;
        sem.unary(op, TensorTile(p, sem, env, x, i))
      case Binary(op, x, y) =>
        assert Operands(p.defs[v])[0] == x && Operands(p.defs[v])[1] == y;
        sem.binary(op, TensorTile(p, sem, env, x, i), TensorTile(p, sem, env, y, i))
      case Bcast(x, kind, _, _) => sem.bcast(kind, TensorTile(p, sem, env, x, BcastSource(p.defs[v], i)))
      case _ => env(v, i)
  }

  predicate InScope(t: TileValue, args: nat, results: nat) {
    match t
    case Argument(i) => i < args
    case OpResult(k) => k < results
  }

  function TileOperands(op: TileOp): seq<TileValue> {
    match op
    case TileUnary(_, x) => [x]
    case TileBinary(_, x, y) => [x, y]
    case TileBcast(x, _) => [x]
  }

  predicate Scoped(body: seq<TileOp>, args: nat) {
    forall k :: 0 <= k < |body| ==> forall t :: t in TileOperands(body[k]) ==> InScope(t, args, k)
  }

  function Lookup<T>(t: TileValue, args: seq<T>, results: seq<T>): T
    requires InScope(t, |args|, |results|)
  {
    match t
    case Argument(i) => args[i]
    case OpResult(k) => results[k]
  }

  function RunOp<T>(sem: Semantics<T>, op: TileOp, args: seq<T>, results: seq<T>): T
    requires forall t :: t in TileOperands(op) ==> InScope(t, |args|, |results|)
  {
    match op
    case TileUnary(opcode, x) => sem.unary(opcode, Lookup(x, args, results))
    case TileBinary(opcode, x, y) => sem.binary(opcode, Lookup(x, args, results), Lookup(y, args, results))
    case TileBcast(x, kind) => sem.bcast(kind, Lookup(x, args, results))
  }

  /** The results of a body's operations, in order. */
  function RunBody<T>(sem: Semantics<T>, body: seq<TileOp>, args: seq<T>): (results: seq<T>)
    requires Scoped(body, |args|)
    ensures |results| == |body|
  {
    if body == [] then []
    else
      var k := |body| - 1;
      assert body[..k] + [body[k]] == body;
      var before := RunBody(sem, body[..k], args);
      before + [RunOp(sem, body[k], args, before)]
  }

  /** With the identity indexing maps of a fused compute, each argument is its root's tile i. */
  function Arguments<T>(env: (nat, Index) -> T, roots: seq<nat>, i: Index): (args: seq<T>)
    ensures |args| == |roots|
  {
    seq(|roots|, k requires 0 <= k < |roots| => env(roots[k], i))
  }

  /** No fused broadcast maps output tile i to another input tile. */
  ghost predicate ReadsInPlace(p: Program, ops: seq<nat>, i: Index) {
    forall k :: 0 <= k < |ops| ==>
      ops[k] < |p.defs| && (p.defs[ops[k]].Bcast? ==> BcastSource(p.defs[ops[k]], i) == i)
  }

  lemma RenderedIsScoped(p: Program, roots: seq<nat>, ops: seq<nat>, body: seq<TileOp>)
    requires |body| == |ops| && forall k: nat | k < |ops| :: Renders(p, roots, ops, body, k)
    ensures Scoped(body, |roots|)
  {
    forall k: nat, t | k < |body| && t in TileOperands(body[k])
      ensures InScope(t, |roots|, k)
    {
      assert Renders(p, roots, ops, body, k);
      var tiles :| AllStandFor(roots, ops[..k], tiles, Reads(p, ops[k])) && body[k] == Emitted(p.defs[ops[k]], tiles);
      var j :| 0 <= j < |tiles| && tiles[j] == t;
    }
  }

  /** What a tile value looks up is tile i of the tensor value it stands for. */
  lemma LookupIsTile<T>(p: Program, sem: Semantics<T>, env: (nat, Index) -> T, roots: seq<nat>, ops: seq<nat>,
                        i: Index, results: seq<T>, t: TileValue, x: nat)
    requires WellFormed(p) && Ordered(p, roots, ops) && |results| <= |ops|
    requires forall k :: 0 <= k < |ops| ==> ops[k] < |p.defs|
    requires forall k :: 0 <= k < |results| ==> results[k] == TensorTile(p, sem, env, ops[k], i)
    requires StandsFor(roots, ops[..|results|], t, x)
    ensures x < |p.defs| && InScope(t, |roots|, |results|)
    ensures Lookup(t, Arguments(env, roots, i), results) == TensorTile(p, sem, env, x, i)
  {
    if t.Argument? {
      assert x in roots;
    }
  }

  /** One operation of the body computes tile i of the tensor operation it renders. */
  lemma OpComputes<T>(p: Program, sem: Semantics<T>, env: (nat, Index) -> T, roots: seq<nat>, ops: seq<nat>,
                      body: seq<TileOp>, i: Index, results: seq<T>)
    requires WellFormed(p) && Ordered(p, roots, ops) && |results| < |ops| == |body|
    requires ReadsInPlace(p, ops, i) && Renders(p, roots, ops, body, |results|)
    requires forall k :: 0 <= k < |results| ==> results[k] == TensorTile(p, sem, env, ops[k], i)
    requires forall t :: t in TileOperands(body[|results|]) ==> InScope(t, |roots|, |results|)
    ensures RunOp(sem, body[|results|], Arguments(env, roots, i), results)
            == TensorTile(p, sem, env, ops[|results|], i)
  {
    var k := |results|;
    var v := ops[k];
    assert Wired(p, roots, ops, k);
    var inputs := Reads(p, v);
    var tiles :| AllStandFor(roots, ops[..k], tiles, inputs) && body[k] == Emitted(p.defs[v], tiles);
    LookupIsTile(p, sem, env, roots, ops, i, results, tiles[0], inputs[0]);
    if p.defs[v].Binary? {
      LookupIsTile(p, sem, env, roots, ops, i, results, tiles[1], inputs[1]);
    }
  }

  /** Fusion preserves meaning: at every tile index that the fused broadcasts read in place, the
      k-th result of the body is that tile of the k-th fused operation. */
  lemma {:induction false} FusedBodyComputes<T>(p: Program, sem: Semantics<T>, env: (nat, Index) -> T,
                                                roots: seq<nat>, ops: seq<nat>, body: seq<TileOp>, i: Index, n: nat)
    requires WellFormed(p) && Ordered(p, roots, ops) && n <= |body| == |ops| && ReadsInPlace(p, ops, i)
    requires forall k: nat | k < |ops| :: Renders(p, roots, ops, body, k)
    ensures Scoped(body[..n], |roots|)
    ensures var results := RunBody(sem, body[..n], Arguments(env, roots, i));
            forall k :: 0 <= k < n ==> results[k] == TensorTile(p, sem, env, ops[k], i)
  {
    RenderedIsScoped(p, roots, ops, body);
    if n > 0 {
      FusedBodyComputes(p, sem, env, roots, ops, body, i, n - 1);
      assert body[..n][..n - 1] == body[..n - 1];
      OpComputes(p, sem, env, roots, ops, body, i, RunBody(sem, body[..n - 1], Arguments(env, roots, i)));
    }
  }

  /** The value the fused compute yields is the sink's. */
  lemma FusionPreservesMeaning<T>(p: Program, sem: Semantics<T>, env: (nat, Index) -> T, sink: nat,
                                  roots: seq<nat>, ops: seq<nat>, body: seq<TileOp>, i: Index)
    requires WellFormed(p) && Ordered(p, roots, ops) && |body| == |ops| > 0 && ReadsInPlace(p, ops, i)
    requires sink < |p.defs| && ops[|ops| - 1] == sink
    requires forall k: nat | k < |ops| :: Renders(p, roots, ops, body, k)
    ensures Scoped(body, |roots|)
    ensures RunBody(sem, body, Arguments(env, roots, i))[|body| - 1] == TensorTile(p, sem, env, sink, i)
  {
    FusedBodyComputes(p, sem, env, roots, ops, body, i, |body|);
    assert body[..|body|] == body;
  }

  // ----- The converse -----

  /** Tiles as terms over the tiles read: what holds of these holds for all tile operations. */
  datatype Term = Leaf(value: nat, at: Index)
                | UnaryTerm(opcode: int, input: Term)
                | BinaryTerm(opcode: int, lhs: Term, rhs: Term)
                | BcastTerm(kind: BcastType, source: Term)

  function Terms(): Semantics<Term> {
    Semantics((op, x) => UnaryTerm(op, x), (op, x, y) => BinaryTerm(op, x, y), (kind, x) => BcastTerm(kind, x))
  }

  function Leaves(): (nat, Index) -> Term {
    (v: nat, i: Index) => Leaf(v, i)
  }

  lemma {:induction false} RunPrefix<T>(sem: Semantics<T>, body: seq<TileOp>, args: seq<T>, k: nat)
    requires Scoped(body, |args|) && k < |body|
    ensures RunBody(sem, body, args)[k] == RunOp(sem, body[k], args, RunBody(sem, body, args)[..k])
    decreases |body|
  {
    var n := |body| - 1;
    assert body[..n] + [body[n]] == body;
    var before := RunBody(sem, body[..n], args);
    assert RunBody(sem, body, args)[..n] == before;
    if k < n {
      RunPrefix(sem, body[..n], args, k);
      assert RunBody(sem, body, args)[..k] == before[..k];
    }
  }

  /** The term that the body has for tensor value x, which is a root or one of the operations. */
  ghost predicate Holds(roots: seq<nat>, ops: seq<nat>, i: Index, results: seq<Term>, x: nat, t: Term) {
    || (x in roots && t == Leaf(x, i))
    || (exists j :: 0 <= j < |ops| && j < |results| && ops[j] == x && results[j] == t)
  }

  /** The term is v's operation on terms that the body has for its operands. */
  ghost predicate Applies(p: Program, roots: seq<nat>, ops: seq<nat>, i: Index, results: seq<Term>, v: nat, t: Term)
    requires v < |p.defs|
  {
    match p.defs[v]
    case Unary(op, x) => t.UnaryTerm? && t.opcode == op && Holds(roots, ops, i, results, x, t.input)
    case Binary(op, x, y) =>
      && t.BinaryTerm? && t.opcode == op
      && Holds(roots, ops, i, results, x, t.lhs) && Holds(roots, ops, i, results, y, t.rhs)
    case Bcast(x, kind, _, _) => t.BcastTerm? && t.kind == kind && Holds(roots, ops, i, results, x, t.source)
    case _ => true
  }

  lemma LookupHolds(roots: seq<nat>, ops: seq<nat>, i: Index, results: seq<Term>, k: nat, t: TileValue, x: nat)
    requires k <= |ops| == |results| && StandsFor(roots, ops[..k], t, x)
    ensures InScope(t, |roots|, k)
    ensures Holds(roots, ops, i, results, x, Lookup(t, Arguments(Leaves(), roots, i), results[..k]))
  {
    if t.Argument? {
      assert roots[t.index] in roots;
    } else {
      assert ops[t.index] == x;
    }
  }

  lemma ResultApplies(p: Program, roots: seq<nat>, ops: seq<nat>, body: seq<TileOp>, i: Index, k: nat)
    requires |body| == |ops| && k < |ops| && Scoped(body, |roots|) && Renders(p, roots, ops, body, k)
    ensures var results := RunBody(Terms(), body, Arguments(Leaves(), roots, i));
            Applies(p, roots, ops, i, results, ops[k], results[k])
  {
    var v, args := ops[k], Arguments(Leaves(), roots, i);
    var results := RunBody(Terms(), body, args);
    RunPrefix(Terms(), body, args, k);
    var tiles :| AllStandFor(roots, ops[..k], tiles, Reads(p, v)) && body[k] == Emitted(p.defs[v], tiles);
    LookupHolds(roots, ops, i, results, k, tiles[0], Reads(p, v)[0]);
    if p.defs[v].Binary? {
      LookupHolds(roots, ops, i, results, k, tiles[1], Reads(p, v)[1]);
    }
  }

  /** As terms, the body has tile i of tensor value x. */
  ghost predicate Agrees(p: Program, roots: seq<nat>, ops: seq<nat>, i: Index, results: seq<Term>, x: nat)
    requires WellFormed(p) && x < |p.defs|
  {
    forall t :: Holds(roots, ops, i, results, x, t) ==> t == TensorTile(p, Terms(), Leaves(), x, i)
  }

  lemma OpsAreUnattached(p: Program, roots: seq<nat>, ops: seq<nat>)
    requires Ordered(p, roots, ops)
    ensures forall x: nat :: x in ops ==> x !in p.attached
  {
    forall k: nat | k < |ops|
      ensures ops[k] !in p.attached
    {
      assert Wired(p, roots, ops, k);
    }
  }

  /** A fused broadcast that reads another tile has another term. */
  lemma BcastInPlace(p: Program, roots: seq<nat>, ops: seq<nat>, i: Index, results: seq<Term>, k: nat)
    requires WellFormed(p) && Ordered(p, roots, ops) && k < |ops| == |results|
    requires ops[k] < |p.defs| && p.defs[ops[k]].Bcast?
    requires Applies(p, roots, ops, i, results, ops[k], results[k])
    requires results[k] == TensorTile(p, Terms(), Leaves(), ops[k], i)
    ensures BcastSource(p.defs[ops[k]], i) == i
  {
    assert Wired(p, roots, ops, k);
    var x := p.defs[ops[k]].source;
    OpsAreUnattached(p, roots, ops);
    assert results[k].source == Leaf(x, i);
  }

  lemma HoldsOne(p: Program, roots: seq<nat>, ops: seq<nat>, i: Index, results: seq<Term>, x: nat, t: Term, u: Term)
    requires Ordered(p, roots, ops)
    requires Holds(roots, ops, i, results, x, t) && Holds(roots, ops, i, results, x, u)
    ensures t == u
  {
    OpsAreUnattached(p, roots, ops);
  }

  /** If the terms of an operation agree, so do those of everything it is computed from. */
  lemma {:induction false} AgreementSpreads(p: Program, roots: seq<nat>, ops: seq<nat>, i: Index, results: seq<Term>,
                                            v: nat, x: nat)
    requires WellFormed(p) && Ordered(p, roots, ops) && |results| == |ops|
    requires forall k :: 0 <= k < |ops| ==>
               ops[k] < |p.defs| && Applies(p, roots, ops, i, results, ops[k], results[k])
    requires v < |p.defs| && v in ops && Agrees(p, roots, ops, i, results, v) && Reaches(p, v, x)
    ensures x < |p.defs| && Agrees(p, roots, ops, i, results, x)
    decreases v
  {
    if x != v {
      var y: nat :| y in Operands(p.defs[v]) && Reaches(p, y, x);
      var k: nat :| k < |ops| && ops[k] == v;
      assert Wired(p, roots, ops, k);
      OperandAgrees(p, roots, ops, i, results, k, y);
      AgreementSpreads(p, roots, ops, i, results, y, x);
    }
  }

  lemma OperandAgrees(p: Program, roots: seq<nat>, ops: seq<nat>, i: Index, results: seq<Term>, k: nat, y: nat)
    requires WellFormed(p) && Ordered(p, roots, ops) && k < |ops| == |results| && ops[k] < |p.defs|
    requires Applies(p, roots, ops, i, results, ops[k], results[k])
    requires y in Operands(p.defs[ops[k]]) && Agrees(p, roots, ops, i, results, ops[k])
    ensures y < |p.defs| && Agrees(p, roots, ops, i, results, y)
  {
    var v := ops[k];
    assert Wired(p, roots, ops, k);
    assert Holds(roots, ops, i, results, v, results[k]);
    var tile := TensorTile(p, Terms(), Leaves(), y, i);
    forall t | Holds(roots, ops, i, results, y, t)
      ensures t == tile
    {
      match p.defs[v]
      case Unary(_, _) =>
        HoldsOne(p, roots, ops, i, results, y, t, results[k].input);
      case Binary(_, l, _) =>
        HoldsOne(p, roots, ops, i, results, y, t, if y == l then results[k].lhs else results[k].rhs);
      case _ => assert false;
    }
  }

  /** Exactly when fusion preserves meaning at tile i: the term that the body yields is the sink's
      if and only if the fused broadcasts read in place.  The latter gives equality under all tile
      operations by FusionPreservesMeaning. */
  lemma PreservesMeaningIff(p: Program, sink: nat, roots: seq<nat>, ops: seq<nat>, body: seq<TileOp>, i: Index)
    requires WellFormed(p) && Ordered(p, roots, ops) && |body| == |ops| > 0
    requires sink < |p.defs| && ops[|ops| - 1] == sink
    requires forall x: nat :: x in ops ==> Reaches(p, sink, x)
    requires forall k: nat | k < |ops| :: Renders(p, roots, ops, body, k)
    ensures Scoped(body, |roots|)
    ensures RunBody(Terms(), body, Arguments(Leaves(), roots, i))[|body| - 1]
            == TensorTile(p, Terms(), Leaves(), sink, i)
            <==> ReadsInPlace(p, ops, i)
  {
    RenderedIsScoped(p, roots, ops, body);
    var results := RunBody(Terms(), body, Arguments(Leaves(), roots, i));
    var last := |body| - 1;
    if ReadsInPlace(p, ops, i) {
      FusionPreservesMeaning(p, Terms(), Leaves(), sink, roots, ops, body, i);
    } else if results[last] == TensorTile(p, Terms(), Leaves(), sink, i) {
      forall k: nat | k < |ops|
        ensures ops[k] < |p.defs|
        ensures Applies(p, roots, ops, i, results, ops[k], results[k])
      {
        assert Renders(p, roots, ops, body, k);
        ResultApplies(p, roots, ops, body, i, k);
      }
      assert Holds(roots, ops, i, results, sink, results[last]);
      forall t | Holds(roots, ops, i, results, sink, t)
        ensures t == results[last]
      {
        HoldsOne(p, roots, ops, i, results, sink, t, results[last]);
      }
      var k: nat :| k < |ops| && p.defs[ops[k]].Bcast? && BcastSource(p.defs[ops[k]], i) != i;
      assert ops[k] in ops;
      AgreementSpreads(p, roots, ops, i, results, sink, ops[k]);
      assert Holds(roots, ops, i, results, ops[k], results[k]);
      BcastInPlace(p, roots, ops, i, results, k);
    }
  }

  /** A broadcast of one row of tiles, and a unary operation on its result. */
  const EXPANDING := Program([OtherOp, Bcast(0, Row, true, false), Unary(0, 1)], {0})
  const EXPANDING_BODY := [TileBcast(Argument(0), Row), TileUnary(0, OpResult(0))]

  lemma ExpandingIsRendered()
    ensures WellFormed(EXPANDING) && Ordered(EXPANDING, [0], [1, 2])
    ensures forall k: nat | k < 2 :: Renders(EXPANDING, [0], [1, 2], EXPANDING_BODY, k)
  {
    var p, roots, ops, body := EXPANDING, [0], [1, 2], EXPANDING_BODY;
    assert Wired(p, roots, ops, 0) && Wired(p, roots, ops, 1);
    assert AllStandFor(roots, ops[..0], [Argument(0)], Reads(p, 1));
    assert AllStandFor(roots, ops[..1], [OpResult(0)], Reads(p, 2));
    assert Renders(p, roots, ops, body, 0) && Renders(p, roots, ops, body, 1);
  }

  /** A fused broadcast that expands its input's shape does change meaning, whatever its operations
      are: its argument is read with the identity map too. */
  lemma FusedExpansionDiffers<T>(sem: Semantics<T>, env: (nat, Index) -> T, i: Index)
    ensures WellFormed(EXPANDING) && Scoped(EXPANDING_BODY, 1)
    ensures TensorTile(EXPANDING, sem, env, 2, i) == sem.unary(0, sem.bcast(Row, env(0, Index(0, i.col))))
    ensures RunBody(sem, EXPANDING_BODY, Arguments(env, [0], i))[1] == sem.unary(0, sem.bcast(Row, env(0, i)))
  {
    ExpandingIsRendered();
    RenderedIsScoped(EXPANDING, [0], [1, 2], EXPANDING_BODY);
    var args := Arguments(env, [0], i);
    assert EXPANDING_BODY[..1][..0] == [] && args == [env(0, i)];
    assert TensorTile(EXPANDING, sem, env, 1, i) == sem.bcast(Row, env(0, Index(0, i.col)));
    assert RunBody(sem, EXPANDING_BODY[..1], args) == [sem.bcast(Row, env(0, i))];
  }
}
