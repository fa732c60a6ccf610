/** Which values can be fused (lib/Dialect/TTL/IR/TTLOpsUtils.cpp), said of the kinds of operations
    and the chains of operands between them. */
module ElementwiseChains {
  import opened Fusion
  import opened Wrappers

  /** Operation v reads earlier values. */
  predicate ReadsEarlier(p: Program, v: nat)
    requires v < |p.defs|
  {
    match p.defs[v]
    case Unary(_, x) => x < v
    case Binary(_, x, y) => x < v && y < v
    case Bcast(x, _, _, _) => x < v
    case _ => true
  }

  lemma WellFormedIff(p: Program)
    ensures WellFormed(p) <==> forall v: nat | v < |p.defs| :: ReadsEarlier(p, v)
  {
    forall v: nat | v < |p.defs|
      ensures Below(Operands(p.defs[v]), v) && (p.defs[v].Bcast? ==> p.defs[v].source < v) <==> ReadsEarlier(p, v)
    {
      var s := Operands(p.defs[v]);
      match p.defs[v]
      case Unary(_, x) => assert s == [x] && s[0] == x;
      case Binary(_, x, y) => assert s == [x, y] && s[0] == x && s[1] == y;
      case _ => assert s == [];
    }
  }

  /** Tracing goes on from x to y: y is an operand of the unary or binary operation x. */
  predicate TracesTo(p: Program, x: nat, y: nat)
    requires x < |p.defs|
  {
    match p.defs[x]
    case Unary(_, input) => y == input
    case Binary(_, lhs, rhs) => y == lhs || y == rhs
    case _ => false
  }

  /** A way down from chain[0] through values without a circular buffer. */
  ghost predicate IsChain(p: Program, chain: seq<nat>) {
    && chain != []
    && (forall i: nat | i < |chain| :: chain[i] < |p.defs| && chain[i] !in p.attached)
    && forall i: nat | i + 1 < |chain| :: TracesTo(p, chain[i], chain[i + 1])
  }

  ghost predicate IsChainTo(p: Program, v: nat, x: nat, chain: seq<nat>) {
    IsChain(p, chain) && chain[0] == v && chain[|chain| - 1] == x
  }

  /** The operation can be part of a fused body: a unary or binary one, or a broadcast that reads a
      circular buffer. */
  predicate Fuses(p: Program, x: nat)
    requires x < |p.defs|
  {
    match p.defs[x]
    case Unary(_, _) => true
    case Binary(_, _, _) => true
    case Bcast(source, _, _, _) => source in p.attached
    case _ => false
  }

  /** A traced operation has no tile form if and only if it is a unary or binary one whose opcode has
      none. */
  lemma UnsupportedIff(p: Program, roots: seq<nat>, ops: seq<nat>, opcodes: set<int>, k: nat)
    requires Ordered(p, roots, ops) && k < |ops|
    ensures ops[k] < |p.defs|
    ensures var d := p.defs[ops[k]];
            !Supported(p, opcodes, ops[k]) <==> (d.Unary? || d.Binary?) && d.opcode !in opcodes
  {
    assert Wired(p, roots, ops, k);
  }

  /** A value that stops tracing is at the end of some chain. */
  ghost predicate StopsAt(p: Program, v: nat, x: nat) {
    x < |p.defs| && !Fuses(p, x) && exists chain: seq<nat> :: IsChainTo(p, v, x, chain)
  }

  lemma {:induction false} ChainReaches(p: Program, chain: seq<nat>)
    requires WellFormed(p) && IsChain(p, chain)
    ensures Reaches(p, chain[0], chain[|chain| - 1])
    decreases |chain|
  {
    if |chain| > 1 {
      var v, rest := chain[0], chain[1..];
      assert TracesTo(p, v, chain[1]);
      ChainReaches(p, rest);
      var operands := Operands(p.defs[v]);
      assert rest[0] in operands by {
        if p.defs[v].Binary? {
          assert operands == [p.defs[v].lhs, p.defs[v].rhs];
        } else {
          assert operands == [p.defs[v].input];
        }
      }
    }
  }

  lemma {:induction false} ReachesChain(p: Program, v: nat, x: nat) returns (chain: seq<nat>)
    requires WellFormed(p) && v < |p.defs| && Reaches(p, v, x)
    ensures IsChainTo(p, v, x, chain)
    decreases v
  {
    if x == v {
      chain := [v];
    } else {
      var y: nat :| y in Operands(p.defs[v]) && Reaches(p, y, x);
      var rest := ReachesChain(p, y, x);
      chain := [v] + rest;
      assert TracesTo(p, v, y);
      forall i: nat | i + 1 < |chain|
        ensures TracesTo(p, chain[i], chain[i + 1])
      {
        if i > 0 {
          assert TracesTo(p, rest[i - 1], rest[i]);
        }
      }
    }
  }

  /** Tracing succeeds if and only if every value down from v without a circular buffer fuses; it
      reports a value that does not, as not attached if it is a block argument. */
  lemma TracedIff(p: Program, v: nat)
    requires WellFormed(p) && v < |p.defs|
    ensures FirstFailure(p, v).None? <==> forall x: nat :: !StopsAt(p, v, x)
    ensures FirstFailure(p, v).Some? ==>
              var f := FirstFailure(p, v).value;
              StopsAt(p, v, f.value) && f.reason == if p.defs[f.value].BlockArgument? then NotCBAttached
                                                    else NotElementwiseOp
  {
    FailsIffBlocked(p, v);
    forall x: nat
      ensures x < |p.defs| && Reaches(p, v, x) && Blocked(p, x).Some? <==> StopsAt(p, v, x)
    {
      StopsIffBlocked(p, v, x);
    }
    if forall x: nat :: !StopsAt(p, v, x) {
      assert FirstFailure(p, v).None?;
    }
  }

  lemma StopsIffBlocked(p: Program, v: nat, x: nat)
    requires WellFormed(p) && v < |p.defs|
    ensures x < |p.defs| && Reaches(p, v, x) && Blocked(p, x).Some? <==> StopsAt(p, v, x)
  {
    if x < |p.defs| && Reaches(p, v, x) && Blocked(p, x).Some? {
      var chain := ReachesChain(p, v, x);
    }
    if StopsAt(p, v, x) {
      var chain: seq<nat> :| IsChainTo(p, v, x, chain);
      ChainReaches(p, chain);
      assert chain[|chain| - 1] !in p.attached;
    }
  }

  /** The failure reported for an unattached value, from those of its operands: the left operand's
      comes before the right one's. */
  predicate FailsAsItsParts(p: Program, v: nat)
    requires WellFormed(p) && v < |p.defs| && v !in p.attached
  {
    match p.defs[v]
    case BlockArgument => FirstFailure(p, v) == Some(Failed(NotCBAttached, v))
    case Unary(_, x) => x < v && FirstFailure(p, v) == FirstFailure(p, x)
    case Binary(_, x, y) =>
      && x < v && y < v
      && FirstFailure(p, v) == (if FirstFailure(p, x).Some? then FirstFailure(p, x) else FirstFailure(p, y))
    case Bcast(x, _, _, _) =>
      FirstFailure(p, v) == if x in p.attached then None else Some(Failed(NotElementwiseOp, v))
    case OtherOp => FirstFailure(p, v) == Some(Failed(NotElementwiseOp, v))
  }

  lemma LeftmostFailure(p: Program, v: nat)
    requires WellFormed(p) && v < |p.defs|
    ensures if v in p.attached then FirstFailure(p, v) == None else FailsAsItsParts(p, v)
  {
    WellFormedIff(p);
    assert ReadsEarlier(p, v);
    match p.defs[v]
    case Binary(_, x, y) =>
      FirstOperand(p, v, y, []);
      FirstOperand(p, v, x, [y]);
      assert Operands(p.defs[v]) == [x] + [y] && [y] + [] == [y];
    case Unary(_, x) =>
      FirstOperand(p, v, x, []);
      assert Operands(p.defs[v]) == [x] + [];
    case _ =>
  }

  lemma FirstOperand(p: Program, v: nat, x: nat, rest: seq<nat>)
    requires WellFormed(p) && v < |p.defs| && x < v && Below(rest, v)
    ensures Below([x] + rest, v)
    ensures FirstFailureIn(p, v, []) == None
    ensures FirstFailureIn(p, v, [x] + rest)
            == if FirstFailure(p, x).Some? then FirstFailure(p, x) else FirstFailureIn(p, v, rest)
  {
    assert ([x] + rest)[1..] == rest;
  }
}
