/** The access-state machine of a block (python/sim/blockstate.py and the `mark_*`
    methods of `Block` in python/sim/dfb.py), and what its states mean in terms of
    the block's history. */
module BlockState {
  import opened Wrappers

  datatype AccessState = MW | MR | RW | A | NAR | NAW | OS
  datatype ThreadType = DM | COMPUTE
  datatype Acquisition = RESERVE | WAIT
  datatype ExpectedOp = COPY_SRC | COPY_DST | TX_WAIT | PUSH | POP | STORE | STORE_ACC | STORE_SRC

  /** Everything that can be tried on a block. */
  datatype Operation = CopySrc | CopyDst | TxWait | StoreSrc | StoreDst | StoreDstAcc | Push | Pop

  /** The state-machine part of a block. */
  datatype Protocol = Protocol(acq: Acquisition, thread: ThreadType,
                               access: AccessState, expected: set<ExpectedOp>)

  /** `Impossible`, `WrongAcquisition` and `BadAccess` are the errors raised after the
      expected-operation check has already passed. */
  datatype StateError = NotExpected | Done | Impossible | WrongAcquisition | BadAccess

  function Initial(acq: Acquisition, thread: ThreadType): Protocol {
    match (acq, thread)
    case (RESERVE, DM) => Protocol(acq, thread, MW, {COPY_DST})
    case (RESERVE, COMPUTE) => Protocol(acq, thread, MW, {STORE, STORE_ACC})
    case (WAIT, DM) => Protocol(acq, thread, MR, {COPY_SRC})
    case (WAIT, COMPUTE) => Protocol(acq, thread, MR, {STORE_SRC})
  }

  function ExpectedFor(op: Operation): ExpectedOp {
    match op
    case CopySrc => COPY_SRC
    case CopyDst => COPY_DST
    case TxWait => TX_WAIT
    case StoreSrc => STORE_SRC
    case StoreDst => STORE
    case StoreDstAcc => STORE_ACC
    case Push => PUSH
    case Pop => POP
  }

  /** STATE_TRANSITIONS. */
  function Transition(acq: Acquisition, thread: ThreadType, op: Operation, access: AccessState)
    : Option<(AccessState, set<ExpectedOp>)>
  {
    match (acq, thread)
    case (WAIT, DM) => (
      match (op, access)
      case (CopySrc, MR) => Some((NAR, {TX_WAIT}))
      case (CopySrc, RW) => Some((NAR, {TX_WAIT}))
      case (CopyDst, RW) => Some((NAW, {TX_WAIT}))
      case (TxWait, NAR) => Some((RW, {COPY_DST, COPY_SRC, POP}))
      case (TxWait, NAW) => Some((MR, {COPY_SRC}))
      case _ => None)
    case (RESERVE, DM) => (
      match (op, access)
      case (CopySrc, MR) => Some((NAR, {TX_WAIT}))
      case (CopySrc, RW) => Some((NAR, {TX_WAIT}))
      case (CopyDst, MW) => Some((NAW, {TX_WAIT}))
      case (CopyDst, RW) => Some((NAW, {TX_WAIT}))
      case (TxWait, NAW) => Some((MR, {PUSH, COPY_SRC}))
      case (TxWait, NAR) => Some((RW, {COPY_DST, COPY_SRC, PUSH}))
      case _ => None)
    case (WAIT, COMPUTE) => (
      match (op, access)
      case (StoreSrc, MR) => Some((RW, {STORE_SRC, STORE, STORE_ACC, POP}))
      case (StoreSrc, RW) => Some((RW, {STORE_SRC, STORE, STORE_ACC, POP}))
      case (StoreSrc, A) => Some((RW, {STORE_SRC, STORE, STORE_ACC, POP}))
      case (StoreDstAcc, RW) => Some((A, {STORE_SRC, STORE_ACC}))
      case (StoreDstAcc, A) => Some((A, {STORE_SRC, STORE_ACC}))
      case (StoreDst, RW) => Some((MR, {STORE_SRC}))
      case _ => None)
    case (RESERVE, COMPUTE) => (
      match (op, access)
      case (StoreSrc, MR) => Some((RW, {STORE_SRC, STORE, STORE_ACC, PUSH}))
      case (StoreSrc, RW) => Some((RW, {STORE_SRC, STORE, STORE_ACC, PUSH}))
      case (StoreSrc, A) => Some((RW, {STORE_SRC, STORE, STORE_ACC, PUSH}))
      case (StoreDstAcc, MW) => Some((A, {STORE_SRC, STORE_ACC, PUSH}))
      case (StoreDstAcc, RW) => Some((A, {STORE_SRC, STORE_ACC, PUSH}))
      case (StoreDstAcc, A) => Some((A, {STORE_SRC, STORE_ACC, PUSH}))
      case (StoreDst, MW) => Some((MR, {STORE_SRC, PUSH}))
      case (StoreDst, RW) => Some((MR, {STORE_SRC, PUSH}))
      case _ => None)
  }

  /** One attempt: `_validate_state`, then the table (`_transition_state`) or the extra
      checks of `mark_push_complete` and `mark_pop_complete`. */
  function Apply(p: Protocol, op: Operation): Result<Protocol, StateError> {
    if p.expected == {} then Failure(Done)
    else if ExpectedFor(op) !in p.expected then Failure(NotExpected)
    else if op == Push then
      if p.acq != RESERVE then Failure(WrongAcquisition)
      else Success(p.(access := OS, expected := {}))
    else if op == Pop then
      if p.acq != WAIT then Failure(WrongAcquisition)
      else if p.access !in {MR, RW, A} then Failure(BadAccess)
      else Success(p.(access := OS, expected := {}))
    else
      match Transition(p.acq, p.thread, op, p.access)
      case None => Failure(Impossible)
      case Some(next) => Success(p.(access := next.0, expected := next.1))
  }

  /** The state after the accepted operations `history`, or None when one was refused. */
  function Run(acq: Acquisition, thread: ThreadType, history: seq<Operation>): Option<Protocol> {
    if history == [] then Some(Initial(acq, thread))
    else
      match Run(acq, thread, history[..|history| - 1])
      case None => None
      case Some(p) =>
        match Apply(p, history[|history| - 1])
        case Success(q) => Some(q)
        case Failure(_) => None
  }

  /** Being read by a compute store always leads to the same state, so marking a block twice
      (as in `a * a`) is the same as marking it once. */
  lemma ReadIsIdempotent(p: Protocol, q: Protocol)
    requires Apply(p, StoreSrc) == Success(q)
    ensures q == AfterRead(p) && Apply(q, StoreSrc) == Success(q)
  {
  }

  function AfterRead(p: Protocol): Protocol {
    p.(access := RW, expected := {STORE_SRC, STORE, STORE_ACC, if p.acq == WAIT then POP else PUSH})
  }

  // ----- What a history says, independently of the table -----

  /** A copy was started and not yet waited for. */
  predicate InFlight(history: seq<Operation>) {
    history != [] && history[|history| - 1] in {CopySrc, CopyDst}
  }

  predicate Closed(history: seq<Operation>) {
    history != [] && history[|history| - 1] in {Push, Pop}
  }

  /** The i-th operation completed a write into the block. */
  predicate WriteDone(history: seq<Operation>, i: nat)
    requires i < |history|
  {
    history[i] in {StoreDst, StoreDstAcc} || (history[i] == TxWait && i > 0 && history[i - 1] == CopyDst)
  }

  /** The i-th operation completed a read of the block. */
  predicate ReadDone(history: seq<Operation>, i: nat)
    requires i < |history|
  {
    history[i] == StoreSrc || (history[i] == TxWait && i > 0 && history[i - 1] == CopySrc)
  }

  /** The block holds data: it was waited for, or some write into it has completed. */
  ghost predicate Filled(acq: Acquisition, history: seq<Operation>) {
    acq == WAIT || exists i: nat | i < |history| :: WriteDone(history, i)
  }

  /** The current contents have been read since they were last written. */
  ghost predicate ReadSinceWrite(history: seq<Operation>) {
    exists i: nat | i < |history| :: ReadDone(history, i) && NoWriteAfter(history, i)
  }

  ghost predicate NoWriteAfter(history: seq<Operation>, i: nat) {
    forall j: nat | i < j < |history| :: !WriteDone(history, j)
  }

  predicate EndsInAccumulate(history: seq<Operation>) {
    history != [] && history[|history| - 1] == StoreDstAcc
  }

  /** The usage contract, stated on histories alone. */
  ghost predicate Allowed(acq: Acquisition, thread: ThreadType, history: seq<Operation>, op: Operation) {
    if Closed(history) then false
    else if InFlight(history) then op == TxWait
    else
      var overwritable := !Filled(acq, history) || ReadSinceWrite(history);
      match op
      case TxWait => false
      case CopySrc => thread == DM && Filled(acq, history)
      case CopyDst => thread == DM && overwritable
      case StoreSrc => thread == COMPUTE && Filled(acq, history)
      case StoreDst => thread == COMPUTE && overwritable
      case StoreDstAcc => thread == COMPUTE && (overwritable || EndsInAccumulate(history))
      case Push => acq == RESERVE && Filled(acq, history)
      case Pop => acq == WAIT && ReadSinceWrite(history)
  }

  ghost function AccessFor(acq: Acquisition, history: seq<Operation>): AccessState {
    if Closed(history) then OS
    else if InFlight(history) then
      if history[|history| - 1] == CopySrc then NAR else NAW
    else if !Filled(acq, history) then MW
    else if ReadSinceWrite(history) then RW
    else if EndsInAccumulate(history) then A
    else MR
  }

  ghost predicate Describes(p: Protocol, acq: Acquisition, thread: ThreadType, history: seq<Operation>) {
    && p.acq == acq && p.thread == thread
    && p.access == AccessFor(acq, history)
    && (ReadSinceWrite(history) || (history != [] && history[|history| - 1] == CopySrc) ==> Filled(acq, history))
    && forall op :: ExpectedFor(op) in p.expected <==> Allowed(acq, thread, history, op)
  }

  // ----- The theorems -----

  /** How one more operation changes what a history says. */
  lemma {:induction false} Extend(acq: Acquisition, history: seq<Operation>, op: Operation)
    ensures var longer := history + [op];
            var wrote := WriteDone(longer, |history|);
            var read := ReadDone(longer, |history|);
            && (Filled(acq, longer) <==> Filled(acq, history) || wrote)
            && (ReadSinceWrite(longer) <==> read || (!wrote && ReadSinceWrite(history)))
  {
    var longer := history + [op];
    var n := |history|;
    assert forall i: nat | i < n :: longer[i] == history[i];
    assert forall i: nat | i < n :: WriteDone(longer, i) == WriteDone(history, i);
    assert forall i: nat | i < n :: ReadDone(longer, i) == ReadDone(history, i);
    if Filled(acq, history) && acq != WAIT {
      var i: nat :| i < n && WriteDone(history, i);
      assert WriteDone(longer, i);
    }
    if ReadDone(longer, n) {
      assert NoWriteAfter(longer, n);
    }
    if ReadSinceWrite(history) && !WriteDone(longer, n) {
      var i: nat :| i < n && ReadDone(history, i) && NoWriteAfter(history, i);
      assert ReadDone(longer, i) && NoWriteAfter(longer, i);
    }
    if ReadSinceWrite(longer) && !ReadDone(longer, n) {
      var i: nat :| i < |longer| && ReadDone(longer, i) && NoWriteAfter(longer, i);
      assert i < n && ReadDone(history, i);
      assert forall j: nat | i < j < n :: WriteDone(history, j) == WriteDone(longer, j);
      assert NoWriteAfter(history, i);
      assert !WriteDone(longer, n);
    }
  }

  /** An accepted step keeps the state and the history in agreement. */
  lemma DescribesStep(p: Protocol, q: Protocol, acq: Acquisition, thread: ThreadType,
                      history: seq<Operation>, op: Operation)
    requires Describes(p, acq, thread, history)
    requires Apply(p, op) == Success(q)
    ensures Describes(q, acq, thread, history + [op])
  {
    Extend(acq, history, op);
    var longer := history + [op];
    assert longer[|longer| - 1] == op;
    if history != [] {
      assert longer[|longer| - 2] == history[|history| - 1];
    }
    forall o
      ensures ExpectedFor(o) in q.expected <==> Allowed(acq, thread, longer, o)
    {
    }
  }

  /** In every run the access state and the expected operations are exactly what the
      history says, so NAR and NAW hold exactly while one copy is not yet waited for. */
  lemma {:induction false} HistoryDeterminesState(acq: Acquisition, thread: ThreadType, history: seq<Operation>)
    requires Run(acq, thread, history).Some?
    ensures Describes(Run(acq, thread, history).value, acq, thread, history)
  {
    if history != [] {
      var n := |history| - 1;
      HistoryDeterminesState(acq, thread, history[..n]);
      assert history == history[..n] + [history[n]];
      DescribesStep(Run(acq, thread, history[..n]).value, Run(acq, thread, history).value,
                    acq, thread, history[..n], history[n]);
    }
  }

  /** An operation is accepted exactly when the usage contract allows it, and a refusal says whether
      the block was pushed or popped before: the "Impossible!" branches are unreachable. */
  lemma AcceptedIffAllowed(acq: Acquisition, thread: ThreadType, history: seq<Operation>, op: Operation)
    requires Run(acq, thread, history).Some?
    ensures var r := Apply(Run(acq, thread, history).value, op);
            && (r.Success? <==> Allowed(acq, thread, history, op))
            && (r.Failure? ==> r.error == if Closed(history) then Done else NotExpected)
  {
    HistoryDeterminesState(acq, thread, history);
  }

  /** push() is accepted only after a completed write with no copy in flight; pop() only
      when the current contents were read since acquisition or the last overwrite. */
  lemma FinalOperations(acq: Acquisition, thread: ThreadType, history: seq<Operation>)
    requires Run(acq, thread, history).Some? && !Closed(history)
    ensures Apply(Run(acq, thread, history).value, Push).Success?
            <==> acq == RESERVE && !InFlight(history) && exists i: nat | i < |history| :: WriteDone(history, i)
    ensures Apply(Run(acq, thread, history).value, Pop).Success?
            <==> acq == WAIT && !InFlight(history) && ReadSinceWrite(history)
  {
    AcceptedIffAllowed(acq, thread, history, Push);
    AcceptedIffAllowed(acq, thread, history, Pop);
  }
}
