/** What a dataflow buffer is meant to be: a bounded queue of whole blocks with at most one
    block being written and at most one being read.  The operations say what `reserve`,
    `push_block`, `wait`, `pop_block` and the block operations in python/sim/dfb.py do to it,
    error cases included. */
module DataflowQueue {
  import opened Wrappers
  import opened BlockState

  datatype Writing<T> = Writing(proto: Protocol, data: seq<T>)

  datatype Queue<T> = Queue(factor: nat, blocks: seq<seq<T>>,
                            writer: Option<Writing<T>>, reader: Option<Protocol>)

  datatype QueueError = AlreadyPending | WouldBlock | NothingReserved | NothingVisible
                      | Refused(error: StateError)

  function Reserved<T>(q: Queue<T>): nat {
    if q.writer.Some? then 1 else 0
  }

  predicate CanReserve<T>(q: Queue<T>) {
    |q.blocks| + Reserved(q) < q.factor
  }

  predicate CanWait<T>(q: Queue<T>) {
    q.blocks != []
  }

  function Reserve<T>(q: Queue<T>, thread: ThreadType, zeros: seq<T>): Result<Queue<T>, QueueError> {
    if q.writer.Some? then Failure(AlreadyPending)
    else if !CanReserve(q) then Failure(WouldBlock)
    else Success(q.(writer := Some(Writing(Initial(RESERVE, thread), zeros))))
  }

  function PushBlock<T>(q: Queue<T>): Result<Queue<T>, QueueError> {
    match q.writer
    case None => Failure(NothingReserved)
    case Some(w) =>
      match Apply(w.proto, Push)
      case Failure(e) => Failure(Refused(e))
      case Success(_) => Success(q.(blocks := q.blocks + [w.data], writer := None))
  }

  function Wait<T>(q: Queue<T>, thread: ThreadType): Result<Queue<T>, QueueError> {
    if q.reader.Some? then Failure(AlreadyPending)
    else if !CanWait(q) then Failure(WouldBlock)
    else Success(q.(reader := Some(Initial(WAIT, thread))))
  }

  /** With no pending waited block this still removes the oldest visible block. */
  function PopBlock<T>(q: Queue<T>): Result<Queue<T>, QueueError> {
    match q.reader
    case None =>
      if q.blocks == [] then Failure(NothingVisible)
      else Success(q.(blocks := q.blocks[1..]))
    case Some(p) =>
      match Apply(p, Pop)
      case Failure(e) => Failure(Refused(e))
      case Success(_) =>
        if q.blocks == [] then Failure(NothingVisible)
        else Success(q.(blocks := q.blocks[1..], reader := None))
  }

  /** A copy or store operation on the block being written, with its new contents if any. */
  function TouchWriter<T>(q: Queue<T>, op: Operation, data: Option<seq<T>>): Result<Queue<T>, QueueError>
    requires op !in {Push, Pop}
  {
    match q.writer
    case None => Failure(Refused(Done))
    case Some(w) =>
      match Apply(w.proto, op)
      case Failure(e) => Failure(Refused(e))
      case Success(p) =>
        Success(q.(writer := Some(Writing(p, match data case None => w.data case Some(d) => d))))
  }

  /** The same on the block being read; a waited block may be overwritten in place. */
  function TouchReader<T>(q: Queue<T>, op: Operation, data: Option<seq<T>>): Result<Queue<T>, QueueError>
    requires op !in {Push, Pop}
  {
    match q.reader
    case None => Failure(Refused(Done))
    case Some(r) =>
      match Apply(r, op)
      case Failure(e) => Failure(Refused(e))
      case Success(p) =>
        if data.None? || q.blocks == [] then Success(q.(reader := Some(p)))
        else Success(q.(reader := Some(p), blocks := [data.value] + q.blocks[1..]))
  }

  function Empty<T>(factor: nat): Queue<T> {
    Queue(factor, [], None, None)
  }

  // ----- Whole runs -----

  datatype Event<T> =
    | DoReserve(thread: ThreadType, zeros: seq<T>)
    | DoPush
    | DoWait(reading: ThreadType)
    | DoPop
    | DoWrite(op: Operation, data: Option<seq<T>>)
    | DoRead(rop: Operation, rdata: Option<seq<T>>)

  function Outcome<T>(q: Queue<T>, e: Event<T>): Result<Queue<T>, QueueError> {
    match e
    case DoReserve(thread, zeros) => Reserve(q, thread, zeros)
    case DoPush => PushBlock(q)
    case DoWait(thread) => Wait(q, thread)
    case DoPop => PopBlock(q)
    case DoWrite(op, data) => if op in {Push, Pop} then Failure(Refused(NotExpected)) else TouchWriter(q, op, data)
    case DoRead(op, data) => if op in {Push, Pop} then Failure(Refused(NotExpected)) else TouchReader(q, op, data)
  }

  /** The queue with its logs: the contents of every block at the moment it was pushed, the
      contents of every block at the moment it was waited for, and the number of pops. */
  datatype Log<T> = Log(q: Queue<T>, pushed: seq<seq<T>>, waited: seq<seq<T>>, pops: nat)

  /** A refused event changes nothing. */
  function Step<T>(l: Log<T>, e: Event<T>): Log<T> {
    match Outcome(l.q, e)
    case Failure(_) => l
    case Success(q) =>
      match e
      case DoPush => Log(q, l.pushed + [q.blocks[|q.blocks| - 1]], l.waited, l.pops)
      case DoWait(_) => Log(q, l.pushed, l.waited + [q.blocks[0]], l.pops)
      case DoPop => Log(q, l.pushed, l.waited, l.pops + 1)
      case _ => l.(q := q)
  }

  function RunEvents<T>(l: Log<T>, events: seq<Event<T>>): Log<T> {
    if events == [] then l
    else Step(RunEvents(l, events[..|events| - 1]), events[|events| - 1])
  }

  /** The event is a pop that removes a block that no one is reading. */
  predicate StealsAt<T>(l: Log<T>, e: Event<T>) {
    e.DoPop? && l.q.reader.None? && l.q.blocks != []
  }

  /** How many pops in the run did that. */
  function Steals<T>(l: Log<T>, events: seq<Event<T>>): nat {
    if events == [] then 0
    else
      var n := |events| - 1;
      Steals(l, events[..n]) + (if StealsAt(RunEvents(l, events[..n]), events[n]) then 1 else 0)
  }

  ghost predicate FifoInv<T>(l: Log<T>) {
    && |l.q.blocks| + Reserved(l.q) <= l.q.factor
    && |l.pushed| == l.pops + |l.q.blocks|
    && (l.q.reader.Some? ==> l.q.blocks != [])
    && (forall i: nat | i < |l.q.blocks| && (i > 0 || l.q.reader.None?) :: l.q.blocks[i] == l.pushed[l.pops + i])
  }

  lemma FifoStep<T>(l: Log<T>, e: Event<T>)
    requires FifoInv(l)
    ensures FifoInv(Step(l, e))
  {
    match e
    case DoReserve(_, _) =>
    case DoPush =>
    case DoWait(_) =>
    case DoPop =>
    case DoWrite(_, _) =>
    case DoRead(_, _) =>
  }

  lemma {:induction false} FifoHolds<T>(factor: nat, events: seq<Event<T>>)
    ensures FifoInv(RunEvents(Log(Empty(factor), [], [], 0), events))
  {
    if events != [] {
      var init := events[..|events| - 1];
      FifoHolds(factor, init);
      FifoStep(RunEvents(Log(Empty(factor), [], [], 0), init), events[|events| - 1]);
    }
  }

  /** In any run, a wait that succeeds hands over exactly what was pushed longest ago among
      the blocks not yet popped, and never more than `factor` blocks are held. */
  lemma WaitYieldsOldestUnpopped<T>(factor: nat, events: seq<Event<T>>, thread: ThreadType)
    ensures var l := RunEvents(Log(Empty(factor), [], [], 0), events);
            var after := Step(l, DoWait(thread));
            && |l.q.blocks| + Reserved(l.q) <= factor
            && (Wait(l.q, thread).Success? ==>
                  l.pops < |l.pushed| && after.waited == l.waited + [l.pushed[l.pops]])
            && (Wait(l.q, thread) == Failure(WouldBlock) <==> l.q.reader.None? && l.pops == |l.pushed|)
  {
    FifoHolds(factor, events);
    FactorIsFixed(Log(Empty(factor), [], [], 0), events);
  }

  lemma {:induction false} FactorIsFixed<T>(l: Log<T>, events: seq<Event<T>>)
    ensures RunEvents(l, events).q.factor == l.q.factor
  {
    if events != [] {
      FactorIsFixed(l, events[..|events| - 1]);
    }
  }

  lemma {:induction false} StealsCount<T>(factor: nat, events: seq<Event<T>>)
    ensures var start: Log<T> := Log(Empty(factor), [], [], 0);
            var l := RunEvents(start, events);
            |l.waited| + Steals(start, events) == l.pops + (if l.q.reader.Some? then 1 else 0)
  {
    if events != [] {
      StealsCount(factor, events[..|events| - 1]);
    }
  }

  predicate SeesAt<T>(l: Log<T>, e: Event<T>) {
    e.DoWait? && Outcome(l.q, e).Success?
  }

  /** The number of pops before each successful wait. */
  function SeenAt<T>(start: Log<T>, events: seq<Event<T>>): seq<nat> {
    if events == [] then []
    else
      var n := |events| - 1;
      var l := RunEvents(start, events[..n]);
      SeenAt(start, events[..n]) + if SeesAt(l, events[n]) then [l.pops] else []
  }

  /** Some successful wait comes after a stealing pop. */
  predicate StealThenWait<T>(start: Log<T>, events: seq<Event<T>>) {
    events != [] &&
    var n := |events| - 1;
    || StealThenWait(start, events[..n])
    || (SeesAt(RunEvents(start, events[..n]), events[n]) && Steals(start, events[..n]) > 0)
  }

  ghost predicate SeenInv<T>(l: Log<T>, seen: seq<nat>) {
    && |seen| == |l.waited|
    && (forall j: nat | j < |seen| ::
          && seen[j] < |l.pushed| && l.waited[j] == l.pushed[seen[j]]
          && seen[j] < l.pops + (if l.q.reader.Some? then 1 else 0))
    && (forall i: nat, j: nat | i < j < |seen| :: seen[i] < seen[j])
  }

  lemma SeenStep<T>(l: Log<T>, e: Event<T>, seen: seq<nat>)
    requires FifoInv(l) && SeenInv(l, seen)
    ensures SeenInv(Step(l, e), seen + if SeesAt(l, e) then [l.pops] else [])
  {
    match e
    case DoReserve(_, _) =>
    case DoPush =>
    case DoWait(_) =>
      assert l.q.reader.None? && l.q.blocks != [] ==> l.q.blocks[0] == l.pushed[l.pops + 0];
    case DoPop =>
    case DoWrite(_, _) =>
    case DoRead(_, _) =>
  }

  /** In every run the j-th successful wait sees the push whose number is the count of pops before
      it, whatever was overwritten in the blocks held; these numbers increase. */
  lemma {:induction false} SeenArePushes<T>(factor: nat, events: seq<Event<T>>)
    ensures var start: Log<T> := Log(Empty(factor), [], [], 0);
            SeenInv(RunEvents(start, events), SeenAt(start, events))
  {
    if events != [] {
      var start: Log<T> := Log(Empty(factor), [], [], 0);
      var init := events[..|events| - 1];
      SeenArePushes(factor, init);
      FifoHolds(factor, init);
      SeenStep(RunEvents(start, init), events[|events| - 1], SeenAt(start, init));
    }
  }

  predicate Counts(seen: seq<nat>) {
    forall j: nat | j < |seen| :: seen[j] == j
  }

  lemma CountsOneMore(seen: seq<nat>, next: nat)
    ensures Counts(seen + [next]) <==> Counts(seen) && next == |seen|
  {
    assert (seen + [next])[|seen|] == next;
    assert forall j: nat | j < |seen| :: (seen + [next])[j] == seen[j];
  }

  /** The waits see the pushes 0, 1, 2, ..., none of them lost, if and only if no successful wait
      comes after a stealing pop. */
  lemma {:induction false} SeenInOrderIff<T>(factor: nat, events: seq<Event<T>>)
    ensures var start: Log<T> := Log(Empty(factor), [], [], 0);
            && (Counts(SeenAt(start, events)) <==> !StealThenWait(start, events))
            && (Steals(start, events) == 0 ==> !StealThenWait(start, events))
  {
    if events != [] {
      var start: Log<T> := Log(Empty(factor), [], [], 0);
      var n := |events| - 1;
      var l := RunEvents(start, events[..n]);
      SeenInOrderIff(factor, events[..n]);
      SeenBefore(factor, events[..n]);
      var seen := SeenAt(start, events[..n]);
      CountsOneMore(seen, l.pops);
      assert SeenAt(start, events) == if SeesAt(l, events[n]) then seen + [l.pops] else seen;
    }
  }

  lemma SeenBefore<T>(factor: nat, events: seq<Event<T>>)
    ensures var start: Log<T> := Log(Empty(factor), [], [], 0);
            var l := RunEvents(start, events);
            l.q.reader.None? ==> l.pops == |SeenAt(start, events)| + Steals(start, events)
  {
    SeenArePushes(factor, events);
    StealsCount(factor, events);
  }

  /** So what the consumer has seen is a prefix of what was pushed unless it waits after a stealing
      pop. */
  lemma SeenIsPrefixOfPushed<T>(factor: nat, events: seq<Event<T>>)
    ensures var start: Log<T> := Log(Empty(factor), [], [], 0);
            var l := RunEvents(start, events);
            !StealThenWait(start, events) ==> l.waited <= l.pushed
  {
    var start: Log<T> := Log(Empty(factor), [], [], 0);
    var l, seen := RunEvents(start, events), SeenAt(start, events);
    SeenArePushes(factor, events);
    SeenInOrderIff(factor, events);
    if Counts(seen) {
      assert seen != [] ==> seen[|seen| - 1] == |seen| - 1;
      forall j: nat | j < |l.waited|
        ensures j < |l.pushed| && l.waited[j] == l.pushed[j]
      {
        assert seen[j] == j;
      }
    }
  }

  function StoreAndPush<T>(a: seq<T>, zeros: seq<T>): seq<Event<T>> {
    [DoReserve(COMPUTE, zeros), DoWrite(StoreDst, Some(a)), DoPush]
  }

  /** One stealing pop is enough to lose a block: here the second push is seen first. */
  lemma StealingPopLosesABlock<T>(a: seq<T>, b: seq<T>, zeros: seq<T>)
    requires a != b
    ensures var l := RunEvents(Log(Empty(2), [], [], 0),
                               StoreAndPush(a, zeros) + StoreAndPush(b, zeros) + [DoPop] + [DoWait(COMPUTE)]);
            l.pushed == [a, b] && l.waited == [b] && !(l.waited <= l.pushed)
  {
    var fill := StoreAndPush(a, zeros) + StoreAndPush(b, zeros);
    TwoPushes(a, b, zeros);
    var full := Log(Queue(2, [a, b], None, None), [a, b], [], 0);
    var popped := Log(Queue(2, [b], None, None), [a, b], [], 1);
    assert [a, b][1..] == [b];
    assert Step(full, DoPop) == popped;
    RunSnoc(Log(Empty(2), [], [], 0), fill, DoPop);
    RunSnoc(Log(Empty(2), [], [], 0), fill + [DoPop], DoWait(COMPUTE));
  }

  lemma TwoPushes<T>(a: seq<T>, b: seq<T>, zeros: seq<T>)
    ensures RunEvents(Log(Empty(2), [], [], 0), StoreAndPush(a, zeros) + StoreAndPush(b, zeros))
         == Log(Queue(2, [a, b], None, None), [a, b], [], 0)
  {
    var l0: Log<T> := Log(Empty(2), [], [], 0);
    OnePush(l0, a, zeros);
    assert [] + [a] == [a] && [a] + [b] == [a, b];
    OnePush(Log(Queue(2, [a], None, None), [a], [], 0), b, zeros);
    RunAppend(l0, StoreAndPush(a, zeros), StoreAndPush(b, zeros));
  }

  /** Filling and pushing one block from an idle buffer with room. */
  lemma OnePush<T>(l: Log<T>, a: seq<T>, zeros: seq<T>)
    requires l.q.writer.None? && CanReserve(l.q)
    ensures RunEvents(l, StoreAndPush(a, zeros))
         == l.(q := l.q.(blocks := l.q.blocks + [a]), pushed := l.pushed + [a])
  {
    var q := l.q;
    var p := Protocol(RESERVE, COMPUTE, MR, {STORE_SRC, PUSH});
    var l1 := l.(q := q.(writer := Some(Writing(Initial(RESERVE, COMPUTE), zeros))));
    var l2 := l.(q := q.(writer := Some(Writing(p, a))));
    assert Step(l, DoReserve(COMPUTE, zeros)) == l1;
    assert Step(l1, DoWrite(StoreDst, Some(a))) == l2;
    assert Step(l2, DoPush) == l.(q := q.(blocks := q.blocks + [a]), pushed := l.pushed + [a]) by {
      assert (q.blocks + [a])[|q.blocks|] == a;
    }
    RunThree(l, DoReserve(COMPUTE, zeros), DoWrite(StoreDst, Some(a)), DoPush);
  }

  lemma RunThree<T>(l: Log<T>, e0: Event<T>, e1: Event<T>, e2: Event<T>)
    ensures RunEvents(l, [e0, e1, e2]) == Step(Step(Step(l, e0), e1), e2)
  {
    RunSnoc(l, [], e0);
    RunSnoc(l, [e0], e1);
    RunSnoc(l, [e0, e1], e2);
    assert [] + [e0] == [e0] && [e0] + [e1] == [e0, e1] && [e0, e1] + [e2] == [e0, e1, e2];
  }

  lemma RunSnoc<T>(l: Log<T>, events: seq<Event<T>>, e: Event<T>)
    ensures RunEvents(l, events + [e]) == Step(RunEvents(l, events), e)
  {
    assert (events + [e])[..|events|] == events;
  }

  lemma {:induction false} RunAppend<T>(l: Log<T>, first: seq<Event<T>>, second: seq<Event<T>>)
    ensures RunEvents(l, first + second) == RunEvents(RunEvents(l, first), second)
  {
    if second == [] {
      assert first + second == first;
    } else {
      var n := |second| - 1;
      RunAppend(l, first, second[..n]);
      assert first + second == (first + second[..n]) + [second[n]];
      RunSnoc(l, first + second[..n], second[n]);
    }
  }
}
