/** The queue behind a pipe (python/sim/copyhandlers.py).  A message goes to several cores; each
    queue entry counts the receivers still missing and remembers those served. */
module PipeMulticast {
  import opened Wrappers
  import opened Finite

  datatype Message<T> = Message(data: seq<T>, remaining: int, id: nat, receivers: set<nat>)

  /** `signaled` is the entry's event. */
  datatype Pipe<T> = Pipe(queue: seq<Message<T>>, nextId: nat, signaled: bool)

  datatype PipeError = Timeout | LengthMismatch

  /** Index of the first message the core has not received, or the queue's length. */
  function FirstFor<T>(queue: seq<Message<T>>, core: nat): (i: nat)
    ensures i <= |queue|
    ensures forall j: nat | j < i :: core in queue[j].receivers
    ensures i < |queue| ==> core !in queue[i].receivers
  {
    if queue == [] || core !in queue[0].receivers then 0 else 1 + FirstFor(queue[1..], core)
  }

  function Send<T>(p: Pipe<T>, data: seq<T>, receivers: nat): Pipe<T> {
    Pipe(p.queue + [Message(data, receivers, p.nextId, {})], p.nextId + 1, true)
  }

  /** The receiver is recorded before the length is compared.  With nothing to receive the event
      is cleared and the wait for it times out. */
  function Receive<T>(p: Pipe<T>, core: nat, length: nat): (Pipe<T>, Result<seq<T>, PipeError>) {
    if !p.signaled then (p, Failure(Timeout))
    else
      var i := FirstFor(p.queue, core);
      if i == |p.queue| then (p.(signaled := false), Failure(Timeout))
      else
        var m := p.queue[i];
        var marked := m.(receivers := m.receivers + {core});
        if length != |m.data| then (p.(queue := p.queue[i := marked]), Failure(LengthMismatch))
        else if m.remaining - 1 == 0 then
          var rest := p.queue[..i] + p.queue[i + 1..];
          (p.(queue := rest, signaled := p.signaled && rest != []), Success(m.data))
        else
          (p.(queue := p.queue[i := marked.(remaining := m.remaining - 1)]), Success(m.data))
  }

  predicate CanWait<T>(p: Pipe<T>) {
    p.queue != []
  }

  /** `_PipeEntry` with the two handlers' transfers. */
  class PipeEntry<T> {
    var queue: seq<Message<T>>
    var nextId: nat
    var signaled: bool

    function Abs(): Pipe<T>
      reads this
    {
      Pipe(queue, nextId, signaled)
    }

    constructor ()
      ensures Abs() == Pipe([], 0, false)
    {
      queue, nextId, signaled := [], 0, false;
    }

    /** BlockToPipeHandler.transfer. */
    method SendBlock(data: seq<T>, receivers: nat)
      modifies this
      ensures Abs() == Send(old(Abs()), data, receivers)
    {
      var id := nextId;
      nextId := nextId + 1;
      queue := queue + [Message(data, receivers, id, {})];
      signaled := true;
    }

    /** PipeToBlockHandler.transfer. */
    method ReceiveBlock(core: nat, length: nat) returns (r: Result<seq<T>, PipeError>)
      modifies this
      ensures (Abs(), r) == Receive(old(Abs()), core, length)
    {
      if !signaled {
        return Failure(Timeout);
      }
      var i := 0;
      while i < |queue| && core in queue[i].receivers
        invariant 0 <= i <= |queue|
        invariant FirstFor(queue, core) == i + FirstFor(queue[i..], core)
      {
        i := i + 1;
      }
      if i == |queue| {
        signaled := false;
        return Failure(Timeout);
      }
      ghost var was := queue;
      var m := queue[i];
      queue := queue[i := m.(receivers := m.receivers + {core})];
      if length != |m.data| {
        return Failure(LengthMismatch);
      }
      var remaining := m.remaining - 1;
      if remaining == 0 {
        queue := queue[..i] + queue[i + 1..];
        assert queue == was[..i] + was[i + 1..];
        if queue == [] {
          signaled := false;
        }
      } else {
        queue := queue[i := Message(m.data, remaining, m.id, m.receivers + {core})];
        assert queue == was[i := Message(m.data, remaining, m.id, m.receivers + {core})];
      }
      return Success(m.data);
    }
  }

  // ----- Whole runs -----

  datatype Event<T> = DoSend(data: seq<T>) | DoReceive(core: nat, length: nat)

  /** A pipe with what was sent, and what each core got. */
  datatype Log<T> = Log(pipe: Pipe<T>, sent: seq<seq<T>>, got: map<nat, seq<seq<T>>>)

  function Start<T>(dest: set<nat>): Log<T> {
    Log(Pipe([], 0, false), [], map c: nat | c in dest :: [])
  }

  function Step<T>(dest: set<nat>, l: Log<T>, e: Event<T>): Log<T> {
    match e
    case DoSend(data) => Log(Send(l.pipe, data, |dest|), l.sent + [data], l.got)
    case DoReceive(core, length) =>
      var (p, r) := Receive(l.pipe, core, length);
      if r.Success? && core in l.got then Log(p, l.sent, l.got[core := l.got[core] + [r.value]])
      else l.(pipe := p)
  }

  /** The event's receive, if it is one, is by a destination core and does not meet a message of
      another length. */
  predicate Proper<T>(dest: set<nat>, l: Log<T>, e: Event<T>) {
    e.DoReceive? ==> e.core in dest && Receive(l.pipe, e.core, e.length).1 != Failure(LengthMismatch)
  }

  function RunEvents<T>(dest: set<nat>, l: Log<T>, events: seq<Event<T>>): Log<T> {
    if events == [] then l
    else Step(dest, RunEvents(dest, l, events[..|events| - 1]), events[|events| - 1])
  }

  predicate AllProper<T>(dest: set<nat>, l: Log<T>, events: seq<Event<T>>) {
    events == [] ||
    var n := |events| - 1;
    AllProper(dest, l, events[..n]) && Proper(dest, RunEvents(dest, l, events[..n]), events[n])
  }

  /** The destinations that have got message number n. */
  ghost function Served<T>(dest: set<nat>, l: Log<T>, n: nat): set<nat> {
    set c: nat | c in dest && c in l.got && |l.got[c]| > n
  }

  function Base<T>(l: Log<T>): int {
    |l.sent| - |l.pipe.queue|
  }

  /** Every destination has a prefix of what was sent; the queue holds exactly the messages that
      some destination still misses, each with the destinations that have it. */
  ghost predicate Delivering<T>(dest: set<nat>, l: Log<T>) {
    && 0 <= Base(l) && l.pipe.nextId == |l.sent|
    && (forall c: nat | c in dest :: c in l.got && l.got[c] <= l.sent && Base(l) <= |l.got[c]|)
    && (forall i: nat | i < |l.pipe.queue| :: EntryOk(dest, l, i))
  }

  ghost predicate EntryOk<T>(dest: set<nat>, l: Log<T>, i: nat)
    requires i < |l.pipe.queue| <= |l.sent|
  {
    var m := l.pipe.queue[i];
    && m.data == l.sent[Base(l) + i] && m.id == Base(l) + i
    && m.receivers == Served(dest, l, Base(l) + i)
    && m.remaining == |dest| - |m.receivers| && m.remaining > 0
  }

  lemma SendKeeps<T>(dest: set<nat>, l: Log<T>, data: seq<T>)
    requires Delivering(dest, l) && dest != {}
    ensures Delivering(dest, Step(dest, l, DoSend(data)))
  {
    var m := Step(dest, l, DoSend(data));
    assert Base(m) == Base(l);
    forall i: nat | i < |m.pipe.queue|
      ensures EntryOk(dest, m, i)
    {
      if i < |l.pipe.queue| {
        assert EntryOk(dest, l, i);
        assert Served(dest, m, Base(l) + i) == Served(dest, l, Base(l) + i);
      } else {
        assert Served(dest, m, |l.sent|) == {};
      }
    }
  }

  /** In a delivering state the first message a core has not received is the next of the send
      log. */
  lemma NextMessage<T>(dest: set<nat>, l: Log<T>, core: nat)
    requires Delivering(dest, l) && core in dest
    ensures FirstFor(l.pipe.queue, core) == |l.got[core]| - Base(l)
  {
    var i, k := FirstFor(l.pipe.queue, core), |l.got[core]| - Base(l);
    if i < |l.pipe.queue| {
      assert EntryOk(dest, l, i);
    }
    if k < |l.pipe.queue| {
      assert EntryOk(dest, l, k);
    }
  }

  /** Receiver sets shrink along the queue. */
  lemma ReceiversNested<T>(dest: set<nat>, l: Log<T>, i: nat, j: nat)
    requires Delivering(dest, l) && i <= j < |l.pipe.queue|
    ensures l.pipe.queue[j].receivers <= l.pipe.queue[i].receivers
  {
    assert EntryOk(dest, l, i) && EntryOk(dest, l, j);
  }

  /** A core's next message changes who has been served with that message only. */
  lemma OthersServed<T>(dest: set<nat>, l: Log<T>, core: nat, data: seq<T>)
    requires core in dest && core in l.got
    ensures var l' := l.(got := l.got[core := l.got[core] + [data]]);
            && (forall n: nat | n != |l.got[core]| :: Served(dest, l', n) == Served(dest, l, n))
            && Served(dest, l', |l.got[core]|) == Served(dest, l, |l.got[core]|) + {core}
  {
  }

  /** The entry of the message that `core` takes next: the last destination to take a message
      always takes it from the front. */
  lemma TakenEntry<T>(dest: set<nat>, l: Log<T>, core: nat)
    requires Delivering(dest, l) && core in dest && |l.got[core]| < |l.sent|
    ensures var i := |l.got[core]| - Base(l);
            var m := l.pipe.queue[i];
            && m.data == l.sent[|l.got[core]|] && core !in m.receivers
            && |m.receivers + {core}| == |m.receivers| + 1
            && (m.remaining == 1 <==> m.receivers + {core} == dest)
            && (m.remaining == 1 ==> i == 0)
  {
    var i := |l.got[core]| - Base(l);
    assert EntryOk(dest, l, i);
    var m := l.pipe.queue[i];
    SubsetSize(m.receivers + {core}, dest);
    if i > 0 {
      assert EntryOk(dest, l, 0);
      ReceiversNested(dest, l, 0, i);
      var first := l.pipe.queue[0].receivers;
      assert core in first && first <= dest;
      assert m.receivers + {core} <= first;
      SubsetSize(m.receivers + {core}, first);
    }
  }

  lemma ReceiveKeeps<T>(dest: set<nat>, l: Log<T>, core: nat, length: nat)
    requires Delivering(dest, l) && Proper(dest, l, DoReceive(core, length))
    ensures Delivering(dest, Step(dest, l, DoReceive(core, length)))
  {
    NextMessage(dest, l, core);
    var after := Step(dest, l, DoReceive(core, length));
    if Receive(l.pipe, core, length).1.Success? {
      TakenEntry(dest, l, core);
      var i := |l.got[core]| - Base(l);
      if l.pipe.queue[i].remaining == 1 {
        assert after.pipe.queue == l.pipe.queue[1..];
        FrontDone(dest, l, after, core);
      } else {
        NotYetDone(dest, l, after, core);
      }
    } else {
      forall j: nat | j < |after.pipe.queue|
        ensures EntryOk(dest, after, j)
      {
        assert EntryOk(dest, l, j);
        assert Served(dest, after, Base(l) + j) == Served(dest, l, Base(l) + j);
      }
    }
  }

  /** The case where the message is still owed to someone. */
  lemma NotYetDone<T>(dest: set<nat>, l: Log<T>, after: Log<T>, core: nat)
    requires Delivering(dest, l) && core in dest && |l.got[core]| < |l.sent|
    requires var i := |l.got[core]| - Base(l);
             var m := l.pipe.queue[i];
             m.remaining != 1 && after.pipe.queue ==
               l.pipe.queue[i := Message(m.data, m.remaining - 1, m.id, m.receivers + {core})]
    requires after.sent == l.sent && after.pipe.nextId == l.pipe.nextId
    requires after.got == l.got[core := l.got[core] + [l.sent[|l.got[core]|]]]
    ensures Delivering(dest, after)
  {
    var i := |l.got[core]| - Base(l);
    assert after.sent == l.sent && Base(after) == Base(l);
    forall j: nat | j < |after.pipe.queue|
      ensures EntryOk(dest, after, j)
    {
      assert EntryOk(dest, l, j);
      OthersServed(dest, l, core, l.sent[|l.got[core]|]);
      assert Served(dest, after, Base(l) + j) == Served(dest, l.(got := after.got), Base(l) + j);
      if j == i {
        TakenEntry(dest, l, core);
      }
    }
  }

  /** The case where the front message has reached its last destination. */
  lemma FrontDone<T>(dest: set<nat>, l: Log<T>, after: Log<T>, core: nat)
    requires Delivering(dest, l) && core in dest && Base(l) == |l.got[core]| < |l.sent|
    requires l.pipe.queue[0].remaining == 1
    requires after.sent == l.sent && after.pipe.queue == l.pipe.queue[1..] && after.pipe.nextId == l.pipe.nextId
    requires after.got == l.got[core := l.got[core] + [l.sent[|l.got[core]|]]]
    ensures Delivering(dest, after)
  {
    TakenEntry(dest, l, core);
    OthersServed(dest, l, core, l.sent[|l.got[core]|]);
    var l' := l.(got := after.got);
    var base := Base(l);
    assert EntryOk(dest, l, 0);
    forall c: nat | c in dest
      ensures c in after.got && after.got[c] <= l.sent && base + 1 <= |after.got[c]|
    {
      assert c in Served(dest, l', base);
    }
    forall j: nat | j < |after.pipe.queue|
      ensures EntryOk(dest, after, j)
    {
      assert EntryOk(dest, l, j + 1);
      assert Served(dest, after, base + 1 + j) == Served(dest, l', base + (j + 1));
    }
  }

  /** In every run whose receives are by destination cores and of matching length: each core's
      received log is a prefix of the send log, so delivery is in order and at most once; the
      queue holds exactly the messages not yet delivered everywhere. */
  lemma {:induction false} MulticastDelivers<T>(dest: set<nat>, events: seq<Event<T>>)
    requires dest != {} && AllProper(dest, Start(dest), events)
    ensures Delivering(dest, RunEvents(dest, Start(dest), events))
    decreases |events|
  {
    if events != [] {
      var n := |events| - 1;
      MulticastDelivers(dest, events[..n]);
      var k := RunEvents(dest, Start(dest), events[..n]);
      match events[n]
      case DoSend(data) => SendKeeps(dest, k, data);
      case DoReceive(core, length) => ReceiveKeeps(dest, k, core, length);
    }
  }

  /** A message is gone from the queue exactly when every destination has it. */
  lemma GoneIffServed<T>(dest: set<nat>, l: Log<T>, n: nat)
    requires Delivering(dest, l) && n < |l.sent|
    ensures n < Base(l) <==> Served(dest, l, n) == dest
  {
    if n >= Base(l) {
      assert EntryOk(dest, l, n - Base(l));
    } else {
      assert forall c: nat | c in dest :: c in Served(dest, l, n);
    }
  }

  /** Some destination has not got everything that was sent. */
  ghost predicate Outstanding<T>(dest: set<nat>, l: Log<T>) {
    exists c: nat :: c in dest && c in l.got && |l.got[c]| < |l.sent|
  }

  lemma OutstandingIffQueued<T>(dest: set<nat>, l: Log<T>)
    requires Delivering(dest, l) && dest != {}
    ensures Outstanding(dest, l) <==> l.pipe.queue != []
  {
    if l.pipe.queue != [] {
      assert EntryOk(dest, l, 0);
      var base: nat := Base(l);
      GoneIffServed(dest, l, base);
      var served := Served(dest, l, base);
      assert (forall c: nat | c in dest :: |l.got[c]| == |l.sent|) ==> served == dest;
    }
  }

  /** A receive of the right length by a destination core succeeds, with the next message that
      the core is owed, if and only if it is owed one and the event is set. */
  lemma ReceiveSucceedsIffOwed<T>(dest: set<nat>, l: Log<T>, core: nat, length: nat)
    requires Delivering(dest, l) && core in dest
    requires |l.got[core]| < |l.sent| ==> length == |l.sent[|l.got[core]|]|
    ensures Receive(l.pipe, core, length).1
            == if |l.got[core]| < |l.sent| && l.pipe.signaled then Success(l.sent[|l.got[core]|])
               else Failure(Timeout)
  {
    NextMessage(dest, l, core);
    var i := |l.got[core]| - Base(l);
    if i < |l.pipe.queue| {
      assert EntryOk(dest, l, i);
    }
  }

  /** Since the last send a core has received that was owed nothing. */
  predicate IdleSinceSend<T>(dest: set<nat>, events: seq<Event<T>>) {
    events != [] &&
    var n := |events| - 1;
    match events[n]
    case DoSend(_) => false
    case DoReceive(core, _) =>
      var l := RunEvents(dest, Start(dest), events[..n]);
      IdleSinceSend(dest, events[..n]) || (core in l.got && |l.got[core]| == |l.sent|)
  }

  /** When the event is set, in every run. */
  lemma {:induction false} SignaledIff<T>(dest: set<nat>, events: seq<Event<T>>)
    requires dest != {} && AllProper(dest, Start(dest), events)
    ensures var p := RunEvents(dest, Start(dest), events).pipe;
            p.signaled <==> p.queue != [] && !IdleSinceSend(dest, events)
    decreases |events|
  {
    if events != [] {
      var n := |events| - 1;
      SignaledIff(dest, events[..n]);
      MulticastDelivers(dest, events[..n]);
      var l := RunEvents(dest, Start(dest), events[..n]);
      match events[n]
      case DoSend(data) =>
      case DoReceive(core, length) => NextMessage(dest, l, core);
    }
  }

  /** In every run: a receive succeeds if and only if its core is owed a message and none that
      was owed nothing has received since the last send; and `can_wait` admits it to a timeout if
      and only if something is outstanding and one of the two fails. */
  lemma ReceiveInRun<T>(dest: set<nat>, events: seq<Event<T>>, core: nat, length: nat)
    requires AllProper(dest, Start(dest), events) && core in dest
    requires var l := RunEvents(dest, Start(dest), events);
             core in l.got && |l.got[core]| < |l.sent| ==> length == |l.sent[|l.got[core]|]|
    ensures var l := RunEvents(dest, Start(dest), events);
            var r := Receive(l.pipe, core, length).1;
            && core in l.got
            && (r.Success? <==> |l.got[core]| < |l.sent| && !IdleSinceSend(dest, events))
            && (r.Success? ==> r.value == l.sent[|l.got[core]|])
            && (CanWait(l.pipe) && r.Failure? <==>
                  Outstanding(dest, l) && (|l.got[core]| == |l.sent| || IdleSinceSend(dest, events)))
  {
    MulticastDelivers(dest, events);
    SignaledIff(dest, events);
    var l := RunEvents(dest, Start(dest), events);
    ReceiveSucceedsIffOwed(dest, l, core, length);
    OutstandingIffQueued(dest, l);
    assert |l.got[core]| < |l.sent| ==> Outstanding(dest, l);
  }

  /** One message for cores 0 and 1, which core 0 receives and then asks for another. */
  function IdleRun(): seq<Event<int>> {
    [DoSend([7]), DoReceive(0, 1), DoReceive(0, 1)]
  }

  /** The second receive of core 0 clears the event, so that core 1 times out on the message that
      it is owed, although `can_wait` lets it through. */
  lemma IdleReceiveStarves()
    ensures AllProper({0, 1}, Start({0, 1}), IdleRun())
    ensures var l := RunEvents({0, 1}, Start({0, 1}), IdleRun());
            && Delivering({0, 1}, l) && CanWait(l.pipe)
            && l.got[1] == [] && l.sent == [[7]]
            && Receive(l.pipe, 1, 1).1 == Failure(Timeout)
  {
    var dest: set<nat> := {0, 1};
    var events := IdleRun();
    var start: Log<int> := Start(dest);
    assert events[..1] == [DoSend([7])] && events[..2] == [DoSend([7]), DoReceive(0, 1)];
    assert events[..1][..0] == [] && events[..2][..1] == events[..1];
    assert RunEvents(dest, start, []) == start && AllProper(dest, start, []);
    var sent := Step(dest, start, DoSend([7]));
    assert sent.pipe.queue == [Message([7], 2, 0, {})];
    assert RunEvents(dest, start, events[..1]) == sent && AllProper(dest, start, events[..1]);
    var first := Step(dest, sent, DoReceive(0, 1));
    assert first.pipe.queue == [Message([7], 1, 0, {0})];
    assert RunEvents(dest, start, events[..2]) == first && AllProper(dest, start, events[..2]);
    assert FirstFor(first.pipe.queue, 0) == 1;
    MulticastDelivers(dest, events);
  }

  // ----- Length mismatches -----

  /** A message counts more receivers still to come than there are cores left to receive it. */
  ghost predicate IsStranded<T>(cores: set<nat>, m: Message<T>) {
    m.remaining > |cores - m.receivers|
  }

  ghost predicate Strands<T>(cores: set<nat>, p: Pipe<T>, id: nat) {
    exists i :: 0 <= i < |p.queue| && p.queue[i].id == id && IsStranded(cores, p.queue[i])
  }

  lemma OneReceiverLess(cores: set<nat>, receivers: set<nat>, core: nat)
    ensures |cores - (receivers + {core})| <= |cores - receivers|
    ensures core in cores && core !in receivers ==> |cores - (receivers + {core})| == |cores - receivers| - 1
  {
    SubsetSize(cores - (receivers + {core}), cores - receivers);
    if core in cores && core !in receivers {
      assert cores - receivers == (cores - (receivers + {core})) + {core};
    }
  }

  /** A core that receives with the wrong length is recorded but not counted, which strands the
      message among its destinations. */
  lemma MismatchStrands<T>(dest: set<nat>, l: Log<T>, core: nat, length: nat)
    requires Delivering(dest, l) && core in dest
    requires Receive(l.pipe, core, length).1 == Failure(LengthMismatch)
    ensures Strands(dest, Receive(l.pipe, core, length).0, |l.got[core]|)
  {
    NextMessage(dest, l, core);
    var i := |l.got[core]| - Base(l);
    assert EntryOk(dest, l, i);
    var m := l.pipe.queue[i];
    OneReceiverLess(dest, m.receivers, core);
    assert dest == (dest - m.receivers) + m.receivers;
    var after := Receive(l.pipe, core, length).0;
    assert IsStranded(dest, after.queue[i]) && after.queue[i].id == |l.got[core]|;
  }

  lemma StrandedStays<T>(cores: set<nat>, p: Pipe<T>, id: nat, core: nat, length: nat)
    requires Strands(cores, p, id) && core in cores
    ensures Strands(cores, Receive(p, core, length).0, id)
  {
    var i :| 0 <= i < |p.queue| && p.queue[i].id == id && IsStranded(cores, p.queue[i]);
    var k := StrandedMessageStays(cores, p, i, core, length);
    assert Receive(p, core, length).0.queue[k].id == id;
  }

  lemma StrandedMessageStays<T>(cores: set<nat>, p: Pipe<T>, i: nat, core: nat, length: nat) returns (k: nat)
    requires i < |p.queue| && IsStranded(cores, p.queue[i]) && core in cores
    ensures var after := Receive(p, core, length).0;
            k < |after.queue| && after.queue[k].id == p.queue[i].id && IsStranded(cores, after.queue[k])
  {
    var j, after := FirstFor(p.queue, core), Receive(p, core, length).0;
    if j == i {
      OneReceiverLess(cores, p.queue[i].receivers, core);
    }
    k := if |after.queue| < |p.queue| && j < i then i - 1 else i;
  }

  /** A stranded message stays in the queue for ever, whatever is sent, and received by those
      cores, afterwards. */
  lemma {:induction false} StrandedForever<T>(dest: set<nat>, cores: set<nat>, l: Log<T>, events: seq<Event<T>>,
                                              id: nat)
    requires Strands(cores, l.pipe, id)
    requires forall i :: 0 <= i < |events| ==> events[i].DoReceive? ==> events[i].core in cores
    ensures Strands(cores, RunEvents(dest, l, events).pipe, id)
    decreases |events|
  {
    if events != [] {
      var n := |events| - 1;
      StrandedForever(dest, cores, l, events[..n], id);
      var p := RunEvents(dest, l, events[..n]).pipe;
      match events[n]
      case DoSend(data) =>
        var i :| 0 <= i < |p.queue| && p.queue[i].id == id && IsStranded(cores, p.queue[i]);
        assert Send(p, data, |dest|).queue[i] == p.queue[i];
      case DoReceive(core, length) => StrandedStays(cores, p, id, core, length);
    }
  }

  // ----- When a message goes, whoever receives -----

  /** The message with a number, if it is in the queue. */
  function Lookup<T>(queue: seq<Message<T>>, id: nat): Option<Message<T>> {
    if queue == [] then None else if queue[0].id == id then Some(queue[0]) else Lookup(queue[1..], id)
  }

  predicate DistinctIds<T>(queue: seq<Message<T>>) {
    forall i: nat, j: nat | i < j < |queue| :: queue[i].id != queue[j].id
  }

  /** Numbers are given once. */
  predicate Numbered<T>(p: Pipe<T>) {
    DistinctIds(p.queue) && forall i: nat | i < |p.queue| :: p.queue[i].id < p.nextId
  }

  lemma {:induction false} LookupAt<T>(queue: seq<Message<T>>, i: nat, id: nat)
    requires i < |queue| && DistinctIds(queue) && queue[i].id == id
    ensures Lookup(queue, id) == Some(queue[i])
    decreases i
  {
    if i > 0 {
      LookupAt(queue[1..], i - 1, id);
    }
  }

  lemma {:induction false} LookupMissing<T>(queue: seq<Message<T>>, id: nat)
    requires forall i: nat | i < |queue| :: queue[i].id != id
    ensures Lookup(queue, id) == None
  {
    if queue != [] {
      LookupMissing(queue[1..], id);
    }
  }

  lemma {:induction false} LookupUpdated<T>(queue: seq<Message<T>>, i: nat, m: Message<T>, id: nat)
    requires i < |queue| && m.id == queue[i].id != id
    ensures Lookup(queue[i := m], id) == Lookup(queue, id)
    decreases i
  {
    if i > 0 {
      LookupUpdated(queue[1..], i - 1, m, id);
      assert queue[i := m][1..] == queue[1..][i - 1 := m];
    } else {
      assert queue[i := m][1..] == queue[1..];
    }
  }

  lemma {:induction false} LookupRemoved<T>(queue: seq<Message<T>>, i: nat, id: nat)
    requires i < |queue| && queue[i].id != id
    ensures Lookup(queue[..i] + queue[i + 1..], id) == Lookup(queue, id)
    decreases i
  {
    var rest := queue[..i] + queue[i + 1..];
    if i > 0 {
      LookupRemoved(queue[1..], i - 1, id);
      assert rest[1..] == queue[1..][..i - 1] + queue[1..][i..];
    } else {
      assert rest == queue[1..];
    }
  }

  lemma {:induction false} LookupAppended<T>(queue: seq<Message<T>>, m: Message<T>, id: nat)
    requires m.id != id
    ensures Lookup(queue + [m], id) == Lookup(queue, id)
  {
    if queue != [] {
      LookupAppended(queue[1..], m, id);
      assert (queue + [m])[1..] == queue[1..] + [m];
    } else {
      assert (queue + [m])[1..] == [];
    }
  }

  /** The event is a receive, of the right length, of the message with the number. */
  predicate Takes<T>(p: Pipe<T>, e: Event<T>, id: nat) {
    e.DoReceive? && Receive(p, e.core, e.length).1.Success? && p.queue[FirstFor(p.queue, e.core)].id == id
  }

  function TimesTaken<T>(dest: set<nat>, l: Log<T>, events: seq<Event<T>>, id: nat): nat {
    if events == [] then 0
    else
      var n := |events| - 1;
      TimesTaken(dest, l, events[..n], id)
      + (if Takes(RunEvents(dest, l, events[..n]).pipe, events[n], id) then 1 else 0)
  }

  /** What one event does to the message: only taking it counts it down, and the last time removes
      it. */
  ghost predicate CountsDown<T>(before: Option<Message<T>>, after: Option<Message<T>>, taken: bool) {
    match before
    case None => after == None && !taken
    case Some(m) =>
      if !taken then after.Some? && after.value.remaining == m.remaining
      else if m.remaining == 1 then after == None
      else after.Some? && after.value.remaining == m.remaining - 1
  }

  lemma EventCountsDown<T>(dest: set<nat>, l: Log<T>, e: Event<T>, id: nat)
    requires Numbered(l.pipe) && id < l.pipe.nextId
    ensures Numbered(Step(dest, l, e).pipe) && id < Step(dest, l, e).pipe.nextId
    ensures CountsDown(Lookup(l.pipe.queue, id), Lookup(Step(dest, l, e).pipe.queue, id), Takes(l.pipe, e, id))
  {
    match e
    case DoSend(data) =>
      LookupAppended(l.pipe.queue, Message(data, |dest|, l.pipe.nextId, {}), id);
    case DoReceive(core, length) =>
      if l.pipe.signaled && FirstFor(l.pipe.queue, core) < |l.pipe.queue| {
        ReceiveCountsDown(l.pipe, core, length, id);
      }
  }

  /** A message without which a queue is left can no longer be found; any other can. */
  lemma TakenOut<T>(queue: seq<Message<T>>, i: nat, id: nat)
    requires i < |queue| && DistinctIds(queue)
    ensures DistinctIds(queue[..i] + queue[i + 1..])
    ensures Lookup(queue[..i] + queue[i + 1..], id) == if queue[i].id == id then None else Lookup(queue, id)
    ensures queue[i].id == id ==> Lookup(queue, id) == Some(queue[i])
  {
    if queue[i].id == id {
      LookupAt(queue, i, id);
      LookupMissing(queue[..i] + queue[i + 1..], id);
    } else {
      LookupRemoved(queue, i, id);
    }
  }

  lemma ReceiveCountsDown<T>(p: Pipe<T>, core: nat, length: nat, id: nat)
    requires Numbered(p) && id < p.nextId && p.signaled && FirstFor(p.queue, core) < |p.queue|
    ensures Numbered(Receive(p, core, length).0)
    ensures CountsDown(Lookup(p.queue, id), Lookup(Receive(p, core, length).0.queue, id),
                       Takes(p, DoReceive(core, length), id))
  {
    var i := FirstFor(p.queue, core);
    var m, after := p.queue[i], Receive(p, core, length).0.queue;
    var success := length == |m.data|;
    if success && m.remaining == 1 {
      assert after == p.queue[..i] + p.queue[i + 1..];
      TakenOut(p.queue, i, id);
    } else {
      var m' := m.(receivers := m.receivers + {core}, remaining := if success then m.remaining - 1 else m.remaining);
      assert after == p.queue[i := m'];
      if m.id == id {
        LookupAt(p.queue, i, id);
        LookupAt(after, i, id);
      } else {
        LookupUpdated(p.queue, i, m', id);
      }
    }
    if Lookup(p.queue, id) == None && m.id == id {
      LookupAt(p.queue, i, id);
    }
  }

  /** Whatever cores receive, with whatever lengths: a message is gone exactly when it has been taken
      as often as it counted receivers still to come. */
  lemma {:induction false} GoneIffTaken<T>(dest: set<nat>, l: Log<T>, events: seq<Event<T>>, id: nat)
    requires Numbered(l.pipe) && id < l.pipe.nextId && Lookup(l.pipe.queue, id).Some?
    ensures var remaining := Lookup(l.pipe.queue, id).value.remaining;
            var after, taken := Lookup(RunEvents(dest, l, events).pipe.queue, id), TimesTaken(dest, l, events, id);
            && (after == None <==> remaining > 0 && taken == remaining)
            && (after.Some? ==> after.value.remaining == remaining - taken)
            && Numbered(RunEvents(dest, l, events).pipe) && id < RunEvents(dest, l, events).pipe.nextId
            && (remaining > 0 ==> taken <= remaining)
    decreases |events|
  {
    if events != [] {
      var n := |events| - 1;
      GoneIffTaken(dest, l, events[..n], id);
      EventCountsDown(dest, RunEvents(dest, l, events[..n]), events[n], id);
    }
  }
}
