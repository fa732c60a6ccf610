/** A kernel as the simulator runs it: deterministic threads that meet only at the dataflow
    buffers.  Every buffer has one producer thread and one consumer thread.  The module proves
    that what a kernel computes does not depend on the order in which its threads are run. */
module Network {
  import opened Wrappers
  import opened BlockState
  import opened DataflowQueue

  type Tid = nat
  type Buf = nat

  /** What a thread does next.  `Write` and `Read` are the copy and store operations on the block
      the thread has reserved or waited for, with new contents when they write. */
  datatype Action<T> =
    | Halt
    | Reserve(b: Buf)
    | Push(b: Buf)
    | Wait(b: Buf)
    | Pop(b: Buf)
    | Write(b: Buf, op: Operation, data: Option<seq<T>>)
    | Read(b: Buf, op: Operation, data: Option<seq<T>>)

  /** A kernel: `next` and `resume` are the threads' code over local states of type L (`resume`
      receives the contents the action saw). */
  datatype Kernel<!L, !T> = Kernel(
    next: (Tid, L) -> Action<T>,
    resume: (Tid, L, seq<T>) -> L,
    kind: Tid -> ThreadType,
    zeros: Buf -> seq<T>,
    producer: Buf -> Tid,
    consumer: Buf -> Tid,
    buffers: set<Buf>)

  datatype Thread<L> = Running(local: L) | Crashed(error: QueueError)

  datatype State<L, T> = State(threads: map<Tid, Thread<L>>, buffers: map<Buf, Queue<T>>)

  predicate ProducerSide<T>(a: Action<T>) {
    a.Reserve? || a.Push? || a.Write?
  }

  /** One producer and one consumer per buffer. */
  ghost predicate WellWired<L(!new), T(!new)>(k: Kernel<L, T>) {
    && (forall b :: k.producer(b) != k.consumer(b))
    && forall t: Tid, l: L ::
         var a := k.next(t, l);
         a.Halt? || (a.b in k.buffers && t == (if ProducerSide(a) then k.producer(a.b) else k.consumer(a.b)))
  }

  function Effect<T>(thread: ThreadType, zeros: seq<T>, a: Action<T>, q: Queue<T>): Result<Queue<T>, QueueError>
    requires !a.Halt?
  {
    match a
    case Reserve(_) => DataflowQueue.Reserve(q, thread, zeros)
    case Push(_) => PushBlock(q)
    case Wait(_) => DataflowQueue.Wait(q, thread)
    case Pop(_) => PopBlock(q)
    case Write(_, op, data) =>
      if op in {BlockState.Push, BlockState.Pop} then Failure(Refused(NotExpected)) else TouchWriter(q, op, data)
    case Read(_, op, data) =>
      if op in {BlockState.Push, BlockState.Pop} then Failure(Refused(NotExpected)) else TouchReader(q, op, data)
  }

  /** The contents an action lets its thread see. */
  function Seen<T>(a: Action<T>, q: Queue<T>): seq<T> {
    if a.Write? && q.writer.Some? then q.writer.value.data
    else if a.Read? && q.reader.Some? && q.blocks != [] then q.blocks[0]
    else []
  }

  predicate Active<L, T>(k: Kernel<L, T>, s: State<L, T>, t: Tid) {
    && t in s.threads && s.threads[t].Running?
    && var a := k.next(t, s.threads[t].local); !a.Halt? && a.b in s.buffers
  }

  function NextOf<L, T>(k: Kernel<L, T>, s: State<L, T>, t: Tid): Action<T>
    requires Active(k, s, t)
  {
    k.next(t, s.threads[t].local)
  }

  function EffectOf<L, T>(k: Kernel<L, T>, s: State<L, T>, t: Tid): Result<Queue<T>, QueueError>
    requires Active(k, s, t)
  {
    var a := NextOf(k, s, t);
    Effect(k.kind(t), k.zeros(a.b), a, s.buffers[a.b])
  }

  /** The thread has something to do and its operation does not block. */
  predicate Enabled<L, T>(k: Kernel<L, T>, s: State<L, T>, t: Tid) {
    Active(k, s, t) && EffectOf(k, s, t) != Failure(WouldBlock)
  }

  /** What one operation makes of its thread and its buffer; an error stops the thread for good
      and leaves the buffer alone. */
  function After<L, T>(k: Kernel<L, T>, t: Tid, l: L, q: Queue<T>): (Thread<L>, Queue<T>)
    requires !k.next(t, l).Halt?
  {
    var a := k.next(t, l);
    match Effect(k.kind(t), k.zeros(a.b), a, q)
    case Failure(e) => (Crashed(e), q)
    case Success(q') => (Running(k.resume(t, l, Seen(a, q))), q')
  }

  function Fire<L, T>(k: Kernel<L, T>, s: State<L, T>, t: Tid): State<L, T>
    requires Enabled(k, s, t)
  {
    var b := NextOf(k, s, t).b;
    var after := After(k, t, s.threads[t].local, s.buffers[b]);
    State(s.threads[t := after.0], s.buffers[b := after.1])
  }

  /** The thread is about to pop a buffer it has not waited on. */
  predicate StrayPop<L, T>(k: Kernel<L, T>, s: State<L, T>, t: Tid) {
    Active(k, s, t) && NextOf(k, s, t).Pop? && s.buffers[NextOf(k, s, t).b].reader.None?
  }

  predicate QueueInv<T>(q: Queue<T>) {
    q.reader.Some? ==> q.blocks != []
  }

  predicate Inv<L, T>(k: Kernel<L, T>, s: State<L, T>) {
    s.buffers.Keys == k.buffers && forall b | b in s.buffers :: QueueInv(s.buffers[b])
  }

  lemma FireKeepsInv<L, T>(k: Kernel<L, T>, s: State<L, T>, t: Tid)
    requires Inv(k, s) && Enabled(k, s, t)
    ensures Inv(k, Fire(k, s, t))
  {
    var a := NextOf(k, s, t);
    EffectKeepsInv(k.kind(t), k.zeros(a.b), a, s.buffers[a.b]);
  }

  lemma EffectKeepsInv<T>(thread: ThreadType, zeros: seq<T>, a: Action<T>, q: Queue<T>)
    requires !a.Halt? && QueueInv(q)
    ensures Effect(thread, zeros, a, q).Success? ==> QueueInv(Effect(thread, zeros, a, q).value)
  {
    match a
    case Reserve(_) =>
    case Push(_) =>
    case Wait(_) =>
    case Pop(_) =>
    case Write(_, _, _) =>
    case Read(_, _, _) =>
  }

  // ----- The diamond -----

  /** The producer is about to push into a buffer that holds nothing, and the consumer to pop it
      without having waited. */
  predicate Clash<T>(p: Action<T>, c: Action<T>, q: Queue<T>) {
    p.Push? && c.Pop? && q.reader.None? && q.blocks == [] && PushBlock(q).Success?
  }

  /** Producer and consumer operations on one buffer that do not clash commute: neither changes
      whether the other is enabled, what it sees, or its outcome. */
  lemma SidesCommute<T>(pt: ThreadType, ct: ThreadType, zeros: seq<T>, p: Action<T>, c: Action<T>, q: Queue<T>)
    requires !p.Halt? && !c.Halt? && ProducerSide(p) && !ProducerSide(c) && QueueInv(q)
    requires !Clash(p, c, q)
    requires Effect(pt, zeros, p, q) != Failure(WouldBlock)
    requires Effect(ct, zeros, c, q) != Failure(WouldBlock)
    ensures var ep := Effect(pt, zeros, p, q);
            var ec := Effect(ct, zeros, c, q);
            && (ep.Success? ==> Seen(c, ep.value) == Seen(c, q) && SameKind(Effect(ct, zeros, c, ep.value), ec))
            && (ec.Success? ==> Seen(p, ec.value) == Seen(p, q) && SameKind(Effect(pt, zeros, p, ec.value), ep))
            && (ep.Success? && ec.Success? ==> Effect(ct, zeros, c, ep.value) == Effect(pt, zeros, p, ec.value))
  {
    if Effect(pt, zeros, p, q).Success? {
      ConsumerUnmoved(pt, ct, zeros, p, c, q);
    }
    ProducerUnmoved(pt, ct, zeros, p, c, q);
    if Effect(pt, zeros, p, q).Success? && Effect(ct, zeros, c, q).Success? {
      JoinAgrees(pt, ct, zeros, p, c, q);
    }
  }

  ghost predicate SameKind<T>(a: Result<Queue<T>, QueueError>, b: Result<Queue<T>, QueueError>) {
    if b.Failure? then a == b else a.Success?
  }

  lemma ConsumerUnmoved<T>(pt: ThreadType, ct: ThreadType, zeros: seq<T>, p: Action<T>, c: Action<T>, q: Queue<T>)
    requires !p.Halt? && !c.Halt? && ProducerSide(p) && !ProducerSide(c) && QueueInv(q)
    requires !Clash(p, c, q)
    requires Effect(pt, zeros, p, q).Success?
    requires Effect(ct, zeros, c, q) != Failure(WouldBlock)
    ensures var q' := Effect(pt, zeros, p, q).value;
            Seen(c, q') == Seen(c, q) && SameKind(Effect(ct, zeros, c, q'), Effect(ct, zeros, c, q))
  {
    var q' := Effect(pt, zeros, p, q).value;
    ProducerFrame(pt, zeros, p, q);
    match c
    case Wait(_) =>
    case Pop(_) =>
    case Read(_, _, _) =>
  }

  /** What a producer operation leaves alone. */
  lemma ProducerFrame<T>(pt: ThreadType, zeros: seq<T>, p: Action<T>, q: Queue<T>)
    requires !p.Halt? && ProducerSide(p) && Effect(pt, zeros, p, q).Success?
    ensures var q' := Effect(pt, zeros, p, q).value;
            && q'.reader == q.reader && q'.factor == q.factor
            && (q'.blocks == if p.Push? then q.blocks + [q.writer.value.data] else q.blocks)
            && (p.Push? ==> q.writer.Some?)
  {
    match p
    case Reserve(_) =>
    case Push(_) =>
    case Write(_, _, _) =>
  }

  /** What a consumer operation leaves alone. */
  lemma ConsumerFrame<T>(ct: ThreadType, zeros: seq<T>, c: Action<T>, q: Queue<T>)
    requires !c.Halt? && !ProducerSide(c) && Effect(ct, zeros, c, q).Success?
    ensures var q' := Effect(ct, zeros, c, q).value;
            && q'.writer == q.writer && q'.factor == q.factor && |q'.blocks| <= |q.blocks|
            && (c.Pop? ==> q.blocks != [] && q'.blocks == q.blocks[1..])
  {
    match c
    case Wait(_) =>
    case Pop(_) =>
    case Read(_, _, _) =>
  }

  lemma ProducerUnmoved<T>(pt: ThreadType, ct: ThreadType, zeros: seq<T>, p: Action<T>, c: Action<T>, q: Queue<T>)
    requires !p.Halt? && !c.Halt? && ProducerSide(p) && !ProducerSide(c)
    requires Effect(pt, zeros, p, q) != Failure(WouldBlock)
    ensures Effect(ct, zeros, c, q).Success? ==>
              var q' := Effect(ct, zeros, c, q).value;
              Seen(p, q') == Seen(p, q) && SameKind(Effect(pt, zeros, p, q'), Effect(pt, zeros, p, q))
  {
    if Effect(ct, zeros, c, q).Success? {
      ConsumerFrame(ct, zeros, c, q);
      match p
      case Reserve(_) =>
      case Push(_) =>
      case Write(_, _, _) =>
    }
  }

  lemma JoinAgrees<T>(pt: ThreadType, ct: ThreadType, zeros: seq<T>, p: Action<T>, c: Action<T>, q: Queue<T>)
    requires !p.Halt? && !c.Halt? && ProducerSide(p) && !ProducerSide(c) && QueueInv(q)
    requires !Clash(p, c, q)
    requires Effect(pt, zeros, p, q).Success? && Effect(ct, zeros, c, q).Success?
    ensures Effect(ct, zeros, c, Effect(pt, zeros, p, q).value) == Effect(pt, zeros, p, Effect(ct, zeros, c, q).value)
  {
    ProducerFrame(pt, zeros, p, q);
    ConsumerFrame(ct, zeros, c, q);
    if p.Push? {
      var pushed := q.blocks + [q.writer.value.data];
      match c
      case Wait(_) =>
      case Pop(_) =>
        assert pushed[1..] == q.blocks[1..] + [q.writer.value.data];
      case Read(_, _, data) =>
        if data.Some? && q.blocks != [] {
          assert [data.value] + pushed[1..] == [data.value] + q.blocks[1..] + [q.writer.value.data];
        }
    } else {
      match c
      case Wait(_) =>
      case Pop(_) =>
      case Read(_, _, _) =>
    }
  }

  /** The two threads' next operations clash. */
  predicate Races<L, T>(k: Kernel<L, T>, s: State<L, T>, t: Tid, u: Tid) {
    && Active(k, s, t) && Active(k, s, u) && NextOf(k, s, t).b == NextOf(k, s, u).b
    && var a, c, q := NextOf(k, s, t), NextOf(k, s, u), s.buffers[NextOf(k, s, t).b];
    Clash(a, c, q) || Clash(c, a, q)
  }

  lemma FireLooks<L, T>(k: Kernel<L, T>, s: State<L, T>, t: Tid)
    requires Enabled(k, s, t)
    ensures var s' := Fire(k, s, t);
            && s'.threads.Keys == s.threads.Keys && s'.buffers.Keys == s.buffers.Keys
            && (forall u | u in s.threads && u != t :: s'.threads[u] == s.threads[u])
            && (forall b | b in s.buffers && b != NextOf(k, s, t).b :: s'.buffers[b] == s.buffers[b])
  {
  }

  /** The same-buffer case of the diamond. */
  lemma SameBufferDiamond<L, T>(k: Kernel<L, T>, t: Tid, l: L, u: Tid, m: L, q: Queue<T>)
    requires var p, c := k.next(t, l), k.next(u, m);
             && !p.Halt? && !c.Halt? && p.b == c.b && ProducerSide(p) && !ProducerSide(c)
             && QueueInv(q) && !Clash(p, c, q)
             && Effect(k.kind(t), k.zeros(p.b), p, q) != Failure(WouldBlock)
             && Effect(k.kind(u), k.zeros(c.b), c, q) != Failure(WouldBlock)
    ensures var p, c := k.next(t, l), k.next(u, m);
            var (t', qt) := After(k, t, l, q);
            var (u', qu) := After(k, u, m, q);
            && Effect(k.kind(t), k.zeros(p.b), p, qu) != Failure(WouldBlock)
            && Effect(k.kind(u), k.zeros(c.b), c, qt) != Failure(WouldBlock)
            && After(k, u, m, qt).0 == u' && After(k, t, l, qu).0 == t'
            && After(k, u, m, qt).1 == After(k, t, l, qu).1
  {
    var p, c := k.next(t, l), k.next(u, m);
    SidesCommute(k.kind(t), k.kind(u), k.zeros(p.b), p, c, q);
  }

  /** The other case: the operations touch different buffers. */
  lemma OtherBufferUnmoved<L, T>(k: Kernel<L, T>, s: State<L, T>, t: Tid, u: Tid)
    requires t != u && Enabled(k, s, t) && Enabled(k, s, u)
    requires NextOf(k, s, t).b != NextOf(k, s, u).b
    ensures Enabled(k, Fire(k, s, t), u) && LocalEffect(k, Fire(k, s, t), u) == LocalEffect(k, s, u)
  {
    FireLooks(k, s, t);
  }

  ghost function LocalEffect<L, T>(k: Kernel<L, T>, s: State<L, T>, t: Tid): (Thread<L>, Queue<T>)
    requires Active(k, s, t)
  {
    After(k, t, s.threads[t].local, s.buffers[NextOf(k, s, t).b])
  }

  lemma SameBufferUnmoved<L(!new), T(!new)>(k: Kernel<L, T>, s: State<L, T>, t: Tid, u: Tid)
    requires WellWired(k) && Inv(k, s) && t != u
    requires Enabled(k, s, t) && Enabled(k, s, u) && !Races(k, s, t, u)
    requires NextOf(k, s, t).b == NextOf(k, s, u).b
    ensures Enabled(k, Fire(k, s, t), u) && Enabled(k, Fire(k, s, u), t)
    ensures LocalEffect(k, Fire(k, s, t), u).0 == LocalEffect(k, s, u).0
    ensures LocalEffect(k, Fire(k, s, u), t).0 == LocalEffect(k, s, t).0
    ensures LocalEffect(k, Fire(k, s, t), u).1 == LocalEffect(k, Fire(k, s, u), t).1
  {
    var a, c := NextOf(k, s, t), NextOf(k, s, u);
    var l, m := s.threads[t].local, s.threads[u].local;
    FireLooks(k, s, t);
    FireLooks(k, s, u);
    if ProducerSide(a) {
      SameBufferDiamond(k, t, l, u, m, s.buffers[a.b]);
    } else {
      SameBufferDiamond(k, u, m, t, l, s.buffers[a.b]);
    }
  }

  lemma UpdatesCommute<K, V>(m: map<K, V>, a: K, x: V, b: K, y: V)
    requires a != b
    ensures m[a := x][b := y] == m[b := y][a := x]
  {
  }

  /** Two different threads that are both enabled can be run in either order if and only if they do
      not race; without a race neither disables the other. */
  lemma Diamond<L(!new), T(!new)>(k: Kernel<L, T>, s: State<L, T>, t: Tid, u: Tid)
    requires WellWired(k) && Inv(k, s) && t != u
    requires Enabled(k, s, t) && Enabled(k, s, u)
    ensures !Races(k, s, t, u) ==> Enabled(k, Fire(k, s, t), u) && Enabled(k, Fire(k, s, u), t)
    ensures Fire(k, Fire(k, s, t), u) == Fire(k, Fire(k, s, u), t) <==> !Races(k, s, t, u)
  {
    if Races(k, s, t, u) {
      if Clash(NextOf(k, s, t), NextOf(k, s, u), s.buffers[NextOf(k, s, t).b]) {
        RaceMatters(k, s, t, u);
      } else {
        RaceMatters(k, s, u, t);
      }
    } else {
      StepsCommute(k, s, t, u);
    }
  }

  /** Popping before the push fails, popping after it does not. */
  lemma RaceMatters<L(!new), T(!new)>(k: Kernel<L, T>, s: State<L, T>, t: Tid, u: Tid)
    requires WellWired(k) && Inv(k, s) && t != u
    requires Enabled(k, s, t) && Enabled(k, s, u) && NextOf(k, s, t).b == NextOf(k, s, u).b
    requires Clash(NextOf(k, s, t), NextOf(k, s, u), s.buffers[NextOf(k, s, t).b])
    ensures Fire(k, Fire(k, s, t), u) != Fire(k, Fire(k, s, u), t)
  {
    FireLooks(k, s, t);
    FireIs(k, s, t);
    FireIs(k, s, u);
    var pushed := Fire(k, s, t);
    ProducerFrame(k.kind(t), k.zeros(NextOf(k, s, t).b), NextOf(k, s, t), s.buffers[NextOf(k, s, t).b]);
    assert Enabled(k, pushed, u);
    FireIs(k, pushed, u);
    assert Fire(k, pushed, u).threads[u].Running?;
    assert Fire(k, s, u).threads[u].Crashed?;
    NeverDisabled(k, s, t, u);
    FireLooks(k, Fire(k, s, u), t);
    assert Fire(k, Fire(k, s, u), t).threads[u].Crashed?;
  }

  lemma StepsCommute<L(!new), T(!new)>(k: Kernel<L, T>, s: State<L, T>, t: Tid, u: Tid)
    requires WellWired(k) && Inv(k, s) && t != u
    requires Enabled(k, s, t) && Enabled(k, s, u) && !Races(k, s, t, u)
    ensures Enabled(k, Fire(k, s, t), u) && Enabled(k, Fire(k, s, u), t)
    ensures Fire(k, Fire(k, s, t), u) == Fire(k, Fire(k, s, u), t)
  {
    var b, d := NextOf(k, s, t).b, NextOf(k, s, u).b;
    if b == d {
      SameBufferUnmoved(k, s, t, u);
    } else {
      OtherBufferUnmoved(k, s, t, u);
      OtherBufferUnmoved(k, s, u, t);
      UpdatesCommute(s.buffers, b, LocalEffect(k, s, t).1, d, LocalEffect(k, s, u).1);
    }
    UpdatesCommute(s.threads, t, LocalEffect(k, s, t).0, u, LocalEffect(k, s, u).0);
    FireIs(k, s, t);
    FireIs(k, s, u);
    FireIs(k, Fire(k, s, t), u);
    FireIs(k, Fire(k, s, u), t);
  }

  lemma FireIs<L, T>(k: Kernel<L, T>, s: State<L, T>, t: Tid)
    requires Enabled(k, s, t)
    ensures Fire(k, s, t) == State(s.threads[t := LocalEffect(k, s, t).0],
                                   s.buffers[NextOf(k, s, t).b := LocalEffect(k, s, t).1])
  {
  }

  /** The step of a thread whose next action and effect are known. */
  lemma OneMove<L, T>(k: Kernel<L, T>, s: State<L, T>, t: Tid, l: L, a: Action<T>,
                      q: Queue<T>, free: bool, q': Queue<T>, s': State<L, T>)
    requires t in s.threads && s.threads[t] == Running(l) && k.next(t, l) == a && !a.Halt?
    requires a.b in s.buffers && s.buffers[a.b] == q && (a.Pop? ==> q.reader.Some?)
    requires Effect(k.kind(t), k.zeros(a.b), a, q) == if free then Success(q') else Failure(WouldBlock)
    requires s'.threads.Keys == s.threads.Keys && s'.buffers.Keys == s.buffers.Keys
    requires s'.threads[t] == Running(k.resume(t, l, Seen(a, q))) && s'.buffers[a.b] == q'
    requires forall u | u in s.threads && u != t :: s'.threads[u] == s.threads[u]
    requires forall b | b in s.buffers && b != a.b :: s'.buffers[b] == s.buffers[b]
    ensures Enabled(k, s, t) <==> free
    ensures free ==> Fire(k, s, t) == s' && !StrayPop(k, s, t)
  {
    if free {
      assert Fire(k, s, t).threads == s'.threads;
      assert Fire(k, s, t).buffers == s'.buffers;
    }
  }

  // ----- Runs -----

  /** `run` names the thread of each step; every step is enabled when it is taken. */
  ghost predicate IsRun<L, T>(k: Kernel<L, T>, s: State<L, T>, run: seq<Tid>)
    decreases |run|
  {
    run == [] || (Enabled(k, s, run[0]) && IsRun(k, Fire(k, s, run[0]), run[1..]))
  }

  ghost function End<L, T>(k: Kernel<L, T>, s: State<L, T>, run: seq<Tid>): State<L, T>
    requires IsRun(k, s, run)
    decreases |run|
  {
    if run == [] then s else End(k, Fire(k, s, run[0]), run[1..])
  }

  /** No step pops a buffer that its thread has not waited on. */
  ghost predicate Disciplined<L, T>(k: Kernel<L, T>, s: State<L, T>, run: seq<Tid>)
    requires IsRun(k, s, run)
    decreases |run|
  {
    run == [] || (!StrayPop(k, s, run[0]) && Disciplined(k, Fire(k, s, run[0]), run[1..]))
  }

  /** Nothing can move: every thread has finished, has failed, or is blocked. */
  ghost predicate Stuck<L, T>(k: Kernel<L, T>, s: State<L, T>) {
    forall t: Tid :: !Enabled(k, s, t)
  }

  ghost predicate Complete<L, T>(k: Kernel<L, T>, s: State<L, T>, run: seq<Tid>) {
    IsRun(k, s, run) && Stuck(k, End(k, s, run))
  }

  /** An enabled thread stays enabled, and keeps its next action, until it runs. */
  lemma StaysEnabled<L(!new), T(!new)>(k: Kernel<L, T>, s: State<L, T>, t: Tid, u: Tid)
    requires WellWired(k) && Inv(k, s) && t != u
    requires Enabled(k, s, t) && Enabled(k, s, u) && !StrayPop(k, s, u)
    ensures Enabled(k, Fire(k, s, u), t)
    ensures NextOf(k, Fire(k, s, u), t) == NextOf(k, s, t)
    ensures StrayPop(k, Fire(k, s, u), t) <==> StrayPop(k, s, t)
  {
    FireLooks(k, s, u);
    FireIs(k, s, u);
    var a, c := NextOf(k, s, t), NextOf(k, s, u);
    if !StrayPop(k, s, t) {
      Diamond(k, s, t, u);
    }
    if a.b == c.b && a.Pop? {
      var q := s.buffers[c.b];
      if Effect(k.kind(u), k.zeros(c.b), c, q).Success? {
        ProducerFrame(k.kind(u), k.zeros(c.b), c, q);
      }
    }
  }

  /** Running one thread never disables another, stray pops included. */
  lemma NeverDisabled<L(!new), T(!new)>(k: Kernel<L, T>, s: State<L, T>, t: Tid, u: Tid)
    requires WellWired(k) && Inv(k, s) && t != u && Enabled(k, s, t) && Enabled(k, s, u)
    ensures Enabled(k, Fire(k, s, u), t)
  {
    FireLooks(k, s, u);
    var a, c := NextOf(k, s, t), NextOf(k, s, u);
    if a.b != c.b {
      OtherBufferUnmoved(k, s, u, t);
    } else if ProducerSide(a) {
      ProducerUnmoved(k.kind(t), k.kind(u), k.zeros(a.b), a, c, s.buffers[a.b]);
    } else if !StrayPop(k, s, t) && Effect(k.kind(u), k.zeros(c.b), c, s.buffers[c.b]).Success? {
      ConsumerUnmoved(k.kind(u), k.kind(t), k.zeros(a.b), c, a, s.buffers[a.b]);
    }
  }

  /** A run can be extended by any step that is enabled at its end. */
  lemma {:induction false} ExtendRun<L, T>(k: Kernel<L, T>, s: State<L, T>, run: seq<Tid>, t: Tid)
    requires IsRun(k, s, run) && Enabled(k, End(k, s, run), t)
    ensures IsRun(k, s, run + [t]) && End(k, s, run + [t]) == Fire(k, End(k, s, run), t)
    decreases |run|
  {
    if run == [] {
      assert (run + [t])[1..] == [];
    } else {
      ExtendRun(k, Fire(k, s, run[0]), run[1..], t);
      assert (run + [t])[1..] == run[1..] + [t];
    }
  }

  /** In a complete run every enabled thread eventually moves, so a stray pop would be taken. */
  lemma {:induction false} NoStrayPopPending<L(!new), T(!new)>(k: Kernel<L, T>, s: State<L, T>, run: seq<Tid>, t: Tid)
    requires WellWired(k) && Inv(k, s)
    requires Complete(k, s, run) && Disciplined(k, s, run) && Enabled(k, s, t)
    ensures run != [] && !StrayPop(k, s, t)
    decreases |run|
  {
    assert run != [];
    if run[0] != t {
      StaysEnabled(k, s, t, run[0]);
      FireKeepsInv(k, s, run[0]);
      NoStrayPopPending(k, Fire(k, s, run[0]), run[1..], t);
    }
  }

  /** A complete run can be rearranged to start with any enabled thread; `rest` is what remains. */
  lemma {:induction false} MoveToFront<L(!new), T(!new)>(k: Kernel<L, T>, s: State<L, T>, run: seq<Tid>, t: Tid)
    returns (rest: seq<Tid>)
    requires WellWired(k) && Inv(k, s)
    requires Complete(k, s, run) && Disciplined(k, s, run) && Enabled(k, s, t)
    ensures var s' := Fire(k, s, t);
            && Complete(k, s', rest) && Disciplined(k, s', rest)
            && End(k, s', rest) == End(k, s, run)
    ensures multiset(run) == multiset([t]) + multiset(rest) && |run| == |rest| + 1
    decreases |run|
  {
    NoStrayPopPending(k, s, run, t);
    var u := run[0];
    assert run == [u] + run[1..];
    if u == t {
      rest := run[1..];
    } else {
      StaysEnabled(k, s, t, u);
      FireKeepsInv(k, s, u);
      var later := MoveToFront(k, Fire(k, s, u), run[1..], t);
      StaysEnabled(k, s, u, t);
      Diamond(k, s, t, u);
      rest := [u] + later;
      assert rest[1..] == later;
    }
  }

  /** If some schedule runs to completion, then no schedule can make more steps than it, and
      every partial run can be continued to the same end. */
  lemma {:induction false} EveryRunJoins<L(!new), T(!new)>(k: Kernel<L, T>, s: State<L, T>,
                                                           complete: seq<Tid>, partial: seq<Tid>)
    returns (more: seq<Tid>)
    requires WellWired(k) && Inv(k, s)
    requires Complete(k, s, complete) && Disciplined(k, s, complete) && IsRun(k, s, partial)
    ensures Disciplined(k, s, partial)
    ensures Complete(k, End(k, s, partial), more)
    ensures Disciplined(k, End(k, s, partial), more)
    ensures End(k, End(k, s, partial), more) == End(k, s, complete)
    ensures multiset(complete) == multiset(partial) + multiset(more) && |complete| == |partial| + |more|
    decreases |partial|
  {
    if partial == [] {
      more := complete;
    } else {
      var t := partial[0];
      NoStrayPopPending(k, s, complete, t);
      var rest := MoveToFront(k, s, complete, t);
      FireKeepsInv(k, s, t);
      more := EveryRunJoins(k, Fire(k, s, t), rest, partial[1..]);
      assert partial == [t] + partial[1..];
    }
  }

  /** Schedule independence: two complete runs of a kernel, one of which pops only what was
      waited for, end in the same buffers, thread states and errors, after the same number of
      steps of each thread. */
  lemma ScheduleIndependence<L(!new), T(!new)>(k: Kernel<L, T>, s: State<L, T>, run: seq<Tid>, other: seq<Tid>)
    requires WellWired(k) && Inv(k, s)
    requires Complete(k, s, run) && Disciplined(k, s, run) && Complete(k, s, other)
    ensures End(k, s, other) == End(k, s, run)
    ensures multiset(other) == multiset(run)
    ensures Disciplined(k, s, other)
  {
    var more := EveryRunJoins(k, s, run, other);
    assert more == [];
  }

  /** A failed thread stays failed, so if one schedule completes without an error then no
      schedule ever reaches one. */
  lemma ErrorsAreScheduleIndependent<L(!new), T(!new)>(k: Kernel<L, T>, s: State<L, T>,
                                                       run: seq<Tid>, partial: seq<Tid>, t: Tid)
    requires WellWired(k) && Inv(k, s) && t in s.threads
    requires Complete(k, s, run) && Disciplined(k, s, run) && IsRun(k, s, partial)
    ensures t in End(k, s, partial).threads && t in End(k, s, run).threads
    ensures End(k, s, partial).threads[t].Crashed? ==> End(k, s, run).threads[t] == End(k, s, partial).threads[t]
  {
    var more := EveryRunJoins(k, s, run, partial);
    ThreadsPersist(k, s, partial, t);
    ThreadsPersist(k, End(k, s, partial), more, t);
  }

  lemma {:induction false} ThreadsPersist<L, T>(k: Kernel<L, T>, s: State<L, T>, run: seq<Tid>, t: Tid)
    requires IsRun(k, s, run) && t in s.threads
    ensures t in End(k, s, run).threads
    ensures s.threads[t].Crashed? ==> End(k, s, run).threads[t] == s.threads[t]
    decreases |run|
  {
    if run != [] {
      FireLooks(k, s, run[0]);
      ThreadsPersist(k, Fire(k, s, run[0]), run[1..], t);
    }
  }

  // ----- What independence rests on -----

  /** In no state that can be reached do two threads' next operations clash. */
  ghost predicate RaceFree<L(!new), T(!new)>(k: Kernel<L, T>, s: State<L, T>) {
    forall run: seq<Tid>, t: Tid, u: Tid :: IsRun(k, s, run) ==> !RacesHere(k, End(k, s, run), t, u)
  }

  ghost predicate RacesHere<L, T>(k: Kernel<L, T>, s: State<L, T>, t: Tid, u: Tid) {
    t != u && Enabled(k, s, t) && Enabled(k, s, u) && Races(k, s, t, u)
  }

  /** If two threads are enabled they lead to the same state in either order. */
  ghost predicate Commute<L, T>(k: Kernel<L, T>, s: State<L, T>, t: Tid, u: Tid) {
    t != u && Enabled(k, s, t) && Enabled(k, s, u) ==>
    && Enabled(k, Fire(k, s, t), u) && Enabled(k, Fire(k, s, u), t)
    && Fire(k, Fire(k, s, t), u) == Fire(k, Fire(k, s, u), t)
  }

  lemma {:induction false} RunKeepsInv<L, T>(k: Kernel<L, T>, s: State<L, T>, run: seq<Tid>)
    requires Inv(k, s) && IsRun(k, s, run)
    ensures Inv(k, End(k, s, run))
    decreases |run|
  {
    if run != [] {
      FireKeepsInv(k, s, run[0]);
      RunKeepsInv(k, Fire(k, s, run[0]), run[1..]);
    }
  }

  /** Steps commute wherever they are enabled together. */
  ghost predicate AllCommute<L(!new), T(!new)>(k: Kernel<L, T>, s: State<L, T>) {
    forall run: seq<Tid>, t: Tid, u: Tid :: IsRun(k, s, run) ==> Commute(k, End(k, s, run), t, u)
  }

  lemma RaceFreeCommutes<L(!new), T(!new)>(k: Kernel<L, T>, s: State<L, T>, run: seq<Tid>, t: Tid, u: Tid,
                                           e: State<L, T>)
    requires WellWired(k) && Inv(k, s) && IsRun(k, s, run) && e == End(k, s, run)
    ensures Commute(k, e, t, u) <==> !RacesHere(k, e, t, u)
  {
    RunKeepsInv(k, s, run);
    CommuteUnlessRacing(k, e, t, u);
  }

  /** A kernel is free of races if and only if all its steps commute. */
  lemma RaceFreeIffCommuting<L(!new), T(!new)>(k: Kernel<L, T>, s: State<L, T>)
    requires WellWired(k) && Inv(k, s)
    ensures RaceFree(k, s) <==> AllCommute(k, s)
  {
    if RaceFree(k, s) {
      CommutesWithoutRaces(k, s);
    }
    if AllCommute(k, s) {
      forall run: seq<Tid>, t: Tid, u: Tid | IsRun(k, s, run)
        ensures !RacesHere(k, End(k, s, run), t, u)
      {
        assert Commute(k, End(k, s, run), t, u);
        RaceFreeCommutes(k, s, run, t, u, End(k, s, run));
      }
    }
  }

  lemma CommutesWithoutRaces<L(!new), T(!new)>(k: Kernel<L, T>, s: State<L, T>)
    requires WellWired(k) && Inv(k, s) && RaceFree(k, s)
    ensures AllCommute(k, s)
  {
    forall run: seq<Tid>, t: Tid, u: Tid | IsRun(k, s, run)
      ensures Commute(k, End(k, s, run), t, u)
    {
      assert !RacesHere(k, End(k, s, run), t, u);
      RaceFreeCommutes(k, s, run, t, u, End(k, s, run));
    }
  }

  lemma CommuteUnlessRacing<L(!new), T(!new)>(k: Kernel<L, T>, s: State<L, T>, t: Tid, u: Tid)
    requires WellWired(k) && Inv(k, s)
    ensures Commute(k, s, t, u) <==> !RacesHere(k, s, t, u)
  {
    if t != u && Enabled(k, s, t) && Enabled(k, s, u) {
      Diamond(k, s, t, u);
      NeverDisabled(k, s, t, u);
      NeverDisabled(k, s, u, t);
    }
  }

  lemma RaceFreeAfter<L(!new), T(!new)>(k: Kernel<L, T>, s: State<L, T>, t: Tid)
    requires RaceFree(k, s) && Enabled(k, s, t)
    ensures RaceFree(k, Fire(k, s, t))
  {
    forall run: seq<Tid>, x: Tid, y: Tid | IsRun(k, Fire(k, s, t), run)
      ensures !RacesHere(k, End(k, Fire(k, s, t), run), x, y)
    {
      var longer := [t] + run;
      assert longer[1..] == run;
      assert IsRun(k, s, longer) && End(k, s, longer) == End(k, Fire(k, s, t), run);
    }
  }

  lemma {:induction false} MoveToFrontRaceFree<L(!new), T(!new)>(k: Kernel<L, T>, s: State<L, T>, run: seq<Tid>,
                                                                 t: Tid)
    returns (rest: seq<Tid>)
    requires WellWired(k) && Inv(k, s) && RaceFree(k, s) && Complete(k, s, run) && Enabled(k, s, t)
    ensures var s' := Fire(k, s, t);
            Complete(k, s', rest) && End(k, s', rest) == End(k, s, run)
    ensures multiset(run) == multiset([t]) + multiset(rest) && |run| == |rest| + 1
    decreases |run|
  {
    assert run != [];
    var u := run[0];
    assert run == [u] + run[1..];
    if u == t {
      rest := run[1..];
    } else {
      assert IsRun(k, s, []) && !RacesHere(k, End(k, s, []), t, u);
      Diamond(k, s, t, u);
      FireKeepsInv(k, s, u);
      RaceFreeAfter(k, s, u);
      var later := MoveToFrontRaceFree(k, Fire(k, s, u), run[1..], t);
      rest := [u] + later;
      assert rest[1..] == later;
    }
  }

  lemma {:induction false} RaceFreeRunsJoin<L(!new), T(!new)>(k: Kernel<L, T>, s: State<L, T>,
                                                              complete: seq<Tid>, partial: seq<Tid>)
    returns (more: seq<Tid>)
    requires WellWired(k) && Inv(k, s) && RaceFree(k, s) && Complete(k, s, complete) && IsRun(k, s, partial)
    ensures Complete(k, End(k, s, partial), more)
    ensures End(k, End(k, s, partial), more) == End(k, s, complete)
    ensures multiset(complete) == multiset(partial) + multiset(more) && |complete| == |partial| + |more|
    decreases |partial|
  {
    if partial == [] {
      more := complete;
    } else {
      var t := partial[0];
      var rest := MoveToFrontRaceFree(k, s, complete, t);
      FireKeepsInv(k, s, t);
      RaceFreeAfter(k, s, t);
      more := RaceFreeRunsJoin(k, Fire(k, s, t), rest, partial[1..]);
      assert partial == [t] + partial[1..];
    }
  }

  /** Schedule independence without the discipline: stray pops do no harm where no reachable state
      has a race. */
  lemma RaceFreeIsIndependent<L(!new), T(!new)>(k: Kernel<L, T>, s: State<L, T>, run: seq<Tid>, other: seq<Tid>)
    requires WellWired(k) && Inv(k, s) && RaceFree(k, s) && Complete(k, s, run) && Complete(k, s, other)
    ensures End(k, s, other) == End(k, s, run) && multiset(other) == multiset(run)
  {
    var more := RaceFreeRunsJoin(k, s, run, other);
    assert more == [];
  }

  /** One complete run that pops only what was waited for is enough for that. */
  lemma DisciplinedIsRaceFree<L(!new), T(!new)>(k: Kernel<L, T>, s: State<L, T>, complete: seq<Tid>)
    requires WellWired(k) && Inv(k, s) && Complete(k, s, complete) && Disciplined(k, s, complete)
    ensures RaceFree(k, s)
  {
    forall run: seq<Tid>, t: Tid, u: Tid | IsRun(k, s, run)
      ensures !RacesHere(k, End(k, s, run), t, u)
    {
      var more := EveryRunJoins(k, s, complete, run);
      RunKeepsInv(k, s, run);
      if RacesHere(k, End(k, s, run), t, u) {
        NoStrayPopPending(k, End(k, s, run), more, t);
        NoStrayPopPending(k, End(k, s, run), more, u);
      }
    }
  }

  // ----- Why the discipline is needed -----

  /** Thread 0 pushes the block it has stored; thread 1 pops without waiting.  The local state
      says whether the thread is done. */
  function StrayKernel(): Kernel<bool, int> {
    Kernel(
      (t: Tid, done: bool) =>
        if done || t > 1 then Halt else if t == 0 then Action.Push(0) else Action.Pop(0),
      (t: Tid, done: bool, seen: seq<int>) => true,
      (t: Tid) => COMPUTE,
      (b: Buf) => [0],
      (b: Buf) => 0,
      (b: Buf) => 1,
      {0})
  }

  function StrayState(t0: Thread<bool>, t1: Thread<bool>, q: Queue<int>): State<bool, int> {
    State(map[0 := t0, 1 := t1], map[0 := q])
  }

  function StrayStart(): State<bool, int> {
    StrayState(Running(false), Running(false),
               Queue(1, [], Some(Writing(Protocol(RESERVE, COMPUTE, MR, {STORE_SRC, PUSH}), [7])), None))
  }

  /** Without it the outcome does depend on the schedule: popping first fails, popping last
      succeeds. */
  lemma StrayPopIsRacy()
    ensures var k, s := StrayKernel(), StrayStart();
            && WellWired(k) && Inv(k, s)
            && Complete(k, s, [1, 0]) && Complete(k, s, [0, 1])
            && End(k, s, [1, 0]) == StrayState(Running(true), Crashed(NothingVisible), Queue(1, [[7]], None, None))
            && End(k, s, [0, 1]) == StrayState(Running(true), Running(true), Empty(1))
  {
    PopFirst();
    PopLast();
  }

  lemma PushFires(t1: Thread<bool>)
    ensures var s := StrayStart().(threads := StrayStart().threads[1 := t1]);
            && Enabled(StrayKernel(), s, 0)
            && Fire(StrayKernel(), s, 0) == StrayState(Running(true), t1, Queue(1, [[7]], None, None))
  {
    var q := StrayStart().buffers[0];
    assert q.blocks + [[7]] == [[7]];
    assert PushBlock(q) == Success(Queue(1, [[7]], None, None));
    var s := StrayStart().(threads := StrayStart().threads[1 := t1]);
    var s' := Fire(StrayKernel(), s, 0);
    assert s'.threads == map[0 := Running(true), 1 := t1];
    assert s'.buffers == map[0 := Queue(1, [[7]], None, None)];
  }

  lemma PopFirst()
    ensures var k, s := StrayKernel(), StrayStart();
            Complete(k, s, [1, 0])
            && End(k, s, [1, 0]) == StrayState(Running(true), Crashed(NothingVisible), Queue(1, [[7]], None, None))
  {
    var k, s := StrayKernel(), StrayStart();
    assert PopBlock(s.buffers[0]) == Failure(NothingVisible);
    var failed := s.(threads := s.threads[1 := Crashed(NothingVisible)]);
    var s1 := Fire(k, s, 1);
    assert s1.buffers == failed.buffers;
    assert s1 == failed;
    PushFires(Crashed(NothingVisible));
    var s2 := Fire(k, failed, 0);
    assert [1, 0][1..] == [0] && [0][1..] == [];
    assert IsRun(k, s2, []) && IsRun(k, failed, [0]);
    assert End(k, s2, []) == s2 && End(k, failed, [0]) == s2;
    assert Stuck(k, s2);
  }

  lemma PopLast()
    ensures var k, s := StrayKernel(), StrayStart();
            Complete(k, s, [0, 1]) && End(k, s, [0, 1]) == StrayState(Running(true), Running(true), Empty(1))
  {
    var k, s := StrayKernel(), StrayStart();
    PushFires(Running(false));
    assert s.threads[1 := Running(false)] == s.threads;
    var s1 := StrayState(Running(true), Running(false), Queue(1, [[7]], None, None));
    assert Fire(k, s, 0) == s1;
    assert [[7]][1..] == [];
    assert PopBlock(s1.buffers[0]) == Success(Empty(1));
    var s2 := Fire(k, s1, 1);
    assert s2.threads == map[0 := Running(true), 1 := Running(true)];
    assert s2.buffers == map[0 := Empty(1)];
    assert [0, 1][1..] == [1] && [1][1..] == [];
    assert IsRun(k, s2, []) && IsRun(k, s1, [1]);
    assert End(k, s2, []) == s2 && End(k, s1, [1]) == s2;
    assert Stuck(k, s2);
  }
}
