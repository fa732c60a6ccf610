/** The reader / compute / writer kernel of examples/eltwise_add.py as one core runs it: three
    threads over three dataflow buffers.  For every number of blocks and every buffer factor it
    never gets stuck, every schedule finishes, and the writer has written every sum in order. */
module Pipeline {
  import opened Wrappers
  import opened BlockState
  import opened DataflowQueue
  import opened Network
  import KernelSystem
  import S = Switching

  const READER: Tid := 0
  const COMPUTER: Tid := 1
  const WRITER: Tid := 2
  const A_DFB: Buf := 0
  const B_DFB: Buf := 1
  const OUT_DFB: Buf := 2

  /** One core's work: the blocks it visits, in loop order, and the buffer factor. */
  datatype Config<!T> = Config(blocks: nat, factor: nat, a: nat -> seq<T>, b: nat -> seq<T>,
                               add: (seq<T>, seq<T>) -> seq<T>, zeros: seq<T>)

  /** A thread's locals: block counter, position in the loop body, the operands a compute thread
      has read, and what a writer has written. */
  datatype Locals<T> = Locals(i: nat, pc: nat, left: seq<T>, right: seq<T>, written: seq<seq<T>>)

  function Code<T>(c: Config<T>, t: Tid, l: Locals<T>): Action<T> {
    if l.i >= c.blocks then Halt
    else if t == READER then
      match l.pc
      case 0 => Action.Reserve(A_DFB)
      case 1 => Action.Reserve(B_DFB)
      case 2 => Write(A_DFB, CopyDst, None)
      case 3 => Write(B_DFB, CopyDst, None)
      case 4 => Write(A_DFB, TxWait, Some(c.a(l.i)))
      case 5 => Write(B_DFB, TxWait, Some(c.b(l.i)))
      case 6 => Action.Push(B_DFB)
      case 7 => Action.Push(A_DFB)
      case _ => Halt
    else if t == COMPUTER then
      match l.pc
      case 0 => Action.Wait(A_DFB)
      case 1 => Action.Wait(B_DFB)
      case 2 => Action.Reserve(OUT_DFB)
      case 3 => Read(A_DFB, StoreSrc, None)
      case 4 => Read(B_DFB, StoreSrc, None)
      case 5 => Write(OUT_DFB, StoreDst, Some(c.add(l.left, l.right)))
      case 6 => Action.Push(OUT_DFB)
      case 7 => Action.Pop(B_DFB)
      case 8 => Action.Pop(A_DFB)
      case _ => Halt
    else if t == WRITER then
      match l.pc
      case 0 => Action.Wait(OUT_DFB)
      case 1 => Read(OUT_DFB, CopySrc, None)
      case 2 => Read(OUT_DFB, TxWait, None)
      case 3 => Action.Pop(OUT_DFB)
      case _ => Halt
    else Halt
  }

  function LastPc(t: Tid): nat {
    if t == READER then 7 else if t == COMPUTER then 8 else 3
  }

  function Resume<T>(t: Tid, l: Locals<T>, seen: seq<T>): Locals<T> {
    if l.pc >= LastPc(t) then Locals(l.i + 1, 0, [], [], l.written)
    else if t == COMPUTER && l.pc == 3 then l.(pc := 4, left := seen)
    else if t == COMPUTER && l.pc == 4 then l.(pc := 5, right := seen)
    else if t == WRITER && l.pc == 2 then l.(pc := 3, written := l.written + [seen])
    else l.(pc := l.pc + 1)
  }

  function KernelOf<T>(c: Config<T>): Kernel<Locals<T>, T> {
    Kernel(
      (t: Tid, l: Locals<T>) => Code(c, t, l),
      (t: Tid, l: Locals<T>, seen: seq<T>) => Resume(t, l, seen),
      (t: Tid) => if t == COMPUTER then COMPUTE else DM,
      (b: Buf) => c.zeros,
      (b: Buf) => if b == OUT_DFB then COMPUTER else READER,
      (b: Buf) => if b == OUT_DFB then WRITER else COMPUTER,
      {A_DFB, B_DFB, OUT_DFB})
  }

  // ----- The state as a function of the three program positions -----

  /** A position: block counter and place in the loop body. */
  datatype At = At(i: nat, pc: nat)

  function Sum<T>(c: Config<T>, j: nat): seq<T> {
    c.add(c.a(j), c.b(j))
  }

  function Sums<T>(c: Config<T>): nat -> seq<T> {
    (j: nat) => Sum(c, j)
  }

  function Between<T>(f: nat -> seq<T>, lo: nat, hi: nat): (s: seq<seq<T>>)
    ensures |s| == if lo <= hi then hi - lo else 0
  {
    seq(if lo <= hi then hi - lo else 0, (k: nat) => f(lo + k))
  }

  function PushedB(r: At): nat { r.i + (if r.pc == 7 then 1 else 0) }
  function PoppedB(m: At): nat { m.i + (if m.pc == 8 then 1 else 0) }
  function PushedOut(m: At): nat { m.i + (if m.pc >= 7 then 1 else 0) }

  function CopiedIn<T>(at: nat, from: nat, zeros: seq<T>, data: seq<T>): Option<Writing<T>> {
    if at < from then None
    else if at < from + 2 then Some(Writing(Initial(RESERVE, DM), zeros))
    else if at < from + 4 then Some(Writing(Protocol(RESERVE, DM, NAW, {TX_WAIT}), zeros))
    else Some(Writing(Protocol(RESERVE, DM, MR, {PUSH, COPY_SRC}), data))
  }

  function ReadBy(at: nat, from: nat): Option<Protocol> {
    if at < from then None
    else if at < from + 3 then Some(Initial(WAIT, COMPUTE))
    else Some(Protocol(WAIT, COMPUTE, RW, {STORE_SRC, STORE, STORE_ACC, POP}))
  }

  function QueueA<T>(c: Config<T>, r: At, m: At): Queue<T> {
    Queue(c.factor, Between(c.a, m.i, r.i), CopiedIn(r.pc, 1, c.zeros, c.a(r.i)), ReadBy(m.pc, 1))
  }

  function QueueB<T>(c: Config<T>, r: At, m: At): Queue<T> {
    Queue(c.factor, Between(c.b, PoppedB(m), PushedB(r)),
          if r.pc == 7 then None else CopiedIn(r.pc, 2, c.zeros, c.b(r.i)),
          if m.pc == 8 then None else ReadBy(m.pc, 2))
  }

  function QueueOut<T>(c: Config<T>, m: At, w: At): Queue<T> {
    Queue(c.factor, Between(Sums(c), w.i, PushedOut(m)),
          if m.pc < 3 || m.pc > 6 then None
          else if m.pc < 6 then Some(Writing(Initial(RESERVE, COMPUTE), c.zeros))
          else Some(Writing(Protocol(RESERVE, COMPUTE, MR, {STORE_SRC, PUSH}), Sum(c, m.i))),
          if w.pc == 0 then None
          else if w.pc == 1 then Some(Initial(WAIT, DM))
          else if w.pc == 2 then Some(Protocol(WAIT, DM, NAR, {TX_WAIT}))
          else Some(Protocol(WAIT, DM, RW, {COPY_DST, COPY_SRC, POP})))
  }

  function StateOf<T>(l0: Locals<T>, l1: Locals<T>, l2: Locals<T>, qa: Queue<T>, qb: Queue<T>, qo: Queue<T>)
    : State<Locals<T>, T>
  {
    State(map[READER := Running(l0), COMPUTER := Running(l1), WRITER := Running(l2)],
          map[A_DFB := qa, B_DFB := qb, OUT_DFB := qo])
  }

  function ReaderAt<T>(r: At): Locals<T> {
    Locals(r.i, r.pc, [], [], [])
  }

  function ComputerAt<T>(c: Config<T>, m: At): Locals<T> {
    Locals(m.i, m.pc, if m.pc >= 4 then c.a(m.i) else [], if m.pc >= 5 then c.b(m.i) else [], [])
  }

  function WriterAt<T>(c: Config<T>, w: At): Locals<T> {
    Locals(w.i, w.pc, [], [], Between(Sums(c), 0, w.i + (if w.pc == 3 then 1 else 0)))
  }

  function StateAt<T>(c: Config<T>, r: At, m: At, w: At): State<Locals<T>, T> {
    StateOf(ReaderAt(r), ComputerAt(c, m), WriterAt(c, w), QueueA(c, r, m), QueueB(c, r, m), QueueOut(c, m, w))
  }

  /** Which positions can occur together. */
  predicate Feasible<T>(c: Config<T>, r: At, m: At, w: At) {
    && r.pc <= 7 && m.pc <= 8 && w.pc <= 3
    && r.i <= c.blocks && m.i <= c.blocks && w.i <= c.blocks
    && (r.i == c.blocks ==> r.pc == 0) && (m.i == c.blocks ==> m.pc == 0) && (w.i == c.blocks ==> w.pc == 0)
    && m.i + (if m.pc >= 1 then 1 else 0) <= r.i
    && m.i + (if m.pc >= 2 then 1 else 0) <= PushedB(r)
    && w.i + (if w.pc >= 1 then 1 else 0) <= PushedOut(m)
    && (r.i + (if r.pc >= 1 then 1 else 0)) - m.i <= c.factor
    && (r.i + (if r.pc >= 2 then 1 else 0)) - PoppedB(m) <= c.factor
    && (m.i + (if m.pc >= 3 then 1 else 0)) - w.i <= c.factor
  }

  function Advance(t: Tid, p: At): At {
    if p.pc >= LastPc(t) then At(p.i + 1, 0) else At(p.i, p.pc + 1)
  }

  lemma BetweenPush<T>(f: nat -> seq<T>, lo: nat, hi: nat)
    requires lo <= hi
    ensures Between(f, lo, hi) + [f(hi)] == Between(f, lo, hi + 1)
  {
  }

  lemma BetweenPop<T>(f: nat -> seq<T>, lo: nat, hi: nat)
    requires lo < hi
    ensures Between(f, lo, hi)[0] == f(lo) && Between(f, lo, hi)[1..] == Between(f, lo + 1, hi)
  {
  }

  // ----- One step of each thread -----

  /** Which buffer the next operation touches and what it makes of it. */
  function QueueOf<T>(c: Config<T>, b: Buf, r: At, m: At, w: At): Queue<T> {
    if b == A_DFB then QueueA(c, r, m) else if b == B_DFB then QueueB(c, r, m) else QueueOut(c, m, w)
  }

  /** The reader moves unless its buffer is full. */
  predicate ReaderFree<T>(c: Config<T>, r: At, m: At) {
    (r.pc == 0 ==> r.i - m.i < c.factor) && (r.pc == 1 ==> r.i - PoppedB(m) < c.factor)
  }

  /** The compute thread moves unless an input is empty or its output is full. */
  predicate ComputeFree<T>(c: Config<T>, r: At, m: At, w: At) {
    && (m.pc == 0 ==> m.i < r.i) && (m.pc == 1 ==> m.i < PushedB(r))
    && (m.pc == 2 ==> m.i - w.i < c.factor)
  }

  predicate WriterFree(m: At, w: At) {
    w.pc == 0 ==> w.i < PushedOut(m)
  }

  /** Thread t is enabled exactly when `free`, and its step leads to the given positions. */
  ghost predicate Moves<T>(c: Config<T>, t: Tid, r: At, m: At, w: At, free: bool, r': At, m': At, w': At) {
    var k, s := KernelOf(c), StateAt(c, r, m, w);
    && (Enabled(k, s, t) <==> free)
    && (free ==> Fire(k, s, t) == StateAt(c, r', m', w') && !StrayPop(k, s, t))
  }

  function LocalsAt<T>(c: Config<T>, t: Tid, r: At, m: At, w: At): Locals<T> {
    if t == READER then ReaderAt(r) else if t == COMPUTER then ComputerAt(c, m) else WriterAt(c, w)
  }

  /** Thread t's action `a` changes its own locals and one buffer as the new positions say. */
  ghost predicate StepsTo<T>(c: Config<T>, t: Tid, r: At, m: At, w: At, a: Action<T>, free: bool,
                             r': At, m': At, w': At)
  {
    var l := LocalsAt(c, t, r, m, w);
    && Code(c, t, l) == a && !a.Halt? && a.b in {A_DFB, B_DFB, OUT_DFB}
    && var q, q' := QueueOf(c, a.b, r, m, w), QueueOf(c, a.b, r', m', w');
    && Effect(KernelOf(c).kind(t), KernelOf(c).zeros(a.b), a, q)
       == (if free then Success(q') else Failure(WouldBlock))
    && (a.Pop? ==> q.reader.Some?)
    && LocalsAt(c, t, r', m', w') == Resume(t, l, Seen(a, q))
  }

  ghost predicate OthersStay<T>(c: Config<T>, t: Tid, r: At, m: At, w: At, b: Buf, r': At, m': At, w': At) {
    && (t != READER ==> r' == r) && (t != COMPUTER ==> m' == m) && (t != WRITER ==> w' == w)
    && (b != A_DFB ==> QueueA(c, r', m') == QueueA(c, r, m))
    && (b != B_DFB ==> QueueB(c, r', m') == QueueB(c, r, m))
    && (b != OUT_DFB ==> QueueOut(c, m', w') == QueueOut(c, m, w))
  }

  /** The state's entries, without its maps. */
  ghost predicate Holds<T>(c: Config<T>, s: State<Locals<T>, T>, r: At, m: At, w: At) {
    && (forall t | t in {READER, COMPUTER, WRITER} ::
          t in s.threads && s.threads[t] == Running(LocalsAt(c, t, r, m, w)))
    && (forall b | b in {A_DFB, B_DFB, OUT_DFB} :: b in s.buffers && s.buffers[b] == QueueOf(c, b, r, m, w))
    && s.threads.Keys == {READER, COMPUTER, WRITER} && s.buffers.Keys == {A_DFB, B_DFB, OUT_DFB}
  }

  lemma StateHolds<T>(c: Config<T>, r: At, m: At, w: At)
    ensures Holds(c, StateAt(c, r, m, w), r, m, w)
  {
  }

  lemma MoveByOne<T>(c: Config<T>, t: Tid, r: At, m: At, w: At, a: Action<T>, free: bool, r': At, m': At, w': At)
    requires t in {READER, COMPUTER, WRITER}
    requires StepsTo(c, t, r, m, w, a, free, r', m', w')
    requires OthersStay(c, t, r, m, w, a.b, r', m', w')
    ensures Moves(c, t, r, m, w, free, r', m', w')
  {
    StateHolds(c, r, m, w);
    StateHolds(c, r', m', w');
    MoveBetween(c, t, r, m, w, a, free, r', m', w', StateAt(c, r, m, w), StateAt(c, r', m', w'));
  }

  lemma RestHolds<T>(c: Config<T>, t: Tid, r: At, m: At, w: At, b: Buf, r': At, m': At, w': At,
                     s: State<Locals<T>, T>, s': State<Locals<T>, T>)
    requires OthersStay(c, t, r, m, w, b, r', m', w')
    requires Holds(c, s, r, m, w) && Holds(c, s', r', m', w')
    ensures s'.threads.Keys == s.threads.Keys && s'.buffers.Keys == s.buffers.Keys
    ensures forall u | u in s.threads && u != t :: s'.threads[u] == s.threads[u]
    ensures forall x | x in s.buffers && x != b :: s'.buffers[x] == s.buffers[x]
  {
  }

  lemma MoveBetween<T>(c: Config<T>, t: Tid, r: At, m: At, w: At, a: Action<T>, free: bool,
                       r': At, m': At, w': At, s: State<Locals<T>, T>, s': State<Locals<T>, T>)
    requires t in {READER, COMPUTER, WRITER}
    requires StepsTo(c, t, r, m, w, a, free, r', m', w')
    requires OthersStay(c, t, r, m, w, a.b, r', m', w')
    requires Holds(c, s, r, m, w) && Holds(c, s', r', m', w')
    ensures Enabled(KernelOf(c), s, t) <==> free
    ensures free ==> Fire(KernelOf(c), s, t) == s' && !StrayPop(KernelOf(c), s, t)
  {
    var l, q := LocalsAt(c, t, r, m, w), QueueOf(c, a.b, r, m, w);
    assert KernelOf(c).next(t, l) == a;
    assert KernelOf(c).resume(t, l, Seen(a, q)) == Resume(t, l, Seen(a, q));
    RestHolds(c, t, r, m, w, a.b, r', m', w', s, s');
    OneMove(KernelOf(c), s, t, l, a, q, free, QueueOf(c, a.b, r', m', w'), s');
  }

  /** The buffer a step does not touch stays as it is. */
  lemma ReaderFrame<T>(c: Config<T>, r: At, m: At)
    requires r.pc <= 7
    ensures var r' := Advance(READER, r);
            if r.pc in {0, 2, 4, 7} then QueueB(c, r', m) == QueueB(c, r, m) else QueueA(c, r', m) == QueueA(c, r, m)
  {
  }

  lemma ComputeFrame<T>(c: Config<T>, r: At, m: At, w: At)
    requires m.pc <= 8
    ensures var m' := Advance(COMPUTER, m);
            && (m.pc !in {0, 3, 8} ==> QueueA(c, r, m') == QueueA(c, r, m))
            && (m.pc !in {1, 4, 7} ==> QueueB(c, r, m') == QueueB(c, r, m))
            && (m.pc !in {2, 5, 6} ==> QueueOut(c, m', w) == QueueOut(c, m, w))
  {
  }

  lemma ReaderReservesA<T>(c: Config<T>, r: At, m: At, w: At)
    requires Feasible(c, r, m, w) && r.i < c.blocks && r.pc == 0
    ensures Moves(c, READER, r, m, w, ReaderFree(c, r, m), Advance(READER, r), m, w)
  {
    var r' := Advance(READER, r);
    ReaderFrame(c, r, m);
    MoveByOne(c, READER, r, m, w, Action.Reserve(A_DFB), ReaderFree(c, r, m), r', m, w);
  }

  lemma ReaderReservesB<T>(c: Config<T>, r: At, m: At, w: At)
    requires Feasible(c, r, m, w) && r.i < c.blocks && r.pc == 1
    ensures Moves(c, READER, r, m, w, ReaderFree(c, r, m), Advance(READER, r), m, w)
  {
    var r' := Advance(READER, r);
    ReaderFrame(c, r, m);
    MoveByOne(c, READER, r, m, w, Action.Reserve(B_DFB), ReaderFree(c, r, m), r', m, w);
  }

  lemma ReaderStartsCopyA<T>(c: Config<T>, r: At, m: At, w: At)
    requires Feasible(c, r, m, w) && r.i < c.blocks && r.pc == 2
    ensures Moves(c, READER, r, m, w, ReaderFree(c, r, m), Advance(READER, r), m, w)
  {
    var r' := Advance(READER, r);
    ReaderFrame(c, r, m);
    MoveByOne(c, READER, r, m, w, Write(A_DFB, CopyDst, None), ReaderFree(c, r, m), r', m, w);
  }

  lemma ReaderStartsCopyB<T>(c: Config<T>, r: At, m: At, w: At)
    requires Feasible(c, r, m, w) && r.i < c.blocks && r.pc == 3
    ensures Moves(c, READER, r, m, w, ReaderFree(c, r, m), Advance(READER, r), m, w)
  {
    var r' := Advance(READER, r);
    ReaderFrame(c, r, m);
    MoveByOne(c, READER, r, m, w, Write(B_DFB, CopyDst, None), ReaderFree(c, r, m), r', m, w);
  }

  lemma ReaderFinishesCopyA<T>(c: Config<T>, r: At, m: At, w: At)
    requires Feasible(c, r, m, w) && r.i < c.blocks && r.pc == 4
    ensures Moves(c, READER, r, m, w, ReaderFree(c, r, m), Advance(READER, r), m, w)
  {
    var r' := Advance(READER, r);
    ReaderFrame(c, r, m);
    MoveByOne(c, READER, r, m, w, Write(A_DFB, TxWait, Some(c.a(r.i))), ReaderFree(c, r, m), r', m, w);
  }

  lemma ReaderFinishesCopyB<T>(c: Config<T>, r: At, m: At, w: At)
    requires Feasible(c, r, m, w) && r.i < c.blocks && r.pc == 5
    ensures Moves(c, READER, r, m, w, ReaderFree(c, r, m), Advance(READER, r), m, w)
  {
    var r' := Advance(READER, r);
    ReaderFrame(c, r, m);
    MoveByOne(c, READER, r, m, w, Write(B_DFB, TxWait, Some(c.b(r.i))), ReaderFree(c, r, m), r', m, w);
  }

  lemma ReaderPushesB<T>(c: Config<T>, r: At, m: At, w: At)
    requires Feasible(c, r, m, w) && r.i < c.blocks && r.pc == 6
    ensures Moves(c, READER, r, m, w, ReaderFree(c, r, m), Advance(READER, r), m, w)
  {
    var r' := Advance(READER, r);
    ReaderFrame(c, r, m);
    BetweenPush(c.b, PoppedB(m), r.i);
    MoveByOne(c, READER, r, m, w, Action.Push(B_DFB), ReaderFree(c, r, m), r', m, w);
  }

  lemma ReaderPushesA<T>(c: Config<T>, r: At, m: At, w: At)
    requires Feasible(c, r, m, w) && r.i < c.blocks && r.pc == 7
    ensures Moves(c, READER, r, m, w, ReaderFree(c, r, m), Advance(READER, r), m, w)
  {
    var r' := Advance(READER, r);
    ReaderFrame(c, r, m);
    BetweenPush(c.a, m.i, r.i);
    MoveByOne(c, READER, r, m, w, Action.Push(A_DFB), ReaderFree(c, r, m), r', m, w);
  }

  lemma ComputeWaitsA<T>(c: Config<T>, r: At, m: At, w: At)
    requires Feasible(c, r, m, w) && m.i < c.blocks && m.pc == 0
    ensures Moves(c, COMPUTER, r, m, w, ComputeFree(c, r, m, w), r, Advance(COMPUTER, m), w)
  {
    var m' := Advance(COMPUTER, m);
    ComputeFrame(c, r, m, w);
    MoveByOne(c, COMPUTER, r, m, w, Action.Wait(A_DFB), ComputeFree(c, r, m, w), r, m', w);
  }

  lemma ComputeWaitsB<T>(c: Config<T>, r: At, m: At, w: At)
    requires Feasible(c, r, m, w) && m.i < c.blocks && m.pc == 1
    ensures Moves(c, COMPUTER, r, m, w, ComputeFree(c, r, m, w), r, Advance(COMPUTER, m), w)
  {
    var m' := Advance(COMPUTER, m);
    ComputeFrame(c, r, m, w);
    MoveByOne(c, COMPUTER, r, m, w, Action.Wait(B_DFB), ComputeFree(c, r, m, w), r, m', w);
  }

  lemma ComputeReserves<T>(c: Config<T>, r: At, m: At, w: At)
    requires Feasible(c, r, m, w) && m.i < c.blocks && m.pc == 2
    ensures Moves(c, COMPUTER, r, m, w, ComputeFree(c, r, m, w), r, Advance(COMPUTER, m), w)
  {
    var m' := Advance(COMPUTER, m);
    ComputeFrame(c, r, m, w);
    MoveByOne(c, COMPUTER, r, m, w, Action.Reserve(OUT_DFB), ComputeFree(c, r, m, w), r, m', w);
  }

  lemma ComputeReadsA<T>(c: Config<T>, r: At, m: At, w: At)
    requires Feasible(c, r, m, w) && m.i < c.blocks && m.pc == 3
    ensures Moves(c, COMPUTER, r, m, w, ComputeFree(c, r, m, w), r, Advance(COMPUTER, m), w)
  {
    var m' := Advance(COMPUTER, m);
    ComputeFrame(c, r, m, w);
    BetweenPop(c.a, m.i, r.i);
    MoveByOne(c, COMPUTER, r, m, w, Read(A_DFB, StoreSrc, None), ComputeFree(c, r, m, w), r, m', w);
  }

  lemma ComputeReadsB<T>(c: Config<T>, r: At, m: At, w: At)
    requires Feasible(c, r, m, w) && m.i < c.blocks && m.pc == 4
    ensures Moves(c, COMPUTER, r, m, w, ComputeFree(c, r, m, w), r, Advance(COMPUTER, m), w)
  {
    var m' := Advance(COMPUTER, m);
    ComputeFrame(c, r, m, w);
    BetweenPop(c.b, PoppedB(m), PushedB(r));
    MoveByOne(c, COMPUTER, r, m, w, Read(B_DFB, StoreSrc, None), ComputeFree(c, r, m, w), r, m', w);
  }

  lemma ComputeStores<T>(c: Config<T>, r: At, m: At, w: At)
    requires Feasible(c, r, m, w) && m.i < c.blocks && m.pc == 5
    ensures Moves(c, COMPUTER, r, m, w, ComputeFree(c, r, m, w), r, Advance(COMPUTER, m), w)
  {
    var m' := Advance(COMPUTER, m);
    ComputeFrame(c, r, m, w);
    MoveByOne(c, COMPUTER, r, m, w, Write(OUT_DFB, StoreDst, Some(Sum(c, m.i))), ComputeFree(c, r, m, w), r, m', w);
  }

  lemma ComputePushes<T>(c: Config<T>, r: At, m: At, w: At)
    requires Feasible(c, r, m, w) && m.i < c.blocks && m.pc == 6
    ensures Moves(c, COMPUTER, r, m, w, ComputeFree(c, r, m, w), r, Advance(COMPUTER, m), w)
  {
    var m' := Advance(COMPUTER, m);
    ComputeFrame(c, r, m, w);
    BetweenPush(Sums(c), w.i, m.i);
    MoveByOne(c, COMPUTER, r, m, w, Action.Push(OUT_DFB), ComputeFree(c, r, m, w), r, m', w);
  }

  lemma ComputePopsB<T>(c: Config<T>, r: At, m: At, w: At)
    requires Feasible(c, r, m, w) && m.i < c.blocks && m.pc == 7
    ensures Moves(c, COMPUTER, r, m, w, ComputeFree(c, r, m, w), r, Advance(COMPUTER, m), w)
  {
    var m' := Advance(COMPUTER, m);
    ComputeFrame(c, r, m, w);
    BetweenPop(c.b, m.i, PushedB(r));
    MoveByOne(c, COMPUTER, r, m, w, Action.Pop(B_DFB), ComputeFree(c, r, m, w), r, m', w);
  }

  lemma ComputePopsA<T>(c: Config<T>, r: At, m: At, w: At)
    requires Feasible(c, r, m, w) && m.i < c.blocks && m.pc == 8
    ensures Moves(c, COMPUTER, r, m, w, ComputeFree(c, r, m, w), r, Advance(COMPUTER, m), w)
  {
    var m' := Advance(COMPUTER, m);
    ComputeFrame(c, r, m, w);
    BetweenPop(c.a, m.i, r.i);
    MoveByOne(c, COMPUTER, r, m, w, Action.Pop(A_DFB), ComputeFree(c, r, m, w), r, m', w);
  }

  lemma WriterWaits<T>(c: Config<T>, r: At, m: At, w: At)
    requires Feasible(c, r, m, w) && w.i < c.blocks && w.pc == 0
    ensures Moves(c, WRITER, r, m, w, WriterFree(m, w), r, m, Advance(WRITER, w))
  {
    var w' := Advance(WRITER, w);
    MoveByOne(c, WRITER, r, m, w, Action.Wait(OUT_DFB), WriterFree(m, w), r, m, w');
  }

  lemma WriterStartsCopy<T>(c: Config<T>, r: At, m: At, w: At)
    requires Feasible(c, r, m, w) && w.i < c.blocks && w.pc == 1
    ensures Moves(c, WRITER, r, m, w, WriterFree(m, w), r, m, Advance(WRITER, w))
  {
    var w' := Advance(WRITER, w);
    MoveByOne(c, WRITER, r, m, w, Read(OUT_DFB, CopySrc, None), WriterFree(m, w), r, m, w');
  }

  lemma WriterFinishesCopy<T>(c: Config<T>, r: At, m: At, w: At)
    requires Feasible(c, r, m, w) && w.i < c.blocks && w.pc == 2
    ensures Moves(c, WRITER, r, m, w, WriterFree(m, w), r, m, Advance(WRITER, w))
  {
    var w' := Advance(WRITER, w);
    BetweenPush(Sums(c), 0, w.i);
    MoveByOne(c, WRITER, r, m, w, Read(OUT_DFB, TxWait, None), WriterFree(m, w), r, m, w');
  }

  lemma WriterPops<T>(c: Config<T>, r: At, m: At, w: At)
    requires Feasible(c, r, m, w) && w.i < c.blocks && w.pc == 3
    ensures Moves(c, WRITER, r, m, w, WriterFree(m, w), r, m, Advance(WRITER, w))
  {
    var w' := Advance(WRITER, w);
    BetweenPop(Sums(c), w.i, PushedOut(m));
    MoveByOne(c, WRITER, r, m, w, Action.Pop(OUT_DFB), WriterFree(m, w), r, m, w');
  }

  lemma ReaderFires<T>(c: Config<T>, r: At, m: At, w: At)
    requires Feasible(c, r, m, w)
    ensures Moves(c, READER, r, m, w, r.i < c.blocks && ReaderFree(c, r, m), Advance(READER, r), m, w)
  {
    if r.i < c.blocks {
      match r.pc
      case 0 => ReaderReservesA(c, r, m, w);
      case 1 => ReaderReservesB(c, r, m, w);
      case 2 => ReaderStartsCopyA(c, r, m, w);
      case 3 => ReaderStartsCopyB(c, r, m, w);
      case 4 => ReaderFinishesCopyA(c, r, m, w);
      case 5 => ReaderFinishesCopyB(c, r, m, w);
      case 6 => ReaderPushesB(c, r, m, w);
      case 7 => ReaderPushesA(c, r, m, w);
    }
  }

  lemma ComputeFires<T>(c: Config<T>, r: At, m: At, w: At)
    requires Feasible(c, r, m, w)
    ensures Moves(c, COMPUTER, r, m, w, m.i < c.blocks && ComputeFree(c, r, m, w), r, Advance(COMPUTER, m), w)
  {
    if m.i < c.blocks {
      match m.pc
      case 0 => ComputeWaitsA(c, r, m, w);
      case 1 => ComputeWaitsB(c, r, m, w);
      case 2 => ComputeReserves(c, r, m, w);
      case 3 => ComputeReadsA(c, r, m, w);
      case 4 => ComputeReadsB(c, r, m, w);
      case 5 => ComputeStores(c, r, m, w);
      case 6 => ComputePushes(c, r, m, w);
      case 7 => ComputePopsB(c, r, m, w);
      case 8 => ComputePopsA(c, r, m, w);
    }
  }

  lemma WriterFires<T>(c: Config<T>, r: At, m: At, w: At)
    requires Feasible(c, r, m, w)
    ensures Moves(c, WRITER, r, m, w, w.i < c.blocks && WriterFree(m, w), r, m, Advance(WRITER, w))
  {
    if w.i < c.blocks {
      match w.pc
      case 0 => WriterWaits(c, r, m, w);
      case 1 => WriterStartsCopy(c, r, m, w);
      case 2 => WriterFinishesCopy(c, r, m, w);
      case 3 => WriterPops(c, r, m, w);
    }
  }

  // ----- Every schedule -----

  function ReaderTaken(r: At): nat { 8 * r.i + r.pc }
  function ComputeTaken(m: At): nat { 9 * m.i + m.pc }
  function WriterTaken(w: At): nat { 4 * w.i + w.pc }

  function Taken(r: At, m: At, w: At): nat {
    ReaderTaken(r) + ComputeTaken(m) + WriterTaken(w)
  }

  lemma AdvanceStaysFeasible<T>(c: Config<T>, r: At, m: At, w: At)
    requires Feasible(c, r, m, w)
    ensures r.i < c.blocks && ReaderFree(c, r, m) ==> Feasible(c, Advance(READER, r), m, w)
    ensures m.i < c.blocks && ComputeFree(c, r, m, w) ==> Feasible(c, r, Advance(COMPUTER, m), w)
    ensures w.i < c.blocks && WriterFree(m, w) ==> Feasible(c, r, m, Advance(WRITER, w))
  {
  }

  lemma OnlyThreeThreads<T>(c: Config<T>, r: At, m: At, w: At, t: Tid)
    requires Enabled(KernelOf(c), StateAt(c, r, m, w), t)
    ensures t in {READER, COMPUTER, WRITER}
  {
  }

  /** Thread t's step leads from one feasible triple of positions to the next, without stealing. */
  ghost predicate StepsFeasibly<T>(c: Config<T>, t: Tid, r: At, m: At, w: At, r': At, m': At, w': At)
    requires Enabled(KernelOf(c), StateAt(c, r, m, w), t)
  {
    && Feasible(c, r', m', w') && Taken(r', m', w') == Taken(r, m, w) + 1
    && Fire(KernelOf(c), StateAt(c, r, m, w), t) == StateAt(c, r', m', w')
    && !StrayPop(KernelOf(c), StateAt(c, r, m, w), t)
  }

  lemma ReaderStep<T>(c: Config<T>, r: At, m: At, w: At)
    requires Feasible(c, r, m, w) && Enabled(KernelOf(c), StateAt(c, r, m, w), READER)
    ensures StepsFeasibly(c, READER, r, m, w, Advance(READER, r), m, w)
  {
    ReaderFires(c, r, m, w);
    AdvanceStaysFeasible(c, r, m, w);
  }

  lemma ComputeStep<T>(c: Config<T>, r: At, m: At, w: At)
    requires Feasible(c, r, m, w) && Enabled(KernelOf(c), StateAt(c, r, m, w), COMPUTER)
    ensures StepsFeasibly(c, COMPUTER, r, m, w, r, Advance(COMPUTER, m), w)
  {
    ComputeFires(c, r, m, w);
    AdvanceStaysFeasible(c, r, m, w);
  }

  lemma WriterStep<T>(c: Config<T>, r: At, m: At, w: At)
    requires Feasible(c, r, m, w) && Enabled(KernelOf(c), StateAt(c, r, m, w), WRITER)
    ensures StepsFeasibly(c, WRITER, r, m, w, r, m, Advance(WRITER, w))
  {
    WriterFires(c, r, m, w);
    AdvanceStaysFeasible(c, r, m, w);
  }

  lemma OneStep<T>(c: Config<T>, r: At, m: At, w: At, t: Tid)
    returns (r': At, m': At, w': At)
    requires Feasible(c, r, m, w) && Enabled(KernelOf(c), StateAt(c, r, m, w), t)
    ensures StepsFeasibly(c, t, r, m, w, r', m', w')
  {
    OnlyThreeThreads(c, r, m, w, t);
    r', m', w' := r, m, w;
    if t == READER {
      ReaderStep(c, r, m, w);
      r' := Advance(READER, r);
    } else if t == COMPUTER {
      ComputeStep(c, r, m, w);
      m' := Advance(COMPUTER, m);
    } else {
      WriterStep(c, r, m, w);
      w' := Advance(WRITER, w);
    }
  }

  /** Every run stays on the feasible positions, and pops only what was waited for. */
  lemma {:induction false} RunsStayFeasible<T>(c: Config<T>, s: State<Locals<T>, T>, r: At, m: At, w: At,
                                               run: seq<Tid>)
    returns (r': At, m': At, w': At)
    requires s == StateAt(c, r, m, w) && Feasible(c, r, m, w) && IsRun(KernelOf(c), s, run)
    ensures Feasible(c, r', m', w') && Taken(r', m', w') == Taken(r, m, w) + |run|
    ensures End(KernelOf(c), s, run) == StateAt(c, r', m', w')
    ensures Disciplined(KernelOf(c), s, run)
    decreases |run|
  {
    if run == [] {
      r', m', w' := r, m, w;
    } else {
      var r1, m1, w1 := OneStep(c, r, m, w, run[0]);
      r', m', w' := RunsStayFeasible(c, Fire(KernelOf(c), s, run[0]), r1, m1, w1, run[1..]);
    }
  }

  /** Three threads at their first line and three empty buffers. */
  function Start<T>(c: Config<T>): State<Locals<T>, T> {
    StateAt(c, At(0, 0), At(0, 0), At(0, 0))
  }

  lemma StartIsFresh<T>(c: Config<T>)
    ensures Start(c).threads.Keys == {READER, COMPUTER, WRITER}
    ensures Start(c).buffers.Keys == {A_DFB, B_DFB, OUT_DFB}
    ensures forall t | t in Start(c).threads :: Start(c).threads[t] == Running(Locals(0, 0, [], [], []))
    ensures forall b | b in Start(c).buffers :: Start(c).buffers[b] == Empty(c.factor)
  {
    var z := At(0, 0);
    assert QueueA(c, z, z) == Empty(c.factor);
    assert QueueB(c, z, z) == Empty(c.factor);
    assert QueueOut(c, z, z) == Empty(c.factor);
  }

  /** No feasible state is stuck before all three threads are done, whatever the buffer factor. */
  lemma SomeoneCanMove<T>(c: Config<T>, r: At, m: At, w: At)
    requires Feasible(c, r, m, w) && c.factor >= 1
    ensures Stuck(KernelOf(c), StateAt(c, r, m, w)) <==> r.i == m.i == w.i == c.blocks
  {
    ReaderFires(c, r, m, w);
    ComputeFires(c, r, m, w);
    WriterFires(c, r, m, w);
    if r.i == m.i == w.i == c.blocks {
      forall t: Tid
        ensures !Enabled(KernelOf(c), StateAt(c, r, m, w), t)
      {
        assert t in StateAt(c, r, m, w).threads ==> t in {READER, COMPUTER, WRITER};
      }
    }
  }

  /** The end of the kernel: every thread halted, every buffer empty with nothing pending, and the
      sums written. */
  ghost predicate Finished<T>(c: Config<T>, s: State<Locals<T>, T>) {
    && s.threads.Keys == {READER, COMPUTER, WRITER}
    && (forall t | t in s.threads :: s.threads[t].Running? && KernelOf(c).next(t, s.threads[t].local).Halt?)
    && (forall b | b in {A_DFB, B_DFB, OUT_DFB} :: b in s.buffers && s.buffers[b] == Empty(c.factor))
    && var written := s.threads[WRITER].local.written;
    && |written| == c.blocks
    && forall j: nat | j < c.blocks :: written[j] == c.add(c.a(j), c.b(j))
  }

  lemma LastPositionIsFinished<T>(c: Config<T>)
    ensures var z := At(c.blocks, 0); Finished(c, StateAt(c, z, z, z))
  {
    var z := At(c.blocks, 0);
    assert QueueA(c, z, z) == Empty(c.factor);
    assert QueueB(c, z, z) == Empty(c.factor);
    assert QueueOut(c, z, z) == Empty(c.factor);
  }

  lemma KernelIsWired<T(!new)>(c: Config<T>)
    ensures WellWired(KernelOf(c)) && Network.Inv(KernelOf(c), Start(c))
  {
    StartIsFresh(c);
    forall t: Tid, l: Locals<T>
      ensures var a := KernelOf(c).next(t, l);
              a.Halt? || (a.b in KernelOf(c).buffers
                && t == (if ProducerSide(a) then KernelOf(c).producer(a.b) else KernelOf(c).consumer(a.b)))
    {
      assert KernelOf(c).next(t, l) == Code(c, t, l);
    }
  }

  lemma DoneWhenAllTaken<T>(c: Config<T>, r: At, m: At, w: At)
    requires Feasible(c, r, m, w)
    ensures Taken(r, m, w) <= 21 * c.blocks
    ensures Taken(r, m, w) == 21 * c.blocks <==> r.i == m.i == w.i == c.blocks
    ensures r.i == m.i == w.i == c.blocks ==> r == m == w == At(c.blocks, 0)
  {
  }

  ghost predicate NoErrors<T>(s: State<Locals<T>, T>) {
    forall t | t in s.threads :: s.threads[t].Running?
  }

  lemma FeasibleHasNoErrors<T>(c: Config<T>, r: At, m: At, w: At)
    ensures NoErrors(StateAt(c, r, m, w))
  {
  }

  /** From any feasible positions, `before` steps after the start. */
  lemma FinishesFrom<T>(c: Config<T>, r: At, m: At, w: At, before: nat, s: State<Locals<T>, T>, run: seq<Tid>,
                        end: State<Locals<T>, T>)
    requires Feasible(c, r, m, w) && c.factor >= 1 && s == StateAt(c, r, m, w) && before == Taken(r, m, w)
    requires IsRun(KernelOf(c), s, run) && end == End(KernelOf(c), s, run)
    ensures before + |run| <= 21 * c.blocks
    ensures Stuck(KernelOf(c), end) <==> before + |run| == 21 * c.blocks
    ensures Stuck(KernelOf(c), end) ==> Finished(c, end)
    ensures NoErrors(end)
  {
    var r', m', w' := RunsStayFeasible(c, s, r, m, w, run);
    StuckWhenAllTaken(c, r', m', w', end);
  }

  lemma StuckWhenAllTaken<T>(c: Config<T>, r: At, m: At, w: At, s: State<Locals<T>, T>)
    requires Feasible(c, r, m, w) && c.factor >= 1 && s == StateAt(c, r, m, w)
    ensures Taken(r, m, w) <= 21 * c.blocks
    ensures Stuck(KernelOf(c), s) <==> Taken(r, m, w) == 21 * c.blocks
    ensures Stuck(KernelOf(c), s) ==> Finished(c, s)
    ensures NoErrors(s)
  {
    FeasibleHasNoErrors(c, r, m, w);
    SomeoneCanMove(c, r, m, w);
    DoneWhenAllTaken(c, r, m, w);
    LastPositionIsFinished(c);
  }

  lemma StartIsFeasible<T>(c: Config<T>) returns (r: At, m: At, w: At, taken: nat)
    ensures Feasible(c, r, m, w) && taken == Taken(r, m, w) == 0 && Start(c) == StateAt(c, r, m, w)
  {
    r, m, w, taken := At(0, 0), At(0, 0), At(0, 0), 0;
  }

  /** Termination and deadlock freedom: a run of any schedule takes at most 21 steps per block,
      and the state it reaches is stuck only when it has taken them all. */
  lemma EveryScheduleFinishes<T>(c: Config<T>, run: seq<Tid>, end: State<Locals<T>, T>)
    requires c.factor >= 1
    requires IsRun(KernelOf(c), Start(c), run) && end == End(KernelOf(c), Start(c), run)
    ensures |run| <= 21 * c.blocks
    ensures Stuck(KernelOf(c), end) <==> |run| == 21 * c.blocks
  {
    var r, m, w, taken := StartIsFeasible(c);
    FinishesFrom(c, r, m, w, taken, Start(c), run, end);
  }

  /** No run meets an error, and every complete one ends with all buffers empty, nothing pending,
      and exactly the sums of the operand blocks written, in order. */
  lemma CompleteRunsAreCorrect<T>(c: Config<T>, run: seq<Tid>, end: State<Locals<T>, T>)
    requires c.factor >= 1
    requires IsRun(KernelOf(c), Start(c), run) && end == End(KernelOf(c), Start(c), run)
    ensures NoErrors(end)
    ensures Stuck(KernelOf(c), end) ==> Finished(c, end)
  {
    var r, m, w, taken := StartIsFeasible(c);
    FinishesFrom(c, r, m, w, taken, Start(c), run, end);
  }

  // ----- Under the scheduler -----

  function StepsLeft<T>(c: Config<T>): (Tid, Locals<T>) -> nat {
    (t: Tid, l: Locals<T>) =>
      if l.i >= c.blocks || l.pc > 9 then 0 else 10 * (c.blocks - l.i) - l.pc
  }

  lemma KernelIsFinite<T(!new)>(c: Config<T>)
    ensures KernelSystem.FiniteThreads(KernelOf(c), StepsLeft(c))
  {
    forall t: Tid, l: Locals<T>, seen: seq<T> | !KernelOf(c).next(t, l).Halt?
      ensures StepsLeft(c)(t, KernelOf(c).resume(t, l, seen)) < StepsLeft(c)(t, l)
    {
      assert !Code(c, t, l).Halt?;
      assert KernelOf(c).resume(t, l, seen) == Resume(t, l, seen);
      assert l.pc <= LastPc(t);
    }
  }

  /** The kernel as the scheduler sees it. */
  function Scheduled<T>(c: Config<T>): S.System<State<Locals<T>, T>> {
    KernelSystem.SystemOf(KernelOf(c), StepsLeft(c), [READER, COMPUTER, WRITER])
  }

  lemma StuckAgrees<T(!new)>(c: Config<T>, e: State<Locals<T>, T>)
    requires WellWired(KernelOf(c)) && Scheduled(c).inv(e)
    requires forall t :: !S.Enabled(Scheduled(c), e, t)
    ensures Stuck(KernelOf(c), e)
  {
    forall t
      ensures !Enabled(KernelOf(c), e, t)
    {
      KernelSystem.EnabledAgrees(KernelOf(c), StepsLeft(c), [READER, COMPUTER, WRITER], e, t);
    }
  }

  lemma FinishedHasHalted<T>(c: Config<T>, e: State<Locals<T>, T>)
    requires Finished(c, e)
    ensures forall t | t in {READER, COMPUTER, WRITER} :: Scheduled(c).halted(e, t)
  {
  }

  /** Whichever algorithm the scheduler uses, the kernel is one it can run, no operation of it
      ever fails, and the only end without a runnable thread is the finished kernel, in which
      every thread has halted; so neither a failure nor a deadlock is ever reported. */
  lemma EitherAlgorithmFinishes<T(!new)>(c: Config<T>, run: seq<Tid>, e: State<Locals<T>, T>)
    requires c.factor >= 1
    requires S.Runs(Scheduled(c), Start(c), run, e)
    ensures S.Lawful(Scheduled(c))
    ensures NoErrors(e)
    ensures (forall t :: !S.Enabled(Scheduled(c), e, t)) ==>
              Finished(c, e) && forall t | t in {READER, COMPUTER, WRITER} :: Scheduled(c).halted(e, t)
  {
    ScheduledIsLawful(c);
    KernelIsWired(c);
    StartIsFresh(c);
    KernelSystem.TraceIsRun(KernelOf(c), StepsLeft(c), [READER, COMPUTER, WRITER], Start(c), run, e);
    CompleteRunsAreCorrect(c, run, e);
    if forall t :: !S.Enabled(Scheduled(c), e, t) {
      StuckAgrees(c, e);
      FinishedHasHalted(c, e);
    }
  }

  lemma ScheduledIsLawful<T(!new)>(c: Config<T>)
    ensures S.Lawful(Scheduled(c))
  {
    KernelIsWired(c);
    KernelIsFinite(c);
    KernelSystem.KernelsAreLawful(KernelOf(c), StepsLeft(c), [READER, COMPUTER, WRITER]);
  }
}
