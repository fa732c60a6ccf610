/** The reader / compute / writer kernel of examples/singlecore_matmul.py: each output block is
    reserved once, and `inner` products are accumulated into it before it is pushed.  For all
    numbers of blocks and every buffer factor the kernel never gets stuck, and the writer has
    written every accumulated product in order. */
module MatmulPipeline {
  import opened Wrappers
  import opened BlockState
  import opened DataflowQueue
  import opened MixedRadix
  import opened Network
  import P = Pipeline
  import KernelSystem
  import S = Switching
  import Sched = Scheduler

  const READER: Tid := 0
  const COMPUTER: Tid := 1
  const WRITER: Tid := 2
  const A_DFB: Buf := 0
  const B_DFB: Buf := 1
  const OUT_DFB: Buf := 2

  /** Output blocks, products for each, and the factors in the order in which they are read. */
  datatype Config<!T> = Config(outs: nat, inner: nat, factor: nat, a: nat -> seq<T>, b: nat -> seq<T>,
                               mul: (seq<T>, seq<T>) -> seq<T>, add: (seq<T>, seq<T>) -> seq<T>, zeros: seq<T>)

  function Products<T>(c: Config<T>): nat {
    c.outs * c.inner
  }

  /** A thread's locals: its block counter, a compute thread's inner counter, the position in the
      loop body, the factors read, what the output block holds, and what a writer has written. */
  datatype Locals<T> = Locals(n: nat, k: nat, pc: nat, left: seq<T>, right: seq<T>, acc: seq<T>,
                              written: seq<seq<T>>)

  /** The accumulating store's new contents. */
  function Stored<T>(c: Config<T>, l: Locals<T>): seq<T> {
    if l.k == 0 then c.mul(l.left, l.right) else c.add(l.acc, c.mul(l.left, l.right))
  }

  function ReaderCode<T>(c: Config<T>, l: Locals<T>): Action<T> {
    if l.n >= Products(c) then Halt
    else
      match l.pc
      case 0 => Action.Reserve(A_DFB)
      case 1 => Action.Reserve(B_DFB)
      case 2 => Write(A_DFB, CopyDst, None)
      case 3 => Write(B_DFB, CopyDst, None)
      case 4 => Write(A_DFB, TxWait, Some(c.a(l.n)))
      case 5 => Write(B_DFB, TxWait, Some(c.b(l.n)))
      case 6 => Action.Push(B_DFB)
      case 7 => Action.Push(A_DFB)
      case _ => Halt
  }

  function ComputeCode<T>(c: Config<T>, l: Locals<T>): Action<T> {
    if l.n >= c.outs then Halt
    else if l.pc == 0 then Action.Reserve(OUT_DFB)
    else if l.pc == 8 then Action.Push(OUT_DFB)
    else if l.k >= c.inner then Halt
    else
      match l.pc
      case 1 => Action.Wait(A_DFB)
      case 2 => Action.Wait(B_DFB)
      case 3 => Read(A_DFB, StoreSrc, None)
      case 4 => Read(B_DFB, StoreSrc, None)
      case 5 => Write(OUT_DFB, StoreDstAcc, Some(Stored(c, l)))
      case 6 => Action.Pop(B_DFB)
      case 7 => Action.Pop(A_DFB)
      case _ => Halt
  }

  function WriterCode<T>(c: Config<T>, l: Locals<T>): Action<T> {
    if l.n >= c.outs then Halt
    else
      match l.pc
      case 0 => Action.Wait(OUT_DFB)
      case 1 => Read(OUT_DFB, CopySrc, None)
      case 2 => Read(OUT_DFB, TxWait, None)
      case 3 => Action.Pop(OUT_DFB)
      case _ => Halt
  }

  function Code<T>(c: Config<T>, t: Tid, l: Locals<T>): Action<T> {
    if t == READER then ReaderCode(c, l) else if t == COMPUTER then ComputeCode(c, l)
    else if t == WRITER then WriterCode(c, l) else Halt
  }

  function Resume<T>(c: Config<T>, t: Tid, l: Locals<T>, seen: seq<T>): Locals<T> {
    if t == COMPUTER then
      match l.pc
      case 0 => l.(pc := if c.inner == 0 then 8 else 1, k := 0)
      case 3 => l.(pc := 4, left := seen)
      case 4 => l.(pc := 5, right := seen)
      case 5 => l.(pc := 6, left := [], right := [], acc := Stored(c, l))
      case 7 => if l.k + 1 < c.inner then l.(pc := 1, k := l.k + 1) else l.(pc := 8)
      case 8 => l.(pc := 0, n := l.n + 1, k := 0, acc := [])
      case _ => l.(pc := l.pc + 1)
    else if t == WRITER && l.pc == 2 then l.(pc := 3, written := l.written + [seen])
    else if l.pc >= (if t == READER then 7 else 3) then l.(pc := 0, n := l.n + 1)
    else l.(pc := l.pc + 1)
  }

  function KernelOf<T>(c: Config<T>): Kernel<Locals<T>, T> {
    Kernel(
      (t: Tid, l: Locals<T>) => Code(c, t, l),
      (t: Tid, l: Locals<T>, seen: seq<T>) => Resume(c, t, l, seen),
      (t: Tid) => if t == COMPUTER then COMPUTE else DM,
      (b: Buf) => c.zeros,
      (b: Buf) => if b == OUT_DFB then COMPUTER else READER,
      (b: Buf) => if b == OUT_DFB then WRITER else COMPUTER,
      {A_DFB, B_DFB, OUT_DFB})
  }

  // ----- The state as a function of the three program positions -----

  /** A reader's or writer's position: its counter and place in the loop body. */
  datatype At = At(i: nat, pc: nat)

  /** The compute thread's: output block, inner counter, the number of the product, and place. */
  datatype ComputeAt = ComputeAt(p: nat, k: nat, i: nat, pc: nat)

  function Product<T>(c: Config<T>, i: nat): seq<T> {
    c.mul(c.a(i), c.b(i))
  }

  /** The sum of the s products before number i. */
  function Sum<T>(c: Config<T>, s: nat, i: nat): seq<T> {
    if s == 0 || i == 0 then c.zeros
    else if s == 1 then Product(c, i - 1)
    else c.add(Sum(c, s - 1, i - 1), Product(c, i - 1))
  }

  /** Output block p. */
  function Out<T>(c: Config<T>, p: nat): seq<T> {
    Sum(c, c.inner, (p + 1) * c.inner)
  }

  function Outs<T>(c: Config<T>): nat -> seq<T> {
    (p: nat) => Out(c, p)
  }

  /** How many products the output block holds, and the number of the next. */
  function StoresDone(m: ComputeAt): nat { m.k + (if m.pc >= 6 then 1 else 0) }
  function NextProduct(m: ComputeAt): nat { m.i + (if m.pc >= 6 then 1 else 0) }

  function PushedB(r: At): nat { r.i + (if r.pc == 7 then 1 else 0) }
  function PoppedA(m: ComputeAt): nat { m.i + (if m.pc == 8 then 1 else 0) }
  function PoppedB(m: ComputeAt): nat { m.i + (if m.pc >= 7 then 1 else 0) }
  predicate HasReserved(m: ComputeAt) { m.k > 0 || m.pc >= 1 }

  function ReadBetween(pc: nat, from: nat, read: nat, popped: nat): Option<Protocol> {
    if pc < from || pc >= popped then None
    else if pc < read then Some(Initial(WAIT, COMPUTE))
    else Some(Protocol(WAIT, COMPUTE, RW, {STORE_SRC, STORE, STORE_ACC, POP}))
  }

  function QueueA<T>(c: Config<T>, r: At, m: ComputeAt): Queue<T> {
    Queue(c.factor, P.Between(c.a, PoppedA(m), r.i), P.CopiedIn(r.pc, 1, c.zeros, c.a(r.i)),
          ReadBetween(m.pc, 2, 4, 8))
  }

  function QueueB<T>(c: Config<T>, r: At, m: ComputeAt): Queue<T> {
    Queue(c.factor, P.Between(c.b, PoppedB(m), PushedB(r)),
          if r.pc == 7 then None else P.CopiedIn(r.pc, 2, c.zeros, c.b(r.i)),
          ReadBetween(m.pc, 3, 5, 7))
  }

  function QueueOut<T>(c: Config<T>, m: ComputeAt, w: At): Queue<T> {
    Queue(c.factor, P.Between(Outs(c), w.i, m.p),
          if !HasReserved(m) then None
          else if StoresDone(m) == 0 then Some(Writing(Initial(RESERVE, COMPUTE), c.zeros))
          else Some(Writing(Protocol(RESERVE, COMPUTE, BlockState.A, {STORE_SRC, STORE_ACC, PUSH}),
                            Sum(c, StoresDone(m), NextProduct(m)))),
          if w.pc == 0 then None
          else if w.pc == 1 then Some(Initial(WAIT, DM))
          else if w.pc == 2 then Some(Protocol(WAIT, DM, NAR, {TX_WAIT}))
          else Some(Protocol(WAIT, DM, RW, {COPY_DST, COPY_SRC, POP})))
  }

  function ReaderAt<T>(r: At): Locals<T> {
    Locals(r.i, 0, r.pc, [], [], [], [])
  }

  function ComputerAt<T>(c: Config<T>, m: ComputeAt): Locals<T> {
    Locals(m.p, m.k, m.pc, if m.pc in {4, 5} then c.a(m.i) else [], if m.pc == 5 then c.b(m.i) else [],
           if StoresDone(m) == 0 then [] else Sum(c, StoresDone(m), NextProduct(m)), [])
  }

  function WriterAt<T>(c: Config<T>, w: At): Locals<T> {
    Locals(w.i, 0, w.pc, [], [], [], P.Between(Outs(c), 0, w.i + (if w.pc == 3 then 1 else 0)))
  }

  function LocalsAt<T>(c: Config<T>, t: Tid, r: At, m: ComputeAt, w: At): Locals<T> {
    if t == READER then ReaderAt(r) else if t == COMPUTER then ComputerAt(c, m) else WriterAt(c, w)
  }

  function QueueOf<T>(c: Config<T>, b: Buf, r: At, m: ComputeAt, w: At): Queue<T> {
    if b == A_DFB then QueueA(c, r, m) else if b == B_DFB then QueueB(c, r, m) else QueueOut(c, m, w)
  }

  function StateAt<T>(c: Config<T>, r: At, m: ComputeAt, w: At): State<Locals<T>, T> {
    State(map[READER := Running(ReaderAt(r)), COMPUTER := Running(ComputerAt(c, m)), WRITER := Running(WriterAt(c, w))],
          map[A_DFB := QueueA(c, r, m), B_DFB := QueueB(c, r, m), OUT_DFB := QueueOut(c, m, w)])
  }

  /** The number of the product fits the two counters. */
  predicate Counts<T>(c: Config<T>, m: ComputeAt) {
    m.i == m.p * c.inner + m.k
  }

  predicate InBody<T>(c: Config<T>, m: ComputeAt) {
    && m.p <= c.outs && m.k < c.inner && m.pc <= 8
    && (m.pc == 0 ==> m.k == 0) && (m.pc == 8 ==> m.k + 1 == c.inner)
    && (m.p == c.outs ==> m.k == 0 && m.pc == 0)
  }

  /** Which positions can occur together. */
  predicate Flows<T>(c: Config<T>, r: At, m: ComputeAt, w: At) {
    && m.i + (if m.pc >= 2 then 1 else 0) <= r.i
    && m.i + (if m.pc >= 3 then 1 else 0) <= PushedB(r)
    && w.i + (if w.pc >= 1 then 1 else 0) <= m.p
    && (r.i + (if r.pc >= 1 then 1 else 0)) - PoppedA(m) <= c.factor
    && (r.i + (if r.pc >= 2 then 1 else 0)) - PoppedB(m) <= c.factor
    && (m.p + (if HasReserved(m) then 1 else 0)) - w.i <= c.factor
  }

  predicate Feasible<T>(c: Config<T>, r: At, m: ComputeAt, w: At) {
    && r.pc <= 7 && r.i <= Products(c) && (r.i == Products(c) ==> r.pc == 0)
    && w.pc <= 3 && w.i <= c.outs && (w.i == c.outs ==> w.pc == 0)
    && InBody(c, m) && Counts(c, m) && Flows(c, r, m, w)
  }

  function AdvanceReader(r: At): At {
    if r.pc >= 7 then At(r.i + 1, 0) else At(r.i, r.pc + 1)
  }

  function AdvanceWriter(w: At): At {
    if w.pc >= 3 then At(w.i + 1, 0) else At(w.i, w.pc + 1)
  }

  function AdvanceCompute<T>(c: Config<T>, m: ComputeAt): ComputeAt {
    if m.pc == 7 && m.k + 1 < c.inner then ComputeAt(m.p, m.k + 1, m.i + 1, 1)
    else if m.pc == 8 then ComputeAt(m.p + 1, 0, m.i + 1, 0)
    else m.(pc := m.pc + 1)
  }

  /** The last product of an output block. */
  lemma LastProduct<T>(c: Config<T>, m: ComputeAt)
    requires Counts(c, m) && m.k + 1 == c.inner
    ensures m.i + 1 == (m.p + 1) * c.inner
  {
    assert (m.p + 1) * c.inner == m.p * c.inner + c.inner;
  }

  /** While there are output blocks to do there are products to do. */
  lemma ProductsRemain<T>(c: Config<T>, m: ComputeAt)
    requires Counts(c, m) && InBody(c, m)
    ensures if m.p < c.outs then m.i < Products(c) else m.i == Products(c)
  {
    if m.p < c.outs {
      MulMonotone(m.p + 1, c.outs, c.inner);
      assert (m.p + 1) * c.inner == m.p * c.inner + c.inner;
    }
  }

  // ----- One step of each thread -----

  predicate ReaderFree<T>(c: Config<T>, r: At, m: ComputeAt) {
    && r.i < Products(c)
    && (r.pc == 0 ==> r.i - PoppedA(m) < c.factor) && (r.pc == 1 ==> r.i - PoppedB(m) < c.factor)
  }

  predicate ComputeFree<T>(c: Config<T>, r: At, m: ComputeAt, w: At) {
    && m.p < c.outs
    && (m.pc == 0 ==> m.p - w.i < c.factor) && (m.pc == 1 ==> m.i < r.i) && (m.pc == 2 ==> m.i < PushedB(r))
  }

  predicate WriterFree<T>(c: Config<T>, m: ComputeAt, w: At) {
    w.i < c.outs && (w.pc == 0 ==> w.i < m.p)
  }

  /** Thread t is enabled exactly when `free`, and its step leads to the given positions. */
  ghost predicate Moves<T>(c: Config<T>, t: Tid, r: At, m: ComputeAt, w: At, free: bool,
                           r': At, m': ComputeAt, w': At)
  {
    var k, s := KernelOf(c), StateAt(c, r, m, w);
    && (Enabled(k, s, t) <==> free)
    && (free ==> Fire(k, s, t) == StateAt(c, r', m', w') && !StrayPop(k, s, t))
  }

  /** Thread t's action `a` changes its own locals and one buffer as the new positions say. */
  ghost predicate StepsTo<T>(c: Config<T>, t: Tid, r: At, m: ComputeAt, w: At, a: Action<T>, free: bool,
                             r': At, m': ComputeAt, w': At)
  {
    var l := LocalsAt(c, t, r, m, w);
    && Code(c, t, l) == a && !a.Halt? && a.b in {A_DFB, B_DFB, OUT_DFB}
    && var q, q' := QueueOf(c, a.b, r, m, w), QueueOf(c, a.b, r', m', w');
    && Effect(KernelOf(c).kind(t), KernelOf(c).zeros(a.b), a, q)
       == (if free then Success(q') else Failure(WouldBlock))
    && (a.Pop? ==> q.reader.Some?)
    && LocalsAt(c, t, r', m', w') == Resume(c, t, l, Seen(a, q))
  }

  ghost predicate OthersStay<T>(c: Config<T>, t: Tid, r: At, m: ComputeAt, w: At, b: Buf,
                                r': At, m': ComputeAt, w': At)
  {
    && (t != READER ==> r' == r) && (t != COMPUTER ==> m' == m) && (t != WRITER ==> w' == w)
    && (b != A_DFB ==> QueueA(c, r', m') == QueueA(c, r, m))
    && (b != B_DFB ==> QueueB(c, r', m') == QueueB(c, r, m))
    && (b != OUT_DFB ==> QueueOut(c, m', w') == QueueOut(c, m, w))
  }

  /** The state's entries, without its maps. */
  ghost predicate Holds<T>(c: Config<T>, s: State<Locals<T>, T>, r: At, m: ComputeAt, w: At) {
    && (forall t | t in {READER, COMPUTER, WRITER} ::
          t in s.threads && s.threads[t] == Running(LocalsAt(c, t, r, m, w)))
    && (forall b | b in {A_DFB, B_DFB, OUT_DFB} :: b in s.buffers && s.buffers[b] == QueueOf(c, b, r, m, w))
    && s.threads.Keys == {READER, COMPUTER, WRITER} && s.buffers.Keys == {A_DFB, B_DFB, OUT_DFB}
  }

  lemma StateHolds<T>(c: Config<T>, r: At, m: ComputeAt, w: At)
    ensures Holds(c, StateAt(c, r, m, w), r, m, w)
  {
  }

  lemma MoveByOne<T>(c: Config<T>, t: Tid, r: At, m: ComputeAt, w: At, a: Action<T>, free: bool,
                     r': At, m': ComputeAt, w': At)
    requires t in {READER, COMPUTER, WRITER}
    requires StepsTo(c, t, r, m, w, a, free, r', m', w')
    requires OthersStay(c, t, r, m, w, a.b, r', m', w')
    ensures Moves(c, t, r, m, w, free, r', m', w')
  {
    StateHolds(c, r, m, w);
    StateHolds(c, r', m', w');
    MoveBetween(c, t, r, m, w, a, free, r', m', w', StateAt(c, r, m, w), StateAt(c, r', m', w'));
  }

  lemma RestHolds<T>(c: Config<T>, t: Tid, r: At, m: ComputeAt, w: At, b: Buf, r': At, m': ComputeAt, w': At,
                     s: State<Locals<T>, T>, s': State<Locals<T>, T>)
    requires OthersStay(c, t, r, m, w, b, r', m', w')
    requires Holds(c, s, r, m, w) && Holds(c, s', r', m', w')
    ensures s'.threads.Keys == s.threads.Keys && s'.buffers.Keys == s.buffers.Keys
    ensures forall u | u in s.threads && u != t :: s'.threads[u] == s.threads[u]
    ensures forall x | x in s.buffers && x != b :: s'.buffers[x] == s.buffers[x]
  {
  }

  lemma MoveBetween<T>(c: Config<T>, t: Tid, r: At, m: ComputeAt, w: At, a: Action<T>, free: bool,
                       r': At, m': ComputeAt, w': At, s: State<Locals<T>, T>, s': State<Locals<T>, T>)
    requires t in {READER, COMPUTER, WRITER}
    requires StepsTo(c, t, r, m, w, a, free, r', m', w')
    requires OthersStay(c, t, r, m, w, a.b, r', m', w')
    requires Holds(c, s, r, m, w) && Holds(c, s', r', m', w')
    ensures Enabled(KernelOf(c), s, t) <==> free
    ensures free ==> Fire(KernelOf(c), s, t) == s' && !StrayPop(KernelOf(c), s, t)
  {
    var l, q := LocalsAt(c, t, r, m, w), QueueOf(c, a.b, r, m, w);
    assert KernelOf(c).next(t, l) == a;
    assert KernelOf(c).resume(t, l, Seen(a, q)) == Resume(c, t, l, Seen(a, q));
    RestHolds(c, t, r, m, w, a.b, r', m', w', s, s');
    OneMove(KernelOf(c), s, t, l, a, q, free, QueueOf(c, a.b, r', m', w'), s');
  }

  // Reader.

  lemma ReaderFrame<T>(c: Config<T>, r: At, m: ComputeAt)
    requires r.pc <= 7
    ensures var r' := AdvanceReader(r);
            if r.pc in {0, 2, 4, 7} then QueueB(c, r', m) == QueueB(c, r, m) else QueueA(c, r', m) == QueueA(c, r, m)
  {
  }

  lemma ReaderFires<T>(c: Config<T>, r: At, m: ComputeAt, w: At)
    requires Feasible(c, r, m, w) && r.i < Products(c)
    ensures Moves(c, READER, r, m, w, ReaderFree(c, r, m), AdvanceReader(r), m, w)
  {
    match r.pc
    case 0 => ReaderReserves(c, r, m, w);
    case 1 => ReaderReserves(c, r, m, w);
    case 2 => ReaderStartsCopy(c, r, m, w);
    case 3 => ReaderStartsCopy(c, r, m, w);
    case 4 => ReaderFinishesCopyA(c, r, m, w);
    case 5 => ReaderFinishesCopyB(c, r, m, w);
    case 6 => ReaderPushesB(c, r, m, w);
    case 7 => ReaderPushesA(c, r, m, w);
  }

  lemma ReaderReserves<T>(c: Config<T>, r: At, m: ComputeAt, w: At)
    requires Feasible(c, r, m, w) && r.i < Products(c) && r.pc <= 1
    ensures Moves(c, READER, r, m, w, ReaderFree(c, r, m), AdvanceReader(r), m, w)
  {
    ReaderFrame(c, r, m);
    var b := if r.pc == 0 then A_DFB else B_DFB;
    MoveByOne(c, READER, r, m, w, Action.Reserve(b), ReaderFree(c, r, m), AdvanceReader(r), m, w);
  }

  lemma ReaderStartsCopy<T>(c: Config<T>, r: At, m: ComputeAt, w: At)
    requires Feasible(c, r, m, w) && r.i < Products(c) && 2 <= r.pc <= 3
    ensures Moves(c, READER, r, m, w, ReaderFree(c, r, m), AdvanceReader(r), m, w)
  {
    ReaderFrame(c, r, m);
    var b := if r.pc == 2 then A_DFB else B_DFB;
    MoveByOne(c, READER, r, m, w, Write(b, CopyDst, None), ReaderFree(c, r, m), AdvanceReader(r), m, w);
  }

  lemma ReaderFinishesCopyA<T>(c: Config<T>, r: At, m: ComputeAt, w: At)
    requires Feasible(c, r, m, w) && r.i < Products(c) && r.pc == 4
    ensures Moves(c, READER, r, m, w, ReaderFree(c, r, m), AdvanceReader(r), m, w)
  {
    ReaderFrame(c, r, m);
    MoveByOne(c, READER, r, m, w, Write(A_DFB, TxWait, Some(c.a(r.i))), ReaderFree(c, r, m), AdvanceReader(r), m, w);
  }

  lemma ReaderFinishesCopyB<T>(c: Config<T>, r: At, m: ComputeAt, w: At)
    requires Feasible(c, r, m, w) && r.i < Products(c) && r.pc == 5
    ensures Moves(c, READER, r, m, w, ReaderFree(c, r, m), AdvanceReader(r), m, w)
  {
    ReaderFrame(c, r, m);
    MoveByOne(c, READER, r, m, w, Write(B_DFB, TxWait, Some(c.b(r.i))), ReaderFree(c, r, m), AdvanceReader(r), m, w);
  }

  lemma ReaderPushesB<T>(c: Config<T>, r: At, m: ComputeAt, w: At)
    requires Feasible(c, r, m, w) && r.i < Products(c) && r.pc == 6
    ensures Moves(c, READER, r, m, w, ReaderFree(c, r, m), AdvanceReader(r), m, w)
  {
    ReaderFrame(c, r, m);
    P.BetweenPush(c.b, PoppedB(m), r.i);
    MoveByOne(c, READER, r, m, w, Action.Push(B_DFB), ReaderFree(c, r, m), AdvanceReader(r), m, w);
  }

  lemma ReaderPushesA<T>(c: Config<T>, r: At, m: ComputeAt, w: At)
    requires Feasible(c, r, m, w) && r.i < Products(c) && r.pc == 7
    ensures Moves(c, READER, r, m, w, ReaderFree(c, r, m), AdvanceReader(r), m, w)
  {
    ReaderFrame(c, r, m);
    P.BetweenPush(c.a, PoppedA(m), r.i);
    MoveByOne(c, READER, r, m, w, Action.Push(A_DFB), ReaderFree(c, r, m), AdvanceReader(r), m, w);
  }

  // Compute.

  const READ := Protocol(WAIT, COMPUTE, RW, {STORE_SRC, STORE, STORE_ACC, POP})

  lemma ReadEffect<T>(zeros: seq<T>, b: Buf, q: Queue<T>)
    requires q.reader == Some(Initial(WAIT, COMPUTE))
    ensures Effect(COMPUTE, zeros, Read(b, StoreSrc, None), q) == Success(q.(reader := Some(READ)))
  {
  }

  lemma PopEffect<T>(zeros: seq<T>, b: Buf, q: Queue<T>)
    requires q.reader == Some(READ) && q.blocks != []
    ensures Effect(COMPUTE, zeros, Action.Pop(b), q) == Success(q.(blocks := q.blocks[1..], reader := None))
  {
  }

  lemma StoreEffect<T>(zeros: seq<T>, b: Buf, q: Queue<T>, data: seq<T>)
    requires q.writer.Some?
    requires q.writer.value.proto in {Initial(RESERVE, COMPUTE), STORED}
    ensures Effect(COMPUTE, zeros, Write(b, StoreDstAcc, Some(data)), q)
            == Success(q.(writer := Some(Writing(STORED, data))))
  {
  }

  lemma ReadALocals<T>(c: Config<T>, m: ComputeAt)
    requires m.pc == 3
    ensures ComputerAt(c, AdvanceCompute(c, m)) == Resume(c, COMPUTER, ComputerAt(c, m), c.a(m.i))
  {
  }

  lemma ReadBLocals<T>(c: Config<T>, m: ComputeAt)
    requires m.pc == 4
    ensures ComputerAt(c, AdvanceCompute(c, m)) == Resume(c, COMPUTER, ComputerAt(c, m), c.b(m.i))
  {
  }

  lemma StoreLocals<T>(c: Config<T>, m: ComputeAt, seen: seq<T>)
    requires m.pc == 5 && Stored(c, ComputerAt(c, m)) == Sum(c, m.k + 1, m.i + 1)
    ensures ComputerAt(c, AdvanceCompute(c, m)) == Resume(c, COMPUTER, ComputerAt(c, m), seen)
  {
  }

  const STORED := Protocol(RESERVE, COMPUTE, BlockState.A, {STORE_SRC, STORE_ACC, PUSH})

  lemma ComputeFrame<T>(c: Config<T>, r: At, m: ComputeAt, w: At)
    requires InBody(c, m) && m.p < c.outs
    ensures var m' := AdvanceCompute(c, m);
            && (m.pc !in {1, 3, 7} ==> QueueA(c, r, m') == QueueA(c, r, m))
            && (m.pc !in {2, 4, 6} ==> QueueB(c, r, m') == QueueB(c, r, m))
            && (m.pc !in {0, 5, 8} ==> QueueOut(c, m', w) == QueueOut(c, m, w))
  {
  }

  lemma ComputeFires<T>(c: Config<T>, r: At, m: ComputeAt, w: At)
    requires Feasible(c, r, m, w) && m.p < c.outs
    ensures Moves(c, COMPUTER, r, m, w, ComputeFree(c, r, m, w), r, AdvanceCompute(c, m), w)
  {
    match m.pc
    case 0 => ComputeReserves(c, r, m, w);
    case 1 => ComputeWaits(c, r, m, w);
    case 2 => ComputeWaits(c, r, m, w);
    case 3 => ComputeReadsA(c, r, m, w);
    case 4 => ComputeReadsB(c, r, m, w);
    case 5 => ComputeStores(c, r, m, w);
    case 6 => ComputePopsB(c, r, m, w);
    case 7 => ComputePopsA(c, r, m, w);
    case 8 => ComputePushes(c, r, m, w);
  }

  lemma ComputeReserves<T>(c: Config<T>, r: At, m: ComputeAt, w: At)
    requires Feasible(c, r, m, w) && m.p < c.outs && m.pc == 0
    ensures Moves(c, COMPUTER, r, m, w, ComputeFree(c, r, m, w), r, AdvanceCompute(c, m), w)
  {
    ComputeFrame(c, r, m, w);
    MoveByOne(c, COMPUTER, r, m, w, Action.Reserve(OUT_DFB), ComputeFree(c, r, m, w), r, AdvanceCompute(c, m), w);
  }

  lemma ComputeWaits<T>(c: Config<T>, r: At, m: ComputeAt, w: At)
    requires Feasible(c, r, m, w) && m.p < c.outs && 1 <= m.pc <= 2
    ensures Moves(c, COMPUTER, r, m, w, ComputeFree(c, r, m, w), r, AdvanceCompute(c, m), w)
  {
    ComputeFrame(c, r, m, w);
    var b := if m.pc == 1 then A_DFB else B_DFB;
    MoveByOne(c, COMPUTER, r, m, w, Action.Wait(b), ComputeFree(c, r, m, w), r, AdvanceCompute(c, m), w);
  }

  lemma ComputeReadsA<T>(c: Config<T>, r: At, m: ComputeAt, w: At)
    requires Feasible(c, r, m, w) && m.p < c.outs && m.pc == 3
    ensures Moves(c, COMPUTER, r, m, w, ComputeFree(c, r, m, w), r, AdvanceCompute(c, m), w)
  {
    ComputeFrame(c, r, m, w);
    P.BetweenPop(c.a, m.i, r.i);
    ReadEffect(c.zeros, A_DFB, QueueA(c, r, m));
    ReadALocals(c, m);
    MoveByOne(c, COMPUTER, r, m, w, Read(A_DFB, StoreSrc, None), ComputeFree(c, r, m, w), r, AdvanceCompute(c, m), w);
  }

  lemma ComputeReadsB<T>(c: Config<T>, r: At, m: ComputeAt, w: At)
    requires Feasible(c, r, m, w) && m.p < c.outs && m.pc == 4
    ensures Moves(c, COMPUTER, r, m, w, ComputeFree(c, r, m, w), r, AdvanceCompute(c, m), w)
  {
    ComputeFrame(c, r, m, w);
    P.BetweenPop(c.b, m.i, PushedB(r));
    ReadEffect(c.zeros, B_DFB, QueueB(c, r, m));
    ReadBLocals(c, m);
    MoveByOne(c, COMPUTER, r, m, w, Read(B_DFB, StoreSrc, None), ComputeFree(c, r, m, w), r, AdvanceCompute(c, m), w);
  }

  /** The store adds the next product to what the output block holds. */
  lemma StoredIsSum<T>(c: Config<T>, m: ComputeAt)
    requires m.pc == 5 && (m.k > 0 ==> m.i > 0)
    ensures Stored(c, ComputerAt(c, m)) == Sum(c, m.k + 1, m.i + 1)
  {
  }

  lemma ComputeStores<T>(c: Config<T>, r: At, m: ComputeAt, w: At)
    requires Feasible(c, r, m, w) && m.p < c.outs && m.pc == 5
    ensures Moves(c, COMPUTER, r, m, w, ComputeFree(c, r, m, w), r, AdvanceCompute(c, m), w)
  {
    ComputeFrame(c, r, m, w);
    MulMonotone(0, m.p, c.inner);
    StoredIsSum(c, m);
    var stored := Stored(c, ComputerAt(c, m));
    StoreEffect(c.zeros, OUT_DFB, QueueOut(c, m, w), stored);
    StoreLocals(c, m, Seen(Write(OUT_DFB, StoreDstAcc, Some(stored)), QueueOut(c, m, w)));
    MoveByOne(c, COMPUTER, r, m, w, Write(OUT_DFB, StoreDstAcc, Some(stored)), ComputeFree(c, r, m, w),
              r, AdvanceCompute(c, m), w);
  }

  lemma ComputePopsB<T>(c: Config<T>, r: At, m: ComputeAt, w: At)
    requires Feasible(c, r, m, w) && m.p < c.outs && m.pc == 6
    ensures Moves(c, COMPUTER, r, m, w, ComputeFree(c, r, m, w), r, AdvanceCompute(c, m), w)
  {
    ComputeFrame(c, r, m, w);
    P.BetweenPop(c.b, m.i, PushedB(r));
    PopEffect(c.zeros, B_DFB, QueueB(c, r, m));
    MoveByOne(c, COMPUTER, r, m, w, Action.Pop(B_DFB), ComputeFree(c, r, m, w), r, AdvanceCompute(c, m), w);
  }

  lemma ComputePopsA<T>(c: Config<T>, r: At, m: ComputeAt, w: At)
    requires Feasible(c, r, m, w) && m.p < c.outs && m.pc == 7
    ensures Moves(c, COMPUTER, r, m, w, ComputeFree(c, r, m, w), r, AdvanceCompute(c, m), w)
  {
    ComputeFrame(c, r, m, w);
    P.BetweenPop(c.a, m.i, r.i);
    PopEffect(c.zeros, A_DFB, QueueA(c, r, m));
    MoveByOne(c, COMPUTER, r, m, w, Action.Pop(A_DFB), ComputeFree(c, r, m, w), r, AdvanceCompute(c, m), w);
  }

  lemma ComputePushes<T>(c: Config<T>, r: At, m: ComputeAt, w: At)
    requires Feasible(c, r, m, w) && m.p < c.outs && m.pc == 8
    ensures Moves(c, COMPUTER, r, m, w, ComputeFree(c, r, m, w), r, AdvanceCompute(c, m), w)
  {
    ComputeFrame(c, r, m, w);
    LastProduct(c, m);
    assert Sum(c, StoresDone(m), NextProduct(m)) == Outs(c)(m.p);
    P.BetweenPush(Outs(c), w.i, m.p);
    MoveByOne(c, COMPUTER, r, m, w, Action.Push(OUT_DFB), ComputeFree(c, r, m, w), r, AdvanceCompute(c, m), w);
  }

  // Writer.

  lemma WriterFires<T>(c: Config<T>, r: At, m: ComputeAt, w: At)
    requires Feasible(c, r, m, w) && w.i < c.outs
    ensures Moves(c, WRITER, r, m, w, WriterFree(c, m, w), r, m, AdvanceWriter(w))
  {
    match w.pc
    case 0 => WriterWaits(c, r, m, w);
    case 1 => WriterStartsCopy(c, r, m, w);
    case 2 => WriterFinishesCopy(c, r, m, w);
    case 3 => WriterPops(c, r, m, w);
  }

  lemma WriterWaits<T>(c: Config<T>, r: At, m: ComputeAt, w: At)
    requires Feasible(c, r, m, w) && w.i < c.outs && w.pc == 0
    ensures Moves(c, WRITER, r, m, w, WriterFree(c, m, w), r, m, AdvanceWriter(w))
  {
    MoveByOne(c, WRITER, r, m, w, Action.Wait(OUT_DFB), WriterFree(c, m, w), r, m, AdvanceWriter(w));
  }

  lemma WriterStartsCopy<T>(c: Config<T>, r: At, m: ComputeAt, w: At)
    requires Feasible(c, r, m, w) && w.i < c.outs && w.pc == 1
    ensures Moves(c, WRITER, r, m, w, WriterFree(c, m, w), r, m, AdvanceWriter(w))
  {
    MoveByOne(c, WRITER, r, m, w, Read(OUT_DFB, CopySrc, None), WriterFree(c, m, w), r, m, AdvanceWriter(w));
  }

  lemma WriterFinishesCopy<T>(c: Config<T>, r: At, m: ComputeAt, w: At)
    requires Feasible(c, r, m, w) && w.i < c.outs && w.pc == 2
    ensures Moves(c, WRITER, r, m, w, WriterFree(c, m, w), r, m, AdvanceWriter(w))
  {
    P.BetweenPush(Outs(c), 0, w.i);
    P.BetweenPop(Outs(c), w.i, m.p);
    MoveByOne(c, WRITER, r, m, w, Read(OUT_DFB, TxWait, None), WriterFree(c, m, w), r, m, AdvanceWriter(w));
  }

  lemma WriterPops<T>(c: Config<T>, r: At, m: ComputeAt, w: At)
    requires Feasible(c, r, m, w) && w.i < c.outs && w.pc == 3
    ensures Moves(c, WRITER, r, m, w, WriterFree(c, m, w), r, m, AdvanceWriter(w))
  {
    P.BetweenPop(Outs(c), w.i, m.p);
    MoveByOne(c, WRITER, r, m, w, Action.Pop(OUT_DFB), WriterFree(c, m, w), r, m, AdvanceWriter(w));
  }

  // ----- Every schedule -----

  function ReaderTaken(r: At): nat { 8 * r.i + r.pc }
  function ComputeTaken(m: ComputeAt): nat { 7 * m.i + 2 * m.p + m.pc }
  function WriterTaken(w: At): nat { 4 * w.i + w.pc }

  function Taken(r: At, m: ComputeAt, w: At): nat {
    ReaderTaken(r) + ComputeTaken(m) + WriterTaken(w)
  }

  /** The steps of the whole kernel. */
  function TotalSteps<T>(c: Config<T>): nat {
    15 * Products(c) + 6 * c.outs
  }

  lemma AdvanceReaderFeasible<T>(c: Config<T>, r: At, m: ComputeAt, w: At)
    requires Feasible(c, r, m, w) && ReaderFree(c, r, m)
    ensures Feasible(c, AdvanceReader(r), m, w) && Taken(AdvanceReader(r), m, w) == Taken(r, m, w) + 1
  {
  }

  lemma AdvanceComputeFeasible<T>(c: Config<T>, r: At, m: ComputeAt, w: At)
    requires Feasible(c, r, m, w) && ComputeFree(c, r, m, w)
    ensures Feasible(c, r, AdvanceCompute(c, m), w) && Taken(r, AdvanceCompute(c, m), w) == Taken(r, m, w) + 1
  {
    if m.pc == 8 {
      LastProduct(c, m);
    }
  }

  lemma AdvanceWriterFeasible<T>(c: Config<T>, r: At, m: ComputeAt, w: At)
    requires Feasible(c, r, m, w) && WriterFree(c, m, w)
    ensures Feasible(c, r, m, AdvanceWriter(w)) && Taken(r, m, AdvanceWriter(w)) == Taken(r, m, w) + 1
  {
  }

  lemma HaltedReader<T>(c: Config<T>, r: At, m: ComputeAt, w: At)
    requires Feasible(c, r, m, w) && r.i == Products(c)
    ensures !Enabled(KernelOf(c), StateAt(c, r, m, w), READER)
  {
  }

  lemma HaltedCompute<T>(c: Config<T>, r: At, m: ComputeAt, w: At)
    requires Feasible(c, r, m, w) && m.p == c.outs
    ensures !Enabled(KernelOf(c), StateAt(c, r, m, w), COMPUTER)
  {
  }

  lemma HaltedWriter<T>(c: Config<T>, r: At, m: ComputeAt, w: At)
    requires Feasible(c, r, m, w) && w.i == c.outs
    ensures !Enabled(KernelOf(c), StateAt(c, r, m, w), WRITER)
  {
  }

  lemma OnlyThreeThreads<T>(c: Config<T>, r: At, m: ComputeAt, w: At, t: Tid)
    requires Enabled(KernelOf(c), StateAt(c, r, m, w), t)
    ensures t in {READER, COMPUTER, WRITER}
  {
  }

  /** Thread t's step leads from one feasible triple of positions to the next, without stealing. */
  ghost predicate StepsFeasibly<T>(c: Config<T>, t: Tid, r: At, m: ComputeAt, w: At, r': At, m': ComputeAt, w': At)
    requires Enabled(KernelOf(c), StateAt(c, r, m, w), t)
  {
    && Feasible(c, r', m', w') && Taken(r', m', w') == Taken(r, m, w) + 1
    && Fire(KernelOf(c), StateAt(c, r, m, w), t) == StateAt(c, r', m', w')
    && !StrayPop(KernelOf(c), StateAt(c, r, m, w), t)
  }

  lemma ReaderStep<T>(c: Config<T>, r: At, m: ComputeAt, w: At)
    requires Feasible(c, r, m, w) && Enabled(KernelOf(c), StateAt(c, r, m, w), READER)
    ensures StepsFeasibly(c, READER, r, m, w, AdvanceReader(r), m, w)
  {
    if r.i == Products(c) {
      HaltedReader(c, r, m, w);
    } else {
      ReaderFires(c, r, m, w);
      AdvanceReaderFeasible(c, r, m, w);
    }
  }

  lemma ComputeStep<T>(c: Config<T>, r: At, m: ComputeAt, w: At)
    requires Feasible(c, r, m, w) && Enabled(KernelOf(c), StateAt(c, r, m, w), COMPUTER)
    ensures StepsFeasibly(c, COMPUTER, r, m, w, r, AdvanceCompute(c, m), w)
  {
    if m.p == c.outs {
      HaltedCompute(c, r, m, w);
    } else {
      ComputeFires(c, r, m, w);
      AdvanceComputeFeasible(c, r, m, w);
    }
  }

  lemma WriterStep<T>(c: Config<T>, r: At, m: ComputeAt, w: At)
    requires Feasible(c, r, m, w) && Enabled(KernelOf(c), StateAt(c, r, m, w), WRITER)
    ensures StepsFeasibly(c, WRITER, r, m, w, r, m, AdvanceWriter(w))
  {
    if w.i == c.outs {
      HaltedWriter(c, r, m, w);
    } else {
      WriterFires(c, r, m, w);
      AdvanceWriterFeasible(c, r, m, w);
    }
  }

  lemma OneStep<T>(c: Config<T>, r: At, m: ComputeAt, w: At, t: Tid)
    returns (r': At, m': ComputeAt, w': At)
    requires Feasible(c, r, m, w) && Enabled(KernelOf(c), StateAt(c, r, m, w), t)
    ensures StepsFeasibly(c, t, r, m, w, r', m', w')
  {
    OnlyThreeThreads(c, r, m, w, t);
    r', m', w' := r, m, w;
    if t == READER {
      ReaderStep(c, r, m, w);
      r' := AdvanceReader(r);
    } else if t == COMPUTER {
      ComputeStep(c, r, m, w);
      m' := AdvanceCompute(c, m);
    } else {
      WriterStep(c, r, m, w);
      w' := AdvanceWriter(w);
    }
  }

  /** Every run stays on the feasible positions, and pops only what was waited for. */
  lemma {:induction false} RunsStayFeasible<T>(c: Config<T>, s: State<Locals<T>, T>, r: At, m: ComputeAt, w: At,
                                               run: seq<Tid>)
    returns (r': At, m': ComputeAt, w': At)
    requires s == StateAt(c, r, m, w) && Feasible(c, r, m, w) && IsRun(KernelOf(c), s, run)
    ensures Feasible(c, r', m', w') && Taken(r', m', w') == Taken(r, m, w) + |run|
    ensures End(KernelOf(c), s, run) == StateAt(c, r', m', w')
    ensures Disciplined(KernelOf(c), s, run)
    decreases |run|
  {
    if run == [] {
      r', m', w' := r, m, w;
    } else {
      var r1, m1, w1 := OneStep(c, r, m, w, run[0]);
      r', m', w' := RunsStayFeasible(c, Fire(KernelOf(c), s, run[0]), r1, m1, w1, run[1..]);
    }
  }

  // ----- Progress and the end -----

  /** Whatever the factor, some thread can go on until all three are done. */
  lemma SomeoneIsFree<T>(c: Config<T>, r: At, m: ComputeAt, w: At)
    requires Feasible(c, r, m, w) && c.factor >= 1
    ensures ReaderFree(c, r, m) || ComputeFree(c, r, m, w) || WriterFree(c, m, w)
            <==> !(r.i == Products(c) && m.p == c.outs && w.i == c.outs)
  {
    ProductsRemain(c, m);
  }

  lemma SomeoneCanMove<T>(c: Config<T>, r: At, m: ComputeAt, w: At)
    requires Feasible(c, r, m, w) && c.factor >= 1
    ensures Stuck(KernelOf(c), StateAt(c, r, m, w)) <==> r.i == Products(c) && m.p == c.outs && w.i == c.outs
  {
    SomeoneIsFree(c, r, m, w);
    if r.i == Products(c) && m.p == c.outs && w.i == c.outs {
      HaltedReader(c, r, m, w);
      HaltedCompute(c, r, m, w);
      HaltedWriter(c, r, m, w);
      forall t: Tid
        ensures !Enabled(KernelOf(c), StateAt(c, r, m, w), t)
      {
        if Enabled(KernelOf(c), StateAt(c, r, m, w), t) {
          OnlyThreeThreads(c, r, m, w, t);
        }
      }
    } else if ReaderFree(c, r, m) {
      ReaderFires(c, r, m, w);
    } else if ComputeFree(c, r, m, w) {
      ComputeFires(c, r, m, w);
    } else {
      WriterFires(c, r, m, w);
    }
  }

  lemma DoneWhenAllTaken<T>(c: Config<T>, r: At, m: ComputeAt, w: At)
    requires Feasible(c, r, m, w)
    ensures Taken(r, m, w) <= TotalSteps(c)
    ensures Taken(r, m, w) == TotalSteps(c) <==> r.i == Products(c) && m.p == c.outs && w.i == c.outs
    ensures r.i == Products(c) && m.p == c.outs && w.i == c.outs ==>
              r == At(Products(c), 0) && m == ComputeAt(c.outs, 0, Products(c), 0) && w == At(c.outs, 0)
  {
    ProductsRemain(c, m);
    if m.p < c.outs {
      ComputeTakes(c, m);
    }
  }

  /** A compute thread that is not done has taken fewer steps than it will. */
  lemma ComputeTakes<T>(c: Config<T>, m: ComputeAt)
    requires InBody(c, m) && Counts(c, m) && m.p < c.outs
    ensures ComputeTaken(m) < 7 * Products(c) + 2 * c.outs
  {
    MulMonotone(m.p + 1, c.outs, c.inner);
    assert (m.p + 1) * c.inner == m.p * c.inner + c.inner;
  }

  /** Three threads at their first line and three empty buffers. */
  function Start<T>(c: Config<T>): State<Locals<T>, T> {
    StateAt(c, At(0, 0), ComputeAt(0, 0, 0, 0), At(0, 0))
  }

  lemma StartIsFresh<T>(c: Config<T>)
    ensures Start(c).threads.Keys == {READER, COMPUTER, WRITER}
    ensures Start(c).buffers.Keys == {A_DFB, B_DFB, OUT_DFB}
    ensures forall t | t in Start(c).threads :: Start(c).threads[t] == Running(Locals(0, 0, 0, [], [], [], []))
    ensures forall b | b in Start(c).buffers :: Start(c).buffers[b] == Empty(c.factor)
  {
    var z, m := At(0, 0), ComputeAt(0, 0, 0, 0);
    assert QueueA(c, z, m) == Empty(c.factor);
    assert QueueB(c, z, m) == Empty(c.factor);
    assert QueueOut(c, m, z) == Empty(c.factor);
  }

  lemma StartIsFeasible<T>(c: Config<T>) returns (r: At, m: ComputeAt, w: At, taken: nat)
    requires c.inner >= 1
    ensures Feasible(c, r, m, w) && taken == Taken(r, m, w) == 0 && Start(c) == StateAt(c, r, m, w)
  {
    MulMonotone(0, c.outs, c.inner);
    r, m, w, taken := At(0, 0), ComputeAt(0, 0, 0, 0), At(0, 0), 0;
  }

  ghost predicate NoErrors<T>(s: State<Locals<T>, T>) {
    forall t | t in s.threads :: s.threads[t].Running?
  }

  /** Every thread halted, every buffer empty with nothing pending, and the products written. */
  ghost predicate Finished<T>(c: Config<T>, s: State<Locals<T>, T>) {
    && s.threads.Keys == {READER, COMPUTER, WRITER}
    && (forall t | t in s.threads :: s.threads[t].Running? && KernelOf(c).next(t, s.threads[t].local).Halt?)
    && (forall b | b in {A_DFB, B_DFB, OUT_DFB} :: b in s.buffers && s.buffers[b] == Empty(c.factor))
    && s.threads[WRITER].local.written == P.Between(Outs(c), 0, c.outs)
  }

  lemma LastPositionIsFinished<T>(c: Config<T>, r: At, m: ComputeAt, w: At)
    requires r == At(Products(c), 0) && m == ComputeAt(c.outs, 0, Products(c), 0) && w == At(c.outs, 0)
    ensures Finished(c, StateAt(c, r, m, w))
  {
    assert QueueA(c, r, m) == Empty(c.factor);
    assert QueueB(c, r, m) == Empty(c.factor);
    assert QueueOut(c, m, w) == Empty(c.factor);
  }

  lemma FeasibleHasNoErrors<T>(c: Config<T>, r: At, m: ComputeAt, w: At)
    ensures NoErrors(StateAt(c, r, m, w))
  {
  }

  lemma StuckWhenAllTaken<T>(c: Config<T>, r: At, m: ComputeAt, w: At, s: State<Locals<T>, T>)
    requires Feasible(c, r, m, w) && c.factor >= 1 && s == StateAt(c, r, m, w)
    ensures Taken(r, m, w) <= TotalSteps(c)
    ensures Stuck(KernelOf(c), s) <==> Taken(r, m, w) == TotalSteps(c)
    ensures Stuck(KernelOf(c), s) ==> Finished(c, s)
    ensures NoErrors(s)
  {
    FeasibleHasNoErrors(c, r, m, w);
    SomeoneCanMove(c, r, m, w);
    DoneWhenAllTaken(c, r, m, w);
    if Taken(r, m, w) == TotalSteps(c) {
      LastPositionIsFinished(c, r, m, w);
    }
  }

  /** From any feasible positions, `before` steps after the start. */
  lemma FinishesFrom<T>(c: Config<T>, r: At, m: ComputeAt, w: At, before: nat, s: State<Locals<T>, T>, run: seq<Tid>,
                        end: State<Locals<T>, T>)
    requires Feasible(c, r, m, w) && c.factor >= 1 && s == StateAt(c, r, m, w) && before == Taken(r, m, w)
    requires IsRun(KernelOf(c), s, run) && end == End(KernelOf(c), s, run)
    ensures before + |run| <= TotalSteps(c)
    ensures Stuck(KernelOf(c), end) <==> before + |run| == TotalSteps(c)
    ensures Stuck(KernelOf(c), end) ==> Finished(c, end)
    ensures NoErrors(end)
  {
    var r', m', w' := RunsStayFeasible(c, s, r, m, w, run);
    StuckWhenAllTaken(c, r', m', w', end);
  }

  /** Some product for each output block, or no output block at all: what the program needs. */
  predicate HasProducts<T>(c: Config<T>) {
    c.inner >= 1 || c.outs == 0
  }

  /** For all numbers of blocks and factors of at least one: no run meets an error, takes more than
      15 steps a product and 6 an output block, or is stuck before it has taken them all; then every
      thread has halted, the buffers are empty, and the writer has written each sum of products. */
  lemma EveryScheduleFinishes<T>(c: Config<T>, run: seq<Tid>, end: State<Locals<T>, T>)
    requires c.factor >= 1 && HasProducts(c)
    requires IsRun(KernelOf(c), Start(c), run) && end == End(KernelOf(c), Start(c), run)
    ensures |run| <= TotalSteps(c)
    ensures Stuck(KernelOf(c), end) <==> |run| == TotalSteps(c)
    ensures NoErrors(end) && (Stuck(KernelOf(c), end) ==> Finished(c, end))
  {
    if c.outs == 0 {
      NothingToDo(c, run, end);
    } else {
      var r, m, w, taken := StartIsFeasible(c);
      FinishesFrom(c, r, m, w, taken, Start(c), run, end);
    }
  }

  lemma NothingToDo<T>(c: Config<T>, run: seq<Tid>, end: State<Locals<T>, T>)
    requires c.outs == 0 && IsRun(KernelOf(c), Start(c), run) && end == End(KernelOf(c), Start(c), run)
    ensures run == [] && TotalSteps(c) == 0 && Stuck(KernelOf(c), end) && NoErrors(end) && Finished(c, end)
  {
    StartIsFresh(c);
    assert Products(c) == 0;
    assert P.Between(Outs(c), 0, 0) == [];
  }

  // ----- Without products -----

  /** The compute thread's error, and no other's. */
  ghost predicate PushRefused<T>(s: State<Locals<T>, T>) {
    && COMPUTER in s.threads && s.threads[COMPUTER] == Crashed(Refused(NotExpected))
    && forall t | t in s.threads && t != COMPUTER :: s.threads[t].Running?
  }

  /** Only the compute thread is enabled, and none has failed. */
  ghost predicate OnlyCompute<T>(c: Config<T>, s: State<Locals<T>, T>) {
    NoErrors(s) && forall t: Tid :: Enabled(KernelOf(c), s, t) <==> t == COMPUTER
  }

  /** The compute thread is about to push a reserved block that it has not written. */
  ghost predicate HoldsUnwritten<T>(c: Config<T>, s: State<Locals<T>, T>) {
    && s.threads.Keys == {READER, COMPUTER, WRITER} && s.buffers.Keys == {A_DFB, B_DFB, OUT_DFB}
    && (forall t | t in s.threads ::
          s.threads[t] == Running(Locals(0, 0, if t == COMPUTER then 8 else 0, [], [], [], [])))
    && s.buffers[OUT_DFB] == Queue(c.factor, [], Some(Writing(Initial(RESERVE, COMPUTE), c.zeros)), None)
  }

  /** With output blocks but an inner dimension of zero, the compute thread reserves a block; the
      other threads have nothing to do or wait for it ... */
  lemma ReservesFirst<T>(c: Config<T>)
    requires c.factor >= 1 && !HasProducts(c)
    ensures OnlyCompute(c, Start(c)) && HoldsUnwritten(c, Fire(KernelOf(c), Start(c), COMPUTER))
  {
    StartIsFresh(c);
    assert Products(c) == 0;
  }

  /** ... and pushes it, which is refused. */
  lemma PushesNext<T>(c: Config<T>, s: State<Locals<T>, T>)
    requires !HasProducts(c) && HoldsUnwritten(c, s)
    ensures OnlyCompute(c, s)
    ensures var failed := Fire(KernelOf(c), s, COMPUTER); PushRefused(failed) && Stuck(KernelOf(c), failed)
  {
    assert Products(c) == 0;
    assert PushBlock(s.buffers[OUT_DFB]) == Failure(Refused(NotExpected));
  }

  /** So every run is at most two steps of the compute thread, and complete runs end in its error. */
  lemma NoProductsFails<T>(c: Config<T>, run: seq<Tid>, end: State<Locals<T>, T>)
    requires c.factor >= 1 && !HasProducts(c)
    requires IsRun(KernelOf(c), Start(c), run) && end == End(KernelOf(c), Start(c), run)
    ensures |run| <= 2 && (Stuck(KernelOf(c), end) <==> |run| == 2)
    ensures if |run| == 2 then PushRefused(end) else OnlyCompute(c, end)
  {
    ReservesFirst(c);
    var reserved := Fire(KernelOf(c), Start(c), COMPUTER);
    PushesNext(c, reserved);
    TwoStepRuns(KernelOf(c), Start(c), reserved, Fire(KernelOf(c), reserved, COMPUTER), run, end);
  }

  lemma TwoStepRuns<L, T>(k: Kernel<L, T>, s: State<L, T>, next: State<L, T>, last: State<L, T>,
                          run: seq<Tid>, end: State<L, T>)
    requires forall t: Tid :: Enabled(k, s, t) <==> t == COMPUTER
    requires forall t: Tid :: Enabled(k, next, t) <==> t == COMPUTER
    requires next == Fire(k, s, COMPUTER) && last == Fire(k, next, COMPUTER) && Stuck(k, last)
    requires IsRun(k, s, run) && end == End(k, s, run)
    ensures |run| <= 2 && end == (if |run| == 0 then s else if |run| == 1 then next else last)
    ensures Stuck(k, end) <==> |run| == 2
  {
    assert Enabled(k, s, COMPUTER) && Enabled(k, next, COMPUTER);
    if run != [] {
      var rest := run[1..];
      assert run[0] == COMPUTER && IsRun(k, next, rest) && end == End(k, next, rest);
      if rest != [] {
        var tail := rest[1..];
        assert rest[0] == COMPUTER && IsRun(k, last, tail) && end == End(k, last, tail);
        assert tail == [];
      }
    }
  }

  // ----- Under the scheduler -----

  lemma KernelIsWired<T(!new)>(c: Config<T>)
    ensures WellWired(KernelOf(c)) && Network.Inv(KernelOf(c), Start(c))
  {
    StartIsFresh(c);
    forall t: Tid, l: Locals<T>
      ensures var a := KernelOf(c).next(t, l);
              a.Halt? || (a.b in KernelOf(c).buffers
                && t == (if ProducerSide(a) then KernelOf(c).producer(a.b) else KernelOf(c).consumer(a.b)))
    {
      assert KernelOf(c).next(t, l) == Code(c, t, l);
    }
  }

  /** How far a compute thread is with its output block. */
  function Progress<T>(c: Config<T>, l: Locals<T>): (n: nat)
    ensures n <= 7 * c.inner + 8
  {
    if l.pc == 0 then 0 else if l.pc == 8 then 7 * c.inner + 8
    else if l.k < c.inner && l.pc < 8 then 7 * l.k + l.pc else 0
  }

  function StepsLeftOf<T>(c: Config<T>, t: Tid, l: Locals<T>): nat {
    if t == COMPUTER then
      if l.n >= c.outs then 0 else ComputeSteps(c.outs - l.n, 7 * c.inner + 9, Progress(c, l))
    else
      var total := if t == READER then Products(c) else c.outs;
      if l.n >= total || l.pc > 8 then 0 else 9 * (total - l.n) - l.pc
  }

  function ComputeSteps(blocks: nat, each: nat, progress: nat): nat
    requires blocks > 0 && progress < each
  {
    MulMonotone(1, blocks, each);
    blocks * each - progress
  }

  lemma NextBlockIsLess(blocks: nat, each: nat)
    requires blocks > 0 && each > 0
    ensures (blocks - 1) * each == blocks * each - each
  {
  }

  lemma ComputeStepsDrop<T>(c: Config<T>, l: Locals<T>, seen: seq<T>)
    requires !ComputeCode(c, l).Halt?
    ensures StepsLeftOf(c, COMPUTER, Resume(c, COMPUTER, l, seen)) < StepsLeftOf(c, COMPUTER, l)
  {
    NextBlockIsLess(c.outs - l.n, 7 * c.inner + 9);
  }

  function StepsLeft<T>(c: Config<T>): (Tid, Locals<T>) -> nat {
    (t: Tid, l: Locals<T>) => StepsLeftOf(c, t, l)
  }

  lemma KernelIsFinite<T(!new)>(c: Config<T>)
    ensures KernelSystem.FiniteThreads(KernelOf(c), StepsLeft(c))
  {
    forall t: Tid, l: Locals<T>, seen: seq<T> | !KernelOf(c).next(t, l).Halt?
      ensures StepsLeft(c)(t, KernelOf(c).resume(t, l, seen)) < StepsLeft(c)(t, l)
    {
      assert !Code(c, t, l).Halt?;
      if t == COMPUTER {
        ComputeStepsDrop(c, l, seen);
      }
    }
  }

  function Threads(): seq<Tid> {
    [READER, COMPUTER, WRITER]
  }

  /** The kernel as the scheduler sees it. */
  function Scheduled<T>(c: Config<T>): S.System<State<Locals<T>, T>> {
    KernelSystem.SystemOf(KernelOf(c), StepsLeft(c), Threads())
  }

  lemma ScheduledIsLawful<T(!new)>(c: Config<T>)
    ensures WellWired(KernelOf(c)) && S.Lawful(Scheduled(c)) && Scheduled(c).inv(Start(c))
  {
    KernelIsWired(c);
    KernelIsFinite(c);
    StartIsFresh(c);
    KernelSystem.KernelsAreLawful(KernelOf(c), StepsLeft(c), Threads());
  }

  /** What a verdict says of the state it leaves. */
  ghost predicate Justifies<T(!new)>(c: Config<T>, v: Sched.Verdict, e: State<Locals<T>, T>) {
    var sys := Scheduled(c);
    match v
    case Finished => forall t | t in sys.threads :: sys.halted(e, t)
    case Deadlock =>
      && (forall t :: !S.Enabled(sys, e, t)) && (exists t :: S.Live(sys, e, t))
      && forall t | t in sys.threads :: sys.halted(e, t) || !sys.failed(e, t)
    case Failed(t) => sys.failed(e, t)
  }

  lemma NothingEnabledIsFinished<T(!new)>(c: Config<T>, run: seq<Tid>, e: State<Locals<T>, T>)
    requires c.factor >= 1 && HasProducts(c) && S.Runs(Scheduled(c), Start(c), run, e)
    ensures NoErrors(e) && ((forall t :: !S.Enabled(Scheduled(c), e, t)) ==> Finished(c, e))
  {
    ScheduledIsLawful(c);
    KernelSystem.TraceIsRun(KernelOf(c), StepsLeft(c), Threads(), Start(c), run, e);
    EveryScheduleFinishes(c, run, e);
    if forall t :: !S.Enabled(Scheduled(c), e, t) {
      StuckAgrees(c, e);
    }
  }

  lemma StuckAgrees<T(!new)>(c: Config<T>, e: State<Locals<T>, T>)
    requires WellWired(KernelOf(c)) && Scheduled(c).inv(e)
    requires forall t :: !S.Enabled(Scheduled(c), e, t)
    ensures Stuck(KernelOf(c), e)
  {
    forall t
      ensures !Enabled(KernelOf(c), e, t)
    {
      KernelSystem.EnabledAgrees(KernelOf(c), StepsLeft(c), Threads(), e, t);
    }
  }

  lemma FinishedHasHalted<T>(c: Config<T>, e: State<Locals<T>, T>)
    requires Finished(c, e)
    ensures forall t :: Scheduled(c).halted(e, t)
  {
  }

  lemma OnlyFinishedIsJustified<T(!new)>(c: Config<T>, v: Sched.Verdict, e: State<Locals<T>, T>)
    requires Justifies(c, v, e) && NoErrors(e)
    requires (forall t :: !S.Enabled(Scheduled(c), e, t)) ==> Finished(c, e) && forall t :: Scheduled(c).halted(e, t)
    ensures v == Sched.Finished && Finished(c, e)
  {
  }

  lemma OnlyFailureIsJustified<T(!new)>(c: Config<T>, v: Sched.Verdict, run: seq<Tid>, e: State<Locals<T>, T>)
    requires c.factor >= 1 && !HasProducts(c) && S.Runs(Scheduled(c), Start(c), run, e) && Justifies(c, v, e)
    ensures v == Sched.Failed(COMPUTER) && PushRefused(e)
  {
    ScheduledIsLawful(c);
    KernelSystem.TraceIsRun(KernelOf(c), StepsLeft(c), Threads(), Start(c), run, e);
    NoProductsFails(c, run, e);
    assert COMPUTER in Scheduled(c).threads;
    FailureIsJustified(c, v, |run| == 2, e);
  }

  /** Only the compute thread's failure fits what such a run leaves. */
  lemma FailureIsJustified<T(!new)>(c: Config<T>, v: Sched.Verdict, isOver: bool, e: State<Locals<T>, T>)
    requires Justifies(c, v, e) && WellWired(KernelOf(c)) && Scheduled(c).inv(e)
    requires if isOver then PushRefused(e) else OnlyCompute(c, e)
    ensures v == Sched.Failed(COMPUTER) && PushRefused(e)
  {
    assert COMPUTER in Scheduled(c).threads;
    if !isOver {
      assert Enabled(KernelOf(c), e, COMPUTER);
      KernelSystem.EnabledAgrees(KernelOf(c), StepsLeft(c), Threads(), e, COMPUTER);
    }
  }

  lemma NoneHasFailed<T(!new)>(c: Config<T>)
    ensures forall t :: !Scheduled(c).failed(Start(c), t)
  {
  }

  /** The program under the scheduler, with either algorithm: it finishes, having written every
      output block, if and only if there are products for them; otherwise the compute thread fails. */
  method RunMatmul<T(!new)>(c: Config<T>, algorithm: Sched.Algorithm)
    returns (v: Sched.Verdict, end: State<Locals<T>, T>)
    requires c.factor >= 1
    ensures v == if HasProducts(c) then Sched.Finished else Sched.Failed(COMPUTER)
    ensures if HasProducts(c) then Finished(c, end) else PushRefused(end)
  {
    ScheduledIsLawful(c);
    NoneHasFailed(c);
    var scheduler := new Sched.GreenletScheduler(Scheduled(c), algorithm, Start(c));
    v := scheduler.Run();
    end := scheduler.net;
    if HasProducts(c) {
      NothingEnabledIsFinished(c, scheduler.trace, end);
      if Finished(c, end) {
        FinishedHasHalted(c, end);
      }
      OnlyFinishedIsJustified(c, v, end);
    } else {
      OnlyFailureIsJustified(c, v, scheduler.trace, end);
    }
  }
}
