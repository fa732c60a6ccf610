/** A kernel over dataflow buffers as the scheduler sees it: `block_if_needed`, `can_wait` and
    `can_reserve` in python/sim/dfb.py and python/sim/copy.py.  With it the scheduler's results
    apply to kernels, and schedule independence applies to the scheduler's two algorithms. */
module KernelSystem {
  import opened BlockState
  import opened DataflowQueue
  import opened Network
  import Finite
  import S = Switching

  /** Threads are finite: every step brings a thread closer to its end. */
  ghost predicate FiniteThreads<L(!new), T(!new)>(k: Kernel<L, T>, rank: (Tid, L) -> nat) {
    forall t: Tid, l: L, seen: seq<T> ::
      !k.next(t, l).Halt? ==> rank(t, k.resume(t, l, seen)) < rank(t, l)
  }

  /** The thread is at a `block_if_needed` call: wait(), reserve(), or a transaction's wait().  A
      wait or reserve with a block already pending raises before it gets there. */
  predicate AtSync<L, T>(k: Kernel<L, T>, s: State<L, T>, t: Tid) {
    Active(k, s, t) &&
    match NextOf(k, s, t)
    case Wait(b) => s.buffers[b].reader.None?
    case Reserve(b) => s.buffers[b].writer.None?
    case Write(_, op, _) => op == TxWait
    case Read(_, op, _) => op == TxWait
    case _ => false
  }

  /** can_wait / can_reserve of the object the thread is at; a copy between a tensor and a block
      can always complete. */
  predicate CanProceed<L, T>(k: Kernel<L, T>, s: State<L, T>, t: Tid) {
    Active(k, s, t) &&
    match NextOf(k, s, t)
    case Wait(b) => CanWait(s.buffers[b])
    case Reserve(b) => CanReserve(s.buffers[b])
    case _ => true
  }

  predicate Halted<L, T>(k: Kernel<L, T>, s: State<L, T>, t: Tid) {
    t !in s.threads || (s.threads[t].Running? && k.next(t, s.threads[t].local).Halt?)
  }

  function Step<L, T>(k: Kernel<L, T>, s: State<L, T>, t: Tid): State<L, T> {
    if Enabled(k, s, t) then Fire(k, s, t) else s
  }

  function Rank<L, T>(rank: (Tid, L) -> nat, s: State<L, T>, t: Tid): nat {
    if t in s.threads && s.threads[t].Running? then rank(t, s.threads[t].local) + 1 else 0
  }

  function SystemOf<L, T>(k: Kernel<L, T>, rank: (Tid, L) -> nat, threads: seq<Tid>): S.System<State<L, T>> {
    S.System(
      threads,
      (s: State<L, T>, t: Tid) => Halted(k, s, t),
      (s: State<L, T>, t: Tid) => t in s.threads && s.threads[t].Crashed?,
      (s: State<L, T>, t: Tid) => AtSync(k, s, t),
      (s: State<L, T>, t: Tid) => CanProceed(k, s, t),
      (s: State<L, T>, t: Tid) => Step(k, s, t),
      (s: State<L, T>, t: Tid) => Rank(rank, s, t),
      (s: State<L, T>) => Network.Inv(k, s) && forall t | t in s.threads :: t in threads)
  }

  lemma EnabledAtSync<L, T>(k: Kernel<L, T>, s: State<L, T>, t: Tid)
    requires Active(k, s, t)
    ensures Enabled(k, s, t) <==> (AtSync(k, s, t) ==> CanProceed(k, s, t))
  {
    match NextOf(k, s, t)
    case Reserve(_) =>
    case Push(_) =>
    case Wait(_) =>
    case Pop(_) =>
    case Write(_, _, _) =>
    case Read(_, _, _) =>
  }

  /** The synchronisation points: wait and reserve where no block is pending, and the wait for a copy;
      no other operation can be held up. */
  lemma SyncPoints<L, T>(k: Kernel<L, T>, s: State<L, T>, t: Tid)
    requires Active(k, s, t)
    ensures var a := NextOf(k, s, t);
            AtSync(k, s, t) <==>
              || (a.Wait? && s.buffers[a.b].reader.None?) || (a.Reserve? && s.buffers[a.b].writer.None?)
              || ((a.Read? || a.Write?) && a.op == TxWait)
    ensures !AtSync(k, s, t) ==> Enabled(k, s, t)
    ensures AtSync(k, s, t) && NextOf(k, s, t).Wait? ==>
              (Enabled(k, s, t) <==> s.buffers[NextOf(k, s, t).b].blocks != [])
  {
    EnabledAtSync(k, s, t);
  }

  /** The scheduler's idea of an operation that can proceed is the kernel's. */
  lemma EnabledAgrees<L(!new), T(!new)>(k: Kernel<L, T>, rank: (Tid, L) -> nat, threads: seq<Tid>,
                                        s: State<L, T>, t: Tid)
    requires WellWired(k) && SystemOf(k, rank, threads).inv(s)
    ensures S.Enabled(SystemOf(k, rank, threads), s, t) <==> Enabled(k, s, t)
  {
    if t in s.threads && s.threads[t].Running? && !k.next(t, s.threads[t].local).Halt? {
      EnabledAtSync(k, s, t);
    }
  }

  /** A thread at a synchronisation point is still there after another thread has moved, and one
      elsewhere does not get there. */
  lemma SyncUnmoved<L(!new), T(!new)>(k: Kernel<L, T>, s: State<L, T>, t: Tid, u: Tid)
    requires WellWired(k) && Network.Inv(k, s) && t != u && Active(k, s, t) && Enabled(k, s, u)
    ensures AtSync(k, Fire(k, s, u), t) == AtSync(k, s, t)
  {
    FireLooks(k, s, u);
    FireIs(k, s, u);
    var a, c := NextOf(k, s, t), NextOf(k, s, u);
    if a.b == c.b {
      var q := s.buffers[c.b];
      if Effect(k.kind(u), k.zeros(c.b), c, q).Success? {
        if ProducerSide(c) {
          ProducerFrame(k.kind(u), k.zeros(c.b), c, q);
        } else {
          ConsumerFrame(k.kind(u), k.zeros(c.b), c, q);
        }
      }
    }
  }

  lemma StepIsLawful<L(!new), T(!new)>(k: Kernel<L, T>, rank: (Tid, L) -> nat, threads: seq<Tid>,
                                       s: State<L, T>, t: Tid)
    requires WellWired(k) && FiniteThreads(k, rank)
    requires SystemOf(k, rank, threads).inv(s) && Enabled(k, s, t)
    ensures S.StepLaw(SystemOf(k, rank, threads), s, t)
  {
    var sys, s' := SystemOf(k, rank, threads), Fire(k, s, t);
    FireLooks(k, s, t);
    FireKeepsInv(k, s, t);
    forall u: Tid | u != t
      ensures S.SameFor(sys, s, s', u) && (S.Enabled(sys, s, u) ==> S.Enabled(sys, s', u))
    {
      EnabledAgrees(k, rank, threads, s, u);
      EnabledAgrees(k, rank, threads, s', u);
      if Enabled(k, s, u) {
        NeverDisabled(k, s, u, t);
      }
      if Active(k, s, u) {
        SyncUnmoved(k, s, u, t);
      }
    }
    RankDrops(k, rank, s, t);
  }

  lemma RankDrops<L(!new), T(!new)>(k: Kernel<L, T>, rank: (Tid, L) -> nat, s: State<L, T>, t: Tid)
    requires FiniteThreads(k, rank) && Enabled(k, s, t)
    ensures Rank(rank, Fire(k, s, t), t) < Rank(rank, s, t)
  {
  }

  /** Every finite kernel is a system the scheduler can run. */
  lemma KernelsAreLawful<L(!new), T(!new)>(k: Kernel<L, T>, rank: (Tid, L) -> nat, threads: seq<Tid>)
    requires WellWired(k) && FiniteThreads(k, rank) && Finite.Distinct(threads)
    ensures S.Lawful(SystemOf(k, rank, threads))
  {
    var sys := SystemOf(k, rank, threads);
    forall s: State<L, T>, t: Tid | sys.inv(s) && S.Enabled(sys, s, t)
      ensures S.StepLaw(sys, s, t)
    {
      EnabledAgrees(k, rank, threads, s, t);
      StepIsLawful(k, rank, threads, s, t);
    }
  }

  lemma StepIsFire<L(!new), T(!new)>(k: Kernel<L, T>, rank: (Tid, L) -> nat, threads: seq<Tid>, s: State<L, T>, t: Tid)
    requires WellWired(k) && SystemOf(k, rank, threads).inv(s) && S.Enabled(SystemOf(k, rank, threads), s, t)
    ensures Enabled(k, s, t) && SystemOf(k, rank, threads).step(s, t) == Fire(k, s, t)
    ensures SystemOf(k, rank, threads).inv(Fire(k, s, t))
  {
    EnabledAgrees(k, rank, threads, s, t);
    FireLooks(k, s, t);
    FireKeepsInv(k, s, t);
  }

  /** The steps of `sys` are steps of the kernel. */
  ghost predicate Simulates<L(!new), T(!new)>(sys: S.System<State<L, T>>, k: Kernel<L, T>) {
    forall s: State<L, T>, t: Tid | sys.inv(s) && S.Enabled(sys, s, t) ::
      Enabled(k, s, t) && sys.step(s, t) == Fire(k, s, t) && sys.inv(Fire(k, s, t))
  }

  lemma {:induction false} SimulatedRun<L(!new), T(!new)>(sys: S.System<State<L, T>>, k: Kernel<L, T>,
                                                          s: State<L, T>, run: seq<Tid>, e: State<L, T>)
    requires Simulates(sys, k) && sys.inv(s) && S.Runs(sys, s, run, e)
    ensures IsRun(k, s, run) && End(k, s, run) == e && sys.inv(e)
    decreases |run|
  {
    if run != [] {
      var n := |run| - 1;
      var m := S.After(sys, s, run[..n]);
      assert forall x: nat | x < n :: run[..n][..x] == run[..x];
      SimulatedRun(sys, k, s, run[..n], m);
      ExtendRun(k, s, run[..n], run[n]);
      assert run == run[..n] + [run[n]];
    }
  }

  /** The operations the scheduler performed are a run of the kernel. */
  lemma TraceIsRun<L(!new), T(!new)>(k: Kernel<L, T>, rank: (Tid, L) -> nat, threads: seq<Tid>,
                                     s: State<L, T>, run: seq<Tid>, e: State<L, T>)
    requires WellWired(k) && SystemOf(k, rank, threads).inv(s)
    requires S.Runs(SystemOf(k, rank, threads), s, run, e)
    ensures IsRun(k, s, run) && End(k, s, run) == e && SystemOf(k, rank, threads).inv(e)
  {
    var sys := SystemOf(k, rank, threads);
    forall s: State<L, T>, t: Tid | sys.inv(s) && S.Enabled(sys, s, t)
      ensures Enabled(k, s, t) && sys.step(s, t) == Fire(k, s, t) && sys.inv(Fire(k, s, t))
    {
      StepIsFire(k, rank, threads, s, t);
    }
    SimulatedRun(sys, k, s, run, e);
  }

  /** Greedy or fair, the scheduler reaches the same end: if one of its runs finishes or
      deadlocks having popped only what was waited for, every other run that is not cut short
      by an error ends in the same state, with the same threads finished or blocked. */
  lemma SchedulersAgree<L(!new), T(!new)>(k: Kernel<L, T>, rank: (Tid, L) -> nat, threads: seq<Tid>, s: State<L, T>,
                                          run: seq<Tid>, e: State<L, T>, other: seq<Tid>, f: State<L, T>)
    requires WellWired(k) && FiniteThreads(k, rank) && Finite.Distinct(threads)
    requires var sys := SystemOf(k, rank, threads);
             && sys.inv(s) && S.Runs(sys, s, run, e) && S.Runs(sys, s, other, f)
             && (forall t :: !S.Enabled(sys, e, t)) && (forall t :: !S.Enabled(sys, f, t))
    requires IsRun(k, s, run) && Disciplined(k, s, run)
    ensures f == e && |other| == |run|
  {
    TraceIsRun(k, rank, threads, s, run, e);
    TraceIsRun(k, rank, threads, s, other, f);
    forall t
      ensures !Enabled(k, e, t) && !Enabled(k, f, t)
    {
      EnabledAgrees(k, rank, threads, e, t);
      EnabledAgrees(k, rank, threads, f, t);
    }
    ScheduleIndependence(k, s, run, other);
    assert |multiset(run)| == |run| && |multiset(other)| == |other|;
  }

  /** If one run completes without an error then the scheduler never reports one, whichever
      algorithm it uses. */
  lemma NoAlgorithmFails<L(!new), T(!new)>(k: Kernel<L, T>, rank: (Tid, L) -> nat, threads: seq<Tid>, s: State<L, T>,
                                           run: seq<Tid>, other: seq<Tid>, f: State<L, T>, t: Tid)
    requires WellWired(k) && FiniteThreads(k, rank) && Finite.Distinct(threads)
    requires SystemOf(k, rank, threads).inv(s) && S.Runs(SystemOf(k, rank, threads), s, other, f)
    requires Complete(k, s, run) && Disciplined(k, s, run)
    requires t in s.threads && t in End(k, s, run).threads && End(k, s, run).threads[t].Running?
    ensures !SystemOf(k, rank, threads).failed(f, t)
  {
    TraceIsRun(k, rank, threads, s, other, f);
    ErrorsAreScheduleIndependent(k, s, run, other, t);
  }
}
