/** examples/eltwise_add.py on all its cores at once: every core's reader, compute and writer
    threads in one system, each core with its own share of the blocks. */
module PipelineCores {
  import opened DataflowQueue
  import opened Finite
  import opened Network
  import opened Pipeline
  import opened SideBySide
  import KernelSystem
  import S = Switching
  import Sched = Scheduler

  function KernelsOf<T>(cs: seq<Config<T>>): (ks: seq<Kernel<Locals<T>, T>>)
    ensures |ks| == |cs|
  {
    seq(|cs|, i requires 0 <= i < |cs| => KernelOf(cs[i]))
  }

  ghost function Starts<T>(cs: seq<Config<T>>): (sides: seq<State<Locals<T>, T>>)
    ensures |sides| == |cs|
  {
    seq(|cs|, i requires 0 <= i < |cs| => Start(cs[i]))
  }

  /** Every thread at its first line and every buffer empty. */
  function StartAll<T>(cs: seq<Config<T>>): (s: State<Locals<T>, T>)
    ensures s.threads.Keys == Names(|cs|) && s.buffers.Keys == Names(|cs|)
    ensures forall g | g in s.threads :: s.threads[g] == Running(Locals(0, 0, [], [], []))
    ensures forall g | g in s.buffers :: CoreOf(g) < |cs| && s.buffers[g] == Empty(cs[CoreOf(g)].factor)
  {
    State(map g: Tid | g in Names(|cs|) :: Running(Locals(0, 0, [], [], [])),
          map b: Buf | b in Names(|cs|) :: Empty(cs[CoreOf(b)].factor))
  }

  /** Three threads at their first line and three empty buffers. */
  ghost predicate IsFresh<T>(side: State<Locals<T>, T>, factor: nat) {
    && side.threads.Keys == {0, 1, 2} && side.buffers.Keys == {0, 1, 2}
    && (forall t | t in side.threads :: side.threads[t] == Running(Locals(0, 0, [], [], [])))
    && (forall b | b in side.buffers :: side.buffers[b] == Empty(factor))
  }

  lemma StartsAreFresh<T>(cs: seq<Config<T>>)
    ensures forall c: nat | c < |cs| :: IsFresh(Starts(cs)[c], cs[c].factor)
  {
    forall c: nat | c < |cs|
      ensures IsFresh(Starts(cs)[c], cs[c].factor)
    {
      StartIsFresh(cs[c]);
    }
  }

  lemma FreshThread<T>(s: State<Locals<T>, T>, sides: seq<State<Locals<T>, T>>, g: nat, factor: nat)
    requires g in s.threads <==> CoreOf(g) < |sides|
    requires g in s.threads ==> s.threads[g] == Running(Locals(0, 0, [], [], []))
    requires CoreOf(g) < |sides| ==> IsFresh(sides[CoreOf(g)], factor)
    ensures SameThread(s, sides, g)
  {
  }

  lemma FreshBuffer<T>(s: State<Locals<T>, T>, sides: seq<State<Locals<T>, T>>, g: nat, factor: nat)
    requires g in s.buffers <==> CoreOf(g) < |sides|
    requires g in s.buffers ==> s.buffers[g] == Empty(factor)
    requires CoreOf(g) < |sides| ==> IsFresh(sides[CoreOf(g)], factor)
    ensures SameBuffer(s, sides, g)
  {
  }

  lemma StartCombines<T>(cs: seq<Config<T>>, sides: seq<State<Locals<T>, T>>)
    requires |sides| == |cs| && forall c: nat | c < |cs| :: IsFresh(sides[c], cs[c].factor)
    ensures Combines(StartAll(cs), sides)
  {
    forall g: nat
      ensures SameThread(StartAll(cs), sides, g) && SameBuffer(StartAll(cs), sides, g)
    {
      var factor := if CoreOf(g) < |cs| then cs[CoreOf(g)].factor else 0;
      FreshThread(StartAll(cs), sides, g, factor);
      FreshBuffer(StartAll(cs), sides, g, factor);
    }
    forall c: nat | c < |sides|
      ensures InWidth(sides[c])
    {
      assert IsFresh(sides[c], cs[c].factor);
    }
  }

  lemma KernelsAreCores<T(!new)>(cs: seq<Config<T>>)
    ensures AreCores(KernelsOf(cs))
  {
    forall c: nat | c < |cs|
      ensures IsCore(KernelsOf(cs)[c])
    {
      KernelIsWired(cs[c]);
    }
  }

  function TotalSteps<T>(cs: seq<Config<T>>): nat {
    if cs == [] then 0 else TotalSteps(cs[..|cs| - 1]) + 21 * cs[|cs| - 1].blocks
  }

  ghost predicate AtMost<T>(cs: seq<Config<T>>, runs: seq<seq<Tid>>) {
    |runs| == |cs| && forall c: nat | c < |cs| :: |runs[c]| <= 21 * cs[c].blocks
  }

  lemma {:induction false} StepsAdd<T>(cs: seq<Config<T>>, runs: seq<seq<Tid>>)
    requires AtMost(cs, runs)
    ensures Total(runs) <= TotalSteps(cs)
    ensures Total(runs) == TotalSteps(cs) <==> forall c: nat | c < |cs| :: |runs[c]| == 21 * cs[c].blocks
    decreases |cs|
  {
    if cs != [] {
      var k := |cs| - 1;
      StepsAdd(cs[..k], runs[..k]);
      assert forall c: nat | c < k :: runs[..k][c] == runs[c] && cs[..k][c] == cs[c];
    }
  }

  /** Every core of the state has finished its kernel. */
  ghost predicate AllFinished<T(!new)>(cs: seq<Config<T>>, s: State<Locals<T>, T>) {
    exists sides :: |sides| == |cs| && Combines(s, sides) && forall c: nat | c < |cs| :: Finished(cs[c], sides[c])
  }

  ghost predicate AllUsable<T>(cs: seq<Config<T>>) {
    forall c: nat | c < |cs| :: cs[c].factor >= 1
  }

  /** What Pipeline.dfy proves of each run of one core. */
  ghost predicate IsOnCourse<T>(c: Config<T>, steps: nat, end: State<Locals<T>, T>) {
    && steps <= 21 * c.blocks && (Stuck(KernelOf(c), end) <==> steps == 21 * c.blocks)
    && NoErrors(end) && (Stuck(KernelOf(c), end) ==> Finished(c, end))
  }

  lemma CoreIsOnCourse<T>(c: Config<T>, run: seq<Tid>, end: State<Locals<T>, T>)
    requires c.factor >= 1
    requires IsRun(KernelOf(c), Start(c), run) && end == End(KernelOf(c), Start(c), run)
    ensures IsOnCourse(c, |run|, end)
  {
    EveryScheduleFinishes(c, run, end);
    CompleteRunsAreCorrect(c, run, end);
  }

  /** For any number of cores, with any numbers of blocks and any factors of at least one, every
      interleaving of all their threads is free of errors, takes at most 21 steps a block, and is
      stuck only when it has taken them all; then every core has finished. */
  lemma AllCoresFinish<T(!new)>(cs: seq<Config<T>>, run: seq<Tid>, end: State<Locals<T>, T>)
    requires AllUsable(cs)
    requires IsRun(Together(KernelsOf(cs)), StartAll(cs), run)
    requires end == End(Together(KernelsOf(cs)), StartAll(cs), run)
    ensures |run| <= TotalSteps(cs)
    ensures Stuck(Together(KernelsOf(cs)), end) <==> |run| == TotalSteps(cs)
    ensures NoErrors(end)
    ensures Stuck(Together(KernelsOf(cs)), end) ==> AllFinished(cs, end)
  {
    var ks := KernelsOf(cs);
    KernelsAreCores(cs);
    StartsAreFresh(cs);
    StartCombines(cs, Starts(cs));
    var runs, ends := RunSplits(ks, StartAll(cs), Starts(cs), run);
    forall c: nat | c < |cs|
      ensures IsOnCourse(cs[c], |runs[c]|, ends[c])
    {
      CoreIsOnCourse(cs[c], runs[c], ends[c]);
    }
    StuckTogether(ks, end, ends);
    OnCourseTogether(cs, runs, ends, end);
  }

  lemma OnCourseTogether<T(!new)>(cs: seq<Config<T>>, runs: seq<seq<Tid>>, ends: seq<State<Locals<T>, T>>,
                                  end: State<Locals<T>, T>)
    requires |runs| == |ends| == |cs| && Combines(end, ends)
    requires forall c: nat | c < |cs| :: IsOnCourse(cs[c], |runs[c]|, ends[c])
    ensures Total(runs) <= TotalSteps(cs) && NoErrors(end)
    ensures (forall c: nat | c < |cs| :: Stuck(KernelsOf(cs)[c], ends[c])) <==> Total(runs) == TotalSteps(cs)
    ensures (forall c: nat | c < |cs| :: Stuck(KernelsOf(cs)[c], ends[c])) ==> AllFinished(cs, end)
  {
    forall c: nat | c < |cs|
      ensures |runs[c]| <= 21 * cs[c].blocks && NoErrors(ends[c])
      ensures Stuck(KernelsOf(cs)[c], ends[c]) <==> |runs[c]| == 21 * cs[c].blocks
    {
      assert IsOnCourse(cs[c], |runs[c]|, ends[c]);
    }
    StepsAdd(cs, runs);
    NoErrorsTogether(end, ends);
  }

  lemma NoErrorsTogether<T>(s: State<Locals<T>, T>, sides: seq<State<Locals<T>, T>>)
    requires Combines(s, sides) && forall c: nat | c < |sides| :: NoErrors(sides[c])
    ensures NoErrors(s)
  {
    forall g | g in s.threads
      ensures s.threads[g].Running?
    {
      assert SameThread(s, sides, g);
    }
  }

  // ----- Under the scheduler -----

  function StepsLeftOf<T>(cs: seq<Config<T>>, g: Tid, l: Locals<T>): nat {
    if CoreOf(g) < |cs| then StepsLeft(cs[CoreOf(g)])(Within(g), l) else 0
  }

  function StepsLeftIn<T>(cs: seq<Config<T>>): (Tid, Locals<T>) -> nat {
    (g: Tid, l: Locals<T>) => StepsLeftOf(cs, g, l)
  }

  lemma TogetherIsFinite<T(!new)>(cs: seq<Config<T>>)
    ensures KernelSystem.FiniteThreads(Together(KernelsOf(cs)), StepsLeftIn(cs))
  {
    var k := Together(KernelsOf(cs));
    forall g: Tid, l: Locals<T>, seen: seq<T> | !k.next(g, l).Halt?
      ensures StepsLeftIn(cs)(g, k.resume(g, l, seen)) < StepsLeftIn(cs)(g, l)
    {
      KernelIsFinite(cs[CoreOf(g)]);
      assert !KernelOf(cs[CoreOf(g)]).next(Within(g), l).Halt?;
    }
  }

  function Threads(n: nat): (s: seq<Tid>)
    ensures |s| == n && forall i: nat | i < n :: s[i] == i
  {
    if n == 0 then [] else Threads(n - 1) + [n - 1]
  }

  lemma ThreadsAreDistinct(n: nat)
    ensures Distinct(Threads(n)) && forall g: Tid :: g in Threads(n) <==> g < n
  {
    forall g: Tid | g < n
      ensures g in Threads(n)
    {
      assert Threads(n)[g] == g;
    }
  }

  /** All cores as the scheduler sees them. */
  function ScheduledCores<T>(cs: seq<Config<T>>): S.System<State<Locals<T>, T>> {
    KernelSystem.SystemOf(Together(KernelsOf(cs)), StepsLeftIn(cs), Threads(WIDTH * |cs|))
  }

  lemma CoresAreLawful<T(!new)>(cs: seq<Config<T>>)
    ensures WellWired(Together(KernelsOf(cs)))
    ensures S.Lawful(ScheduledCores(cs)) && ScheduledCores(cs).inv(StartAll(cs))
  {
    KernelsAreCores(cs);
    TogetherIsWired(KernelsOf(cs));
    TogetherIsFinite(cs);
    ThreadsAreDistinct(WIDTH * |cs|);
    KernelSystem.KernelsAreLawful(Together(KernelsOf(cs)), StepsLeftIn(cs), Threads(WIDTH * |cs|));
  }

  lemma CoreHasHalted<T>(c: Config<T>, side: State<Locals<T>, T>, t: Tid)
    requires Finished(c, side)
    ensures KernelSystem.Halted(KernelOf(c), side, t)
  {
  }

  lemma AllHalted<T(!new)>(cs: seq<Config<T>>, e: State<Locals<T>, T>, g: Tid)
    requires AllFinished(cs, e)
    ensures ScheduledCores(cs).halted(e, g)
  {
    var sides :| |sides| == |cs| && Combines(e, sides) && forall c: nat | c < |cs| :: Finished(cs[c], sides[c]);
    if CoreOf(g) < |cs| {
      CoreHasHalted(cs[CoreOf(g)], sides[CoreOf(g)], Within(g));
    }
    HaltedTogether(KernelsOf(cs), e, sides, g);
  }

  lemma TraceReaches<T(!new)>(cs: seq<Config<T>>, run: seq<Tid>, e: State<Locals<T>, T>)
    requires AllUsable(cs) && S.Runs(ScheduledCores(cs), StartAll(cs), run, e)
    ensures ScheduledCores(cs).inv(e) && NoErrors(e)
    ensures Stuck(Together(KernelsOf(cs)), e) ==> AllFinished(cs, e)
  {
    CoresAreLawful(cs);
    KernelSystem.TraceIsRun(Together(KernelsOf(cs)), StepsLeftIn(cs), Threads(WIDTH * |cs|), StartAll(cs), run, e);
    AllCoresFinish(cs, run, e);
  }

  lemma StuckTogetherAgrees<T(!new)>(cs: seq<Config<T>>, e: State<Locals<T>, T>)
    requires WellWired(Together(KernelsOf(cs))) && ScheduledCores(cs).inv(e)
    requires forall g :: !S.Enabled(ScheduledCores(cs), e, g)
    ensures Stuck(Together(KernelsOf(cs)), e)
  {
    forall g
      ensures !Enabled(Together(KernelsOf(cs)), e, g)
    {
      KernelSystem.EnabledAgrees(Together(KernelsOf(cs)), StepsLeftIn(cs), Threads(WIDTH * |cs|), e, g);
    }
  }

  lemma EndsFinished<T(!new)>(cs: seq<Config<T>>, e: State<Locals<T>, T>)
    requires WellWired(Together(KernelsOf(cs))) && ScheduledCores(cs).inv(e)
    requires Stuck(Together(KernelsOf(cs)), e) ==> AllFinished(cs, e)
    requires forall g :: !S.Enabled(ScheduledCores(cs), e, g)
    ensures AllFinished(cs, e) && forall g: Tid :: ScheduledCores(cs).halted(e, g)
  {
    StuckTogetherAgrees(cs, e);
    forall g: Tid
      ensures ScheduledCores(cs).halted(e, g)
    {
      AllHalted(cs, e, g);
    }
  }

  /** The scheduler runs all cores to their ends, whichever algorithm it uses: no run reports a
      failure or a deadlock. */
  lemma EitherAlgorithmFinishesAll<T(!new)>(cs: seq<Config<T>>, run: seq<Tid>, e: State<Locals<T>, T>)
    requires AllUsable(cs) && S.Runs(ScheduledCores(cs), StartAll(cs), run, e)
    ensures S.Lawful(ScheduledCores(cs)) && NoErrors(e)
    ensures (forall g :: !S.Enabled(ScheduledCores(cs), e, g)) ==>
              AllFinished(cs, e) && forall g: Tid :: ScheduledCores(cs).halted(e, g)
  {
    CoresAreLawful(cs);
    TraceReaches(cs, run, e);
    if forall g :: !S.Enabled(ScheduledCores(cs), e, g) {
      EndsFinished(cs, e);
    }
  }

  /** What a verdict says of the state it leaves. */
  ghost predicate Justifies<T(!new)>(cs: seq<Config<T>>, v: Sched.Verdict, e: State<Locals<T>, T>) {
    var sys := ScheduledCores(cs);
    match v
    case Finished => forall t | t in sys.threads :: sys.halted(e, t)
    case Deadlock => (forall t :: !S.Enabled(sys, e, t)) && exists t :: S.Live(sys, e, t)
    case Failed(t) => sys.failed(e, t)
  }

  lemma OnlyFinishedIsJustified<T(!new)>(cs: seq<Config<T>>, v: Sched.Verdict, e: State<Locals<T>, T>)
    requires Justifies(cs, v, e) && NoErrors(e)
    requires (forall g :: !S.Enabled(ScheduledCores(cs), e, g)) ==>
               AllFinished(cs, e) && forall g: Tid :: ScheduledCores(cs).halted(e, g)
    ensures v == Sched.Finished && AllFinished(cs, e)
  {
  }

  lemma NoneHasFailed<T(!new)>(cs: seq<Config<T>>)
    ensures forall g :: !ScheduledCores(cs).failed(StartAll(cs), g)
  {
  }

  /** A scheduler made for the cores and run, with either algorithm: it reports success, and what
      it leaves is every core finished.  A core may have no blocks at all. */
  method RunCores<T(!new)>(cs: seq<Config<T>>, algorithm: Sched.Algorithm)
    returns (v: Sched.Verdict, end: State<Locals<T>, T>)
    requires AllUsable(cs)
    ensures v == Sched.Finished
    ensures AllFinished(cs, end)
  {
    CoresAreLawful(cs);
    NoneHasFailed(cs);
    var scheduler := new Sched.GreenletScheduler(ScheduledCores(cs), algorithm, StartAll(cs));
    v := scheduler.Run();
    end := scheduler.net;
    EitherAlgorithmFinishesAll(cs, scheduler.trace, end);
    OnlyFinishedIsJustified(cs, v, end);
  }
}
