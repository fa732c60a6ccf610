/** Threads as the cooperative scheduler sees them (python/sim/greenlet_scheduler.py): only through
    what blocks them.  Runs of such a system, the log of switches that makes up a run, and how long
    an enabled operation can wait in it.  KernelSystem.dfy gives the system that a kernel over
    dataflow buffers makes. */
module Switching {
  import opened Finite

  type Tid = nat

  /** How threads look to the scheduler: whether a thread has returned or raised, whether it is
      at a `block_if_needed` call and its object can proceed, and what its next operation does.
      `rank` bounds the operations a thread has left. */
  datatype System<!S> = System(
    threads: seq<Tid>,
    halted: (S, Tid) -> bool,
    failed: (S, Tid) -> bool,
    atSync: (S, Tid) -> bool,
    canProceed: (S, Tid) -> bool,
    step: (S, Tid) -> S,
    rank: (S, Tid) -> nat,
    inv: S -> bool)

  predicate Live<S>(sys: System<S>, s: S, t: Tid) {
    t in sys.threads && !sys.halted(s, t) && !sys.failed(s, t)
  }

  /** The thread's next operation would not block. */
  predicate Enabled<S>(sys: System<S>, s: S, t: Tid) {
    Live(sys, s, t) && (sys.atSync(s, t) ==> sys.canProceed(s, t))
  }

  /** A thread that has not raised and, if it is blocked on an object, is at a synchronisation
      point. */
  predicate AtRest<S>(sys: System<S>, s: S, t: Tid, isBlocked: bool) {
    !sys.failed(s, t) && (isBlocked ==> Live(sys, s, t) && sys.atSync(s, t))
  }

  /** Threads are finite, and running one never disables or moves another. */
  ghost predicate Lawful<S(!new)>(sys: System<S>) {
    && Distinct(sys.threads)
    && forall s: S, t: Tid | sys.inv(s) && Enabled(sys, s, t) :: StepLaw(sys, s, t)
  }

  ghost predicate StepLaw<S>(sys: System<S>, s: S, t: Tid) {
    var s' := sys.step(s, t);
    && sys.inv(s') && sys.rank(s', t) < sys.rank(s, t)
    && Kept(sys, s, s', t)
  }

  /** The threads other than t are where they were, and those that could proceed still can. */
  ghost predicate Kept<S>(sys: System<S>, s: S, s': S, t: Tid) {
    forall u: Tid | u != t :: SameFor(sys, s, s', u) && (Enabled(sys, s, u) ==> Enabled(sys, s', u))
  }

  lemma KeptTransitive<S>(sys: System<S>, a: S, b: S, c: S, t: Tid)
    requires Kept(sys, a, b, t) && Kept(sys, b, c, t)
    ensures Kept(sys, a, c, t)
  {
    forall u: Tid | u != t
      ensures SameFor(sys, a, c, u) && (Enabled(sys, a, u) ==> Enabled(sys, c, u))
    {
      assert SameFor(sys, a, b, u) && SameFor(sys, b, c, u);
    }
  }

  /** Thread u is where it was. */
  predicate SameFor<S>(sys: System<S>, s: S, s': S, u: Tid) {
    && sys.halted(s', u) == sys.halted(s, u) && sys.failed(s', u) == sys.failed(s, u)
    && sys.rank(s', u) == sys.rank(s, u)
    && (Live(sys, s, u) ==> sys.atSync(s', u) == sys.atSync(s, u))
  }

  lemma OthersUnmoved<S>(sys: System<S>, s: S, s': S, t: Tid)
    requires Kept(sys, s, s', t)
    ensures forall u: Tid | u != t :: sys.halted(s', u) == sys.halted(s, u) && sys.failed(s', u) == sys.failed(s, u)
    ensures forall u: Tid | u != t && Live(sys, s, u) :: Live(sys, s', u) && sys.atSync(s', u) == sys.atSync(s, u)
  {
    forall u: Tid | u != t
      ensures sys.halted(s', u) == sys.halted(s, u) && sys.failed(s', u) == sys.failed(s, u)
      ensures Live(sys, s, u) ==> Live(sys, s', u) && sys.atSync(s', u) == sys.atSync(s, u)
    {
      assert SameFor(sys, s, s', u);
    }
  }

  /** The state after the steps of `run`. */
  function After<S>(sys: System<S>, s: S, run: seq<Tid>): S {
    if run == [] then s
    else
      var n := |run| - 1;
      sys.step(After(sys, s, run[..n]), run[n])
  }

  /** The steps of `run` are enabled when they are taken and lead from s to e. */
  ghost predicate Runs<S>(sys: System<S>, s: S, run: seq<Tid>, e: S) {
    e == After(sys, s, run) &&
    (run == [] ||
     var n := |run| - 1;
     Runs(sys, s, run[..n], After(sys, s, run[..n])) && Enabled(sys, After(sys, s, run[..n]), run[n]))
  }

  lemma ExtendRuns<S>(sys: System<S>, s: S, run: seq<Tid>, e: S, t: Tid)
    requires Runs(sys, s, run, e) && Enabled(sys, e, t)
    ensures Runs(sys, s, run + [t], sys.step(e, t))
  {
    assert (run + [t])[..|run|] == run;
  }

  /** From operation lo on the run is thread t's turn.  Under the fair algorithm none of its
      operations passes a synchronisation point, except the one that a resumed thread starts with. */
  ghost predicate Turn<S>(sys: System<S>, fair: bool, s: S, run: seq<Tid>, lo: nat, t: Tid, resuming: bool) {
    |run| <= lo ||
    var n := |run| - 1;
    && run[n] == t && Turn(sys, fair, s, run[..n], lo, t, resuming)
    && (fair && (n > lo || !resuming) ==> !sys.atSync(After(sys, s, run[..n]), t))
  }

  lemma TurnOneMore<S>(sys: System<S>, fair: bool, s: S, run: seq<Tid>, lo: nat, t: Tid, resuming: bool)
    requires Turn(sys, fair, s, run, lo, t, resuming) && lo <= |run|
    requires fair && (|run| > lo || !resuming) ==> !sys.atSync(After(sys, s, run), t)
    ensures Turn(sys, fair, s, run + [t], lo, t, resuming)
  {
    assert (run + [t])[..|run|] == run;
  }

  lemma {:induction false} TurnWeakens<S>(sys: System<S>, fair: bool, s: S, run: seq<Tid>, lo: nat, t: Tid,
                                          resuming: bool)
    requires Turn(sys, fair, s, run, lo, t, resuming)
    ensures Turn(sys, fair, s, run, lo, t, true)
    decreases |run|
  {
    if |run| > lo {
      TurnWeakens(sys, fair, s, run[..|run| - 1], lo, t, resuming);
    }
  }

  /** No operation of the run passes a synchronisation point. */
  ghost predicate Unsynced<S>(sys: System<S>, s: S, run: seq<Tid>) {
    run == [] ||
    var n := |run| - 1;
    Unsynced(sys, s, run[..n]) && !sys.atSync(After(sys, s, run[..n]), run[n])
  }

  lemma {:induction false} UnsyncedLonger<S>(sys: System<S>, s: S, run: seq<Tid>, longer: seq<Tid>, t: Tid)
    requires Unsynced(sys, s, run) && run <= longer && Turn(sys, true, s, longer, |run|, t, false)
    ensures Unsynced(sys, s, longer)
    decreases |longer|
  {
    if |longer| == |run| {
      assert longer == run;
    } else {
      UnsyncedLonger(sys, s, run, longer[..|longer| - 1], t);
    }
  }

  /** Every thread has halted or is at a synchronisation point. */
  ghost predicate AllAtSync<S>(sys: System<S>, s: S) {
    forall t | t in sys.threads :: sys.halted(s, t) || sys.atSync(s, t)
  }

  /** Where the last switch ends. */
  function Last(marks: seq<nat>): nat {
    if marks == [] then 0 else marks[|marks| - 1]
  }

  /** `log` is the run's switches after a prologue: switch i makes the operations from marks[i] to
      marks[i + 1], and at[i] is the state before it. */
  ghost predicate Follows<S>(sys: System<S>, fair: bool, s: S, prologue: seq<Tid>, run: seq<Tid>,
                             log: seq<Tid>, at: seq<S>, marks: seq<nat>)
    decreases |log|
  {
    var n := |log|;
    && |at| == |marks| == n + 1 && marks[n] == |run| && at[n] == After(sys, s, run)
    && if n == 0 then run == prologue
       else
         && marks[n - 1] <= |run| && Turn(sys, fair, s, run, marks[n - 1], log[n - 1], true)
         && Follows(sys, fair, s, prologue, run[..marks[n - 1]], log[..n - 1], at[..n], marks[..n])
  }

  lemma FollowsOneMore<S>(sys: System<S>, fair: bool, s: S, prologue: seq<Tid>, run: seq<Tid>,
                          log: seq<Tid>, at: seq<S>, marks: seq<nat>, t: Tid, longer: seq<Tid>)
    requires Follows(sys, fair, s, prologue, run, log, at, marks) && run <= longer
    requires Turn(sys, fair, s, longer, |run|, t, true)
    ensures Follows(sys, fair, s, prologue, longer, log + [t], at + [After(sys, s, longer)], marks + [|longer|])
  {
    var log', at', marks' := log + [t], at + [After(sys, s, longer)], marks + [|longer|];
    assert log'[..|log|] == log && at'[..|at|] == at && marks'[..|marks|] == marks;
    assert longer[..|run|] == run;
  }

  // ----- Bounded waiting, on the log of switches -----

  /** `at[p]` is the state before the p-th switch of `log`, and the last one is the present. */
  ghost predicate KeepsEnabled<S>(sys: System<S>, log: seq<Tid>, at: seq<S>) {
    && |at| == |log| + 1
    && forall p: nat, r: nat, t: Tid | p <= r <= |log| && Enabled(sys, at[p], t) && t !in log[p..r] ::
         Enabled(sys, at[r], t)
  }

  /** Thread v's operation has been able to proceed since before switch p, and v was not run. */
  ghost predicate WaitsSince<S>(sys: System<S>, log: seq<Tid>, at: seq<S>, p: nat, v: Tid)
    requires |at| == |log| + 1
  {
    p <= |log| && Enabled(sys, at[p], v) && v !in log[p..]
  }

  /** Meanwhile no other thread was switched to more than once. */
  ghost predicate OnceEach<S>(sys: System<S>, log: seq<Tid>, at: seq<S>)
    requires |at| == |log| + 1
  {
    forall p: nat, v: Tid | WaitsSince(sys, log, at, p, v) :: Distinct(log[p..])
  }

  /** Meanwhile no other thread was switched to more than twice. */
  ghost predicate TwiceEach<S>(sys: System<S>, log: seq<Tid>, at: seq<S>)
    requires |at| == |log| + 1
  {
    forall p: nat, v: Tid | WaitsSince(sys, log, at, p, v) :: TwoRounds(log, p)
  }

  ghost predicate TwoRounds(log: seq<Tid>, p: nat)
    requires p <= |log|
  {
    exists m: nat :: p <= m <= |log| && Distinct(log[p..m]) && Distinct(log[m..])
  }

  lemma ExtendKeeps<S>(sys: System<S>, log: seq<Tid>, at: seq<S>, u: Tid, s': S)
    requires KeepsEnabled(sys, log, at)
    requires forall t | t != u && Enabled(sys, at[|log|], t) :: Enabled(sys, s', t)
    ensures KeepsEnabled(sys, log + [u], at + [s'])
  {
    var log', at' := log + [u], at + [s'];
    forall p: nat, r: nat, t: Tid | p <= r <= |log'| && Enabled(sys, at'[p], t) && t !in log'[p..r]
      ensures Enabled(sys, at'[r], t)
    {
      if r <= |log| {
        assert log'[p..r] == log[p..r];
      } else if p <= |log| {
        assert log'[p..r] == log[p..] + [u];
        assert log[p..|log|] == log[p..];
        assert Enabled(sys, at[|log|], t);
      }
    }
  }

  /** Every thread of `seen` was switched to in log[q..r], or could not proceed at some point of
      that stretch. */
  ghost predicate Covered<S>(sys: System<S>, log: seq<Tid>, at: seq<S>, q: nat, r: nat, seen: seq<Tid>)
    requires |at| == |log| + 1 && q <= r <= |log|
  {
    forall x | x in seen :: x in log[q..r] || exists i: nat :: q <= i <= r && !Enabled(sys, at[i], x)
  }

  /** A thread that has waited since p was not seen by any pass that started at or after p. */
  lemma NotSeenWhileWaiting<S>(sys: System<S>, log: seq<Tid>, at: seq<S>, p: nat, v: Tid, q: nat, r: nat,
                               seen: seq<Tid>)
    requires KeepsEnabled(sys, log, at) && WaitsSince(sys, log, at, p, v)
    requires p <= q <= r <= |log| && Covered(sys, log, at, q, r, seen)
    ensures v !in seen
  {
    forall i: nat | q <= i <= r
      ensures v !in log[p..i] && Enabled(sys, at[i], v)
    {
      assert forall x: nat | x < i - p :: log[p..i][x] == log[p..][x];
    }
    assert forall x: nat | x < r - q :: log[q..r][x] == log[p..][x + q - p];
  }

  /** The stamps that last_run holds at the start of a pass, when the log has q entries: a thread
      run at entry i has a later stamp than one not run since. */
  ghost predicate Stamped(log: seq<Tid>, q: nat, lastRun: map<Tid, nat>, base: nat, ts: seq<Tid>)
    requires q <= |log|
  {
    forall i: nat, x: Tid | i < q && x in ts :: StampedAt(log, q, lastRun, base, i, x)
  }

  ghost predicate StampedAt(log: seq<Tid>, q: nat, lastRun: map<Tid, nat>, base: nat, i: nat, x: Tid)
    requires i < q <= |log|
  {
    && x in lastRun
    && (log[i] == x ==> lastRun[x] > base + i)
    && (x !in log[i..q] ==> lastRun[x] <= base + i)
  }

  ghost predicate SortedByStamp(ts: seq<Tid>, lastRun: map<Tid, nat>) {
    forall i: nat, j: nat | i < j < |ts| ::
      ts[i] in lastRun && ts[j] in lastRun && lastRun[ts[i]] <= lastRun[ts[j]]
  }

  /** In a pass over candidates in stamp order, the thread about to run has not run since p if
      some other candidate has been waiting since p. */
  lemma NotTwice<S>(sys: System<S>, log: seq<Tid>, at: seq<S>, base: nat, lastRun: map<Tid, nat>,
                    candidates: seq<Tid>, q: nat, j: nat, p: nat, v: Tid)
    requires KeepsEnabled(sys, log, at) && q <= |log|
    requires Distinct(candidates) && SortedByStamp(candidates, lastRun) && j < |candidates|
    requires Stamped(log, q, lastRun, base, candidates)
    requires forall x | x in log[q..] :: x in candidates[..j]
    requires Covered(sys, log, at, q, |log|, candidates[..j])
    requires WaitsSince(sys, log, at, p, v) && v in candidates
    ensures candidates[j] !in log[p..]
  {
    var u := candidates[j];
    assert forall i: nat | q <= i < |log| :: log[q..][i - q] == log[i];
    assert u !in log[q..];
    if u in log[p..] {
      var i: nat :| p <= i < |log| && log[i] == u;
      if i < q {
        assert forall x: nat | x < q - i :: log[i..q][x] == log[p..][x + i - p];
        assert StampedAt(log, q, lastRun, base, i, v) && StampedAt(log, q, lastRun, base, i, u);
        assert lastRun[v] <= base + i < lastRun[u];
        var y: nat :| y < |candidates| && candidates[y] == v;
        assert y < j;
        assert candidates[..j][y] == v;
        NotSeenWhileWaiting(sys, log, at, p, v, q, |log|, candidates[..j]);
      }
    }
  }

  lemma ExtendOnce<S>(sys: System<S>, log: seq<Tid>, at: seq<S>, u: Tid, s': S)
    requires |at| == |log| + 1 && OnceEach(sys, log, at)
    requires forall p: nat, v: Tid | WaitsSince(sys, log, at, p, v) && v != u :: u !in log[p..]
    ensures OnceEach(sys, log + [u], at + [s'])
  {
    var log', at' := log + [u], at + [s'];
    forall p: nat, v: Tid | WaitsSince(sys, log', at', p, v)
      ensures Distinct(log'[p..])
    {
      if p <= |log| {
        assert log'[p..] == log[p..] + [u];
        assert log'[p..][|log| - p] == u;
        assert WaitsSince(sys, log, at, p, v);
      }
    }
  }

  lemma ExtendTwice<S>(sys: System<S>, log: seq<Tid>, at: seq<S>, u: Tid, s': S, q: nat)
    requires |at| == |log| + 1 && TwiceEach(sys, log, at) && q <= |log|
    requires Distinct(log[q..] + [u])
    requires forall p: nat, v: Tid | WaitsSince(sys, log, at, p, v) && p <= q :: Distinct(log[p..q])
    ensures TwiceEach(sys, log + [u], at + [s'])
  {
    var log', at' := log + [u], at + [s'];
    forall p: nat, v: Tid | WaitsSince(sys, log', at', p, v)
      ensures TwoRounds(log', p)
    {
      if p <= |log| {
        assert log'[p..] == log[p..] + [u];
        assert WaitsSince(sys, log, at, p, v);
        assert log'[q..] == log[q..] + [u];
        if p <= q {
          assert log'[p..q] == log[p..q];
        } else {
          assert log'[p..] == log'[q..][p - q..];
          assert log'[p..p] == [];
        }
        assert TwoRounds(log', p) by {
          var m := if p <= q then q else p;
          assert p <= m <= |log'| && Distinct(log'[p..m]) && Distinct(log'[m..]);
        }
      } else {
        assert log'[p..p] == [] && log'[p..] == [];
      }
    }
  }

  /** Distinct entries of ts other than v are fewer than ts. */
  lemma DistinctFits(xs: seq<Tid>, v: Tid, ts: seq<Tid>)
    requires Distinct(xs) && Distinct(ts) && v in ts && v !in xs
    requires forall x | x in xs :: x in ts
    ensures |xs| <= |ts| - 1
  {
    DistinctSize(xs);
    DistinctSize(ts);
    assert v !in Members(xs);
    SubsetSize(Members(xs) + {v}, Members(ts));
  }

  // ----- Helpers for the scheduler's own bookkeeping -----

  function Without(ts: seq<Tid>, t: Tid): (r: seq<Tid>)
    ensures forall u :: u in r <==> u in ts && u != t
    ensures Distinct(ts) ==> Distinct(r)
  {
    if ts == [] then []
    else
      var rest := Without(ts[1..], t);
      if ts[0] == t then rest
      else
        assert Distinct(ts) ==> Distinct(ts[1..]) && ts[0] !in ts[1..];
        assert forall i: nat | i < |rest| :: rest[i] in ts[1..];
        [ts[0]] + rest
  }

  lemma {:induction false} WithoutAbsent(ts: seq<Tid>, t: Tid)
    requires t !in ts
    ensures Without(ts, t) == ts
  {
    if ts != [] {
      WithoutAbsent(ts[1..], t);
    }
  }

  lemma {:induction false} WithoutMiddle(done: seq<Tid>, t: Tid, rest: seq<Tid>)
    requires t !in done && t !in rest
    ensures Without(done + [t] + rest, t) == done + rest
  {
    if done == [] {
      assert (done + [t] + rest)[1..] == rest;
      WithoutAbsent(rest, t);
    } else {
      assert (done + [t] + rest)[1..] == done[1..] + [t] + rest;
      WithoutMiddle(done[1..], t, rest);
    }
  }

  lemma DistinctMiddle(done: seq<Tid>, t: Tid, rest: seq<Tid>)
    requires Distinct(done + [t] + rest)
    ensures t !in done && t !in rest && forall u | u in done :: u !in rest
  {
    var ts := done + [t] + rest;
    assert ts[|done|] == t;
    assert forall i: nat | i < |done| :: ts[i] == done[i];
    assert forall i: nat | i < |rest| :: ts[|done| + 1 + i] == rest[i];
  }

  /** The stamps increase along ts. */
  ghost predicate StampsIncrease(ts: seq<Tid>, stamps: map<Tid, nat>) {
    forall i: nat, j: nat | i < j < |ts| ::
      ts[i] in stamps && ts[j] in stamps && stamps[ts[i]] < stamps[ts[j]]
  }

  /** A thread still to run weighs its remaining operations, and more before it has started. */
  ghost function Weight<S>(sys: System<S>, s: S, active: seq<Tid>, blocked: map<Tid, bool>, t: Tid): nat {
    if t !in active then 0 else sys.rank(s, t) + (if t in blocked && blocked[t] then 1 else 2)
  }

  ghost function Work<S>(sys: System<S>, s: S, active: seq<Tid>, blocked: map<Tid, bool>, ts: seq<Tid>): nat {
    if ts == [] then 0 else Weight(sys, s, active, blocked, ts[0]) + Work(sys, s, active, blocked, ts[1..])
  }

  lemma {:induction false} WorkDrops<S>(sys: System<S>, s: S, s': S, active: seq<Tid>, active': seq<Tid>,
                                        blocked: map<Tid, bool>, blocked': map<Tid, bool>, ts: seq<Tid>, t: Tid)
    requires forall u | u in ts :: Weight(sys, s', active', blocked', u) <= Weight(sys, s, active, blocked, u)
    requires Weight(sys, s', active', blocked', t) < Weight(sys, s, active, blocked, t)
    ensures Work(sys, s', active', blocked', ts) <= Work(sys, s, active, blocked, ts)
    ensures t in ts ==> Work(sys, s', active', blocked', ts) < Work(sys, s, active, blocked, ts)
  {
    if ts != [] {
      WorkDrops(sys, s, s', active, active', blocked, blocked', ts[1..], t);
    }
  }

  /** Every switch leaves less work. */
  lemma SwitchLosesWork<S>(sys: System<S>, s: S, s': S, active: seq<Tid>, active': seq<Tid>,
                           blocked: map<Tid, bool>, blocked': map<Tid, bool>, t: Tid)
    requires t in sys.threads && t in active && Kept(sys, s, s', t)
    requires forall u | u in sys.threads :: u in blocked && u in blocked'
    requires forall u | u in active' :: u in active
    requires forall u | u != t && u in sys.threads :: blocked'[u] == blocked[u]
    requires t in active' ==> blocked'[t] && sys.rank(s', t) <= sys.rank(s, t)
    requires t in active' && blocked[t] ==> sys.rank(s', t) < sys.rank(s, t)
    ensures Work(sys, s', active', blocked', sys.threads) < Work(sys, s, active, blocked, sys.threads)
  {
    forall u | u in sys.threads && u != t
      ensures Weight(sys, s', active', blocked', u) <= Weight(sys, s, active, blocked, u)
    {
      assert SameFor(sys, s, s', u);
    }
    WorkDrops(sys, s, s', active, active', blocked, blocked', sys.threads, t);
  }

  lemma ExtendStamped(log: seq<Tid>, lastRun: map<Tid, nat>, base: nat, ts: seq<Tid>, u: Tid)
    requires Stamped(log, |log|, lastRun, base, ts)
    requires forall x | x in ts :: x in lastRun && lastRun[x] <= base + |log|
    ensures Stamped(log + [u], |log| + 1, lastRun[u := base + |log| + 1], base, ts)
  {
    var log', lastRun' := log + [u], lastRun[u := base + |log| + 1];
    var n := |log'|;
    forall i: nat, x: Tid | i < n && x in ts
      ensures StampedAt(log', n, lastRun', base, i, x)
    {
      assert log'[i..|log| + 1][|log| - i] == u;
      if i < |log| {
        assert StampedAt(log, |log|, lastRun, base, i, x);
        assert log'[i..|log| + 1] == log[i..|log|] + [u];
      }
    }
  }

  /** Threads waiting since before the previous pass do not exist, so the stretch of that pass
      alone bounds how often a waiting thread was overtaken in it. */
  lemma WaitsOnlySincePreviousPass<S>(sys: System<S>, log: seq<Tid>, at: seq<S>, prev: nat, q: nat,
                                      seen: seq<Tid>, p: nat, v: Tid)
    requires KeepsEnabled(sys, log, at) && prev <= q <= |log|
    requires (prev == 0 || Covered(sys, log, at, prev, q, seen)) && Distinct(log[prev..q])
    requires WaitsSince(sys, log, at, p, v) && v in seen && p <= q
    ensures Distinct(log[p..q])
  {
    if p < prev {
      NotSeenWhileWaiting(sys, log, at, p, v, prev, q, seen);
    } else {
      assert log[p..q] == log[prev..q][p - prev..];
    }
  }

  /** The history of switches and the promises kept about it. */
  ghost predicate Bounded<S>(sys: System<S>, fair: bool, log: seq<Tid>, at: seq<S>) {
    KeepsEnabled(sys, log, at) && TwiceEach(sys, log, at) && (fair ==> OnceEach(sys, log, at))
  }

  /** The promises hold of the history as it was before every switch. */
  ghost predicate BoundedThroughout<S>(sys: System<S>, fair: bool, log: seq<Tid>, at: seq<S>)
    decreases |log|
  {
    && |at| == |log| + 1 && Bounded(sys, fair, log, at)
    && (log == [] || BoundedThroughout(sys, fair, log[..|log| - 1], at[..|log|]))
  }

  lemma BoundedOneMore<S>(sys: System<S>, fair: bool, log: seq<Tid>, at: seq<S>, u: Tid, s': S)
    requires BoundedThroughout(sys, fair, log, at) && Bounded(sys, fair, log + [u], at + [s'])
    ensures BoundedThroughout(sys, fair, log + [u], at + [s'])
  {
    assert (log + [u])[..|log|] == log && (at + [s'])[..|log| + 1] == at;
  }

  lemma {:induction false} BoundedBefore<S>(sys: System<S>, fair: bool, log: seq<Tid>, at: seq<S>, k: nat)
    requires BoundedThroughout(sys, fair, log, at) && k <= |log|
    ensures Bounded(sys, fair, log[..k], at[..k + 1])
    decreases |log|
  {
    if k == |log| {
      assert log[..k] == log && at[..k + 1] == at;
    } else {
      var n := |log| - 1;
      BoundedBefore(sys, fair, log[..n], at[..|log|], k);
      assert log[..n][..k] == log[..k] && at[..|log|][..k + 1] == at[..k + 1];
    }
  }

  /** A stretch of the log in which an enabled thread is not run: its operation stays enabled, and
      the stretch is at most n - 1 switches long under the fair algorithm, 2 (n - 1) under any. */
  ghost predicate WaitingBounds<S>(sys: System<S>, fair: bool, log: seq<Tid>, at: seq<S>) {
    && |at| == |log| + 1
    && forall p: nat, r: nat, v: Tid | p <= r <= |log| && Enabled(sys, at[p], v) && v !in log[p..r] ::
         && Enabled(sys, at[r], v)
         && r - p <= 2 * (|sys.threads| - 1)
         && (fair ==> r - p <= |sys.threads| - 1)
  }

  lemma WaitingIsBounded<S>(sys: System<S>, fair: bool, log: seq<Tid>, at: seq<S>)
    requires BoundedThroughout(sys, fair, log, at) && Distinct(sys.threads)
    requires forall t | t in log :: t in sys.threads
    ensures WaitingBounds(sys, fair, log, at)
  {
    BoundedBefore(sys, fair, log, at, |log|);
    assert log[..|log|] == log && at[..|log| + 1] == at;
    forall p: nat, r: nat, v: Tid | p <= r <= |log| && Enabled(sys, at[p], v) && v !in log[p..r]
      ensures r - p <= 2 * (|sys.threads| - 1) && (fair ==> r - p <= |sys.threads| - 1)
    {
      BoundedBefore(sys, fair, log, at, r);
      assert log[..r][p..] == log[p..r];
      WaitIsBounded(sys, log[..r], at[..r + 1], p, v);
    }
  }

  lemma WaitIsBounded<S>(sys: System<S>, log: seq<Tid>, at: seq<S>, p: nat, v: Tid)
    requires |at| == |log| + 1 && WaitsSince(sys, log, at, p, v) && Distinct(sys.threads)
    requires forall t | t in log :: t in sys.threads
    ensures OnceEach(sys, log, at) ==> |log| - p <= |sys.threads| - 1
    ensures TwiceEach(sys, log, at) ==> |log| - p <= 2 * (|sys.threads| - 1)
  {
    if OnceEach(sys, log, at) {
      DistinctFits(log[p..], v, sys.threads);
    }
    if TwiceEach(sys, log, at) {
      assert TwoRounds(log, p);
      var m: nat :| p <= m <= |log| && Distinct(log[p..m]) && Distinct(log[m..]);
      assert forall i: nat | i < m - p :: log[p..m][i] == log[p..][i];
      assert forall i: nat | i < |log| - m :: log[m..][i] == log[p..][i + m - p];
      DistinctFits(log[p..m], v, sys.threads);
      DistinctFits(log[m..], v, sys.threads);
    }
  }

  /** Where a pass stands after its first j candidates: it started at entry q of the log, with the
      stamps `stamps`, and the pass before it started at entry `prev`. */
  ghost predicate InPass<S>(sys: System<S>, fair: bool, log: seq<Tid>, at: seq<S>, base: nat,
                            candidates: seq<Tid>, stamps: map<Tid, nat>, prev: nat, q: nat, j: nat)
  {
    && |at| == |log| + 1 && prev <= q <= |log| && j <= |candidates| && Distinct(candidates)
    && (fair ==> SortedByStamp(candidates, stamps) && Stamped(log, q, stamps, base, candidates))
    && (prev == 0 || Covered(sys, log, at, prev, q, candidates)) && Distinct(log[prev..q])
    && Covered(sys, log, at, q, |log|, candidates[..j]) && Distinct(log[q..])
    && forall x | x in log[q..] :: x in candidates[..j]
  }

  lemma PassSkips<S>(sys: System<S>, fair: bool, log: seq<Tid>, at: seq<S>, base: nat,
                     candidates: seq<Tid>, stamps: map<Tid, nat>, prev: nat, q: nat, j: nat)
    requires InPass(sys, fair, log, at, base, candidates, stamps, prev, q, j) && j < |candidates|
    requires !Enabled(sys, at[|log|], candidates[j])
    ensures InPass(sys, fair, log, at, base, candidates, stamps, prev, q, j + 1)
  {
    assert candidates[..j + 1] == candidates[..j] + [candidates[j]];
  }

  lemma PassEnds<S>(sys: System<S>, fair: bool, log: seq<Tid>, at: seq<S>, base: nat,
                    candidates: seq<Tid>, stamps: map<Tid, nat>, prev: nat, q: nat)
    requires InPass(sys, fair, log, at, base, candidates, stamps, prev, q, |candidates|)
    ensures Covered(sys, log, at, q, |log|, candidates) && Distinct(log[q..])
  {
    assert candidates[..|candidates|] == candidates;
  }

  lemma PassStarts<S>(sys: System<S>, fair: bool, log: seq<Tid>, at: seq<S>, base: nat,
                      candidates: seq<Tid>, stamps: map<Tid, nat>, prev: nat)
    requires |at| == |log| + 1 && prev <= |log| && Distinct(candidates)
    requires fair ==> SortedByStamp(candidates, stamps) && Stamped(log, |log|, stamps, base, candidates)
    requires (prev == 0 || Covered(sys, log, at, prev, |log|, candidates)) && Distinct(log[prev..])
    ensures InPass(sys, fair, log, at, base, candidates, stamps, prev, |log|, 0)
  {
    assert log[prev..|log|] == log[prev..] && log[|log|..] == [] && candidates[..0] == [];
  }

  /** Running the next candidate of a pass keeps the promises. */
  lemma PassRuns<S>(sys: System<S>, fair: bool, log: seq<Tid>, at: seq<S>, base: nat,
                    candidates: seq<Tid>, stamps: map<Tid, nat>, prev: nat, q: nat, j: nat, s': S)
    requires InPass(sys, fair, log, at, base, candidates, stamps, prev, q, j) && j < |candidates|
    requires Bounded(sys, fair, log, at)
    requires forall v | Enabled(sys, at[|log|], v) :: v in candidates
    requires Kept(sys, at[|log|], s', candidates[j])
    ensures Bounded(sys, fair, log + [candidates[j]], at + [s'])
    ensures InPass(sys, fair, log + [candidates[j]], at + [s'], base, candidates, stamps, prev, q, j + 1)
  {
    var u := candidates[j];
    assert u !in log[q..];
    ExtendKeeps(sys, log, at, u, s');
    forall p: nat, v: Tid | WaitsSince(sys, log, at, p, v)
      ensures v in candidates
    {
      assert log[p..|log|] == log[p..];
      assert Enabled(sys, at[|log|], v);
    }
    if fair {
      forall p: nat, v: Tid | WaitsSince(sys, log, at, p, v) && v != u
        ensures u !in log[p..]
      {
        NotTwice(sys, log, at, base, stamps, candidates, q, j, p, v);
      }
      ExtendOnce(sys, log, at, u, s');
    }
    forall p: nat, v: Tid | WaitsSince(sys, log, at, p, v) && p <= q
      ensures Distinct(log[p..q])
    {
      WaitsOnlySincePreviousPass(sys, log, at, prev, q, candidates, p, v);
    }
    ExtendTwice(sys, log, at, u, s', q);
    PassGrows(sys, fair, log, at, base, candidates, stamps, prev, q, j, s');
  }

  lemma PassGrows<S>(sys: System<S>, fair: bool, log: seq<Tid>, at: seq<S>, base: nat,
                     candidates: seq<Tid>, stamps: map<Tid, nat>, prev: nat, q: nat, j: nat, s': S)
    requires InPass(sys, fair, log, at, base, candidates, stamps, prev, q, j) && j < |candidates|
    ensures InPass(sys, fair, log + [candidates[j]], at + [s'], base, candidates, stamps, prev, q, j + 1)
  {
    var u := candidates[j];
    var log', at' := log + [u], at + [s'];
    assert u !in log[q..];
    assert candidates[..j + 1] == candidates[..j] + [u];
    assert log'[q..] == log[q..] + [u] && log'[prev..q] == log[prev..q];
    assert log'[q..|log'|] == log[q..|log|] + [u];
    forall x | x in candidates && prev > 0
      ensures x in log'[prev..q] || exists i: nat :: prev <= i <= q && !Enabled(sys, at'[i], x)
    {
      if x !in log[prev..q] {
        var i: nat :| prev <= i <= q && !Enabled(sys, at[i], x);
        assert at'[i] == at[i];
      }
    }
    forall x | x in candidates[..j + 1]
      ensures x in log'[q..|log'|] || exists i: nat :: q <= i <= |log'| && !Enabled(sys, at'[i], x)
    {
      if x != u && x !in log[q..|log|] {
        var i: nat :| q <= i <= |log| && !Enabled(sys, at[i], x);
        assert at'[i] == at[i];
      }
    }
    if fair {
      forall i: nat, x: Tid | i < q && x in candidates
        ensures StampedAt(log', q, stamps, base, i, x)
      {
        assert StampedAt(log, q, stamps, base, i, x);
        assert log'[i..q] == log[i..q];
      }
    }
  }

  lemma SameStamps(log: seq<Tid>, before: map<Tid, nat>, after: map<Tid, nat>, base: nat, ts: seq<Tid>, us: seq<Tid>)
    requires Stamped(log, |log|, before, base, ts)
    requires forall x | x in us :: x in ts && x in before && x in after && after[x] == before[x]
    ensures Stamped(log, |log|, after, base, us)
  {
    forall i: nat, x: Tid | i < |log| && x in us
      ensures StampedAt(log, |log|, after, base, i, x)
    {
      assert StampedAt(log, |log|, before, base, i, x);
    }
  }

  predicate Earlier(a: Tid, b: Tid, stamps: map<Tid, nat>) {
    a in stamps && b in stamps && (stamps[a] < stamps[b] || (stamps[a] == stamps[b] && a < b))
  }

  ghost predicate FairlyOrdered(ts: seq<Tid>, stamps: map<Tid, nat>) {
    forall i: nat, j: nat | i < j < |ts| :: Earlier(ts[i], ts[j], stamps)
  }

  lemma InsertInOrder(ts: seq<Tid>, j: nat, t: Tid, stamps: map<Tid, nat>)
    requires FairlyOrdered(ts, stamps) && j <= |ts| && t in stamps && t !in ts
    requires forall x | x in ts :: x in stamps
    requires forall x: nat | x < j :: Earlier(ts[x], t, stamps)
    requires j < |ts| ==> !Earlier(ts[j], t, stamps)
    ensures FairlyOrdered(ts[..j] + [t] + ts[j..], stamps)
  {
    var r := ts[..j] + [t] + ts[j..];
    forall x: nat, y: nat | x < y < |r|
      ensures Earlier(r[x], r[y], stamps)
    {
      if x == j {
        assert Earlier(t, ts[j], stamps);
        assert y - 1 == j || Earlier(ts[j], ts[y - 1], stamps);
      }
    }
  }

  lemma ShorterOrder(ts: seq<Tid>, stamps: map<Tid, nat>, t: Tid)
    requires FairlyOrdered(ts, stamps) && ts != []
    ensures FairlyOrdered(ts[..|ts| - 1], stamps)
    ensures t in ts[..|ts| - 1] <==> t in ts && t != ts[|ts| - 1]
  {
    var k := |ts| - 1;
    assert ts == ts[..k] + [ts[k]];
    if t in ts[..k] {
      var i :| 0 <= i < k && ts[i] == t;
      assert Earlier(ts[i], ts[k], stamps);
    }
  }

  /** Threads whose stamps increase in their own order are passed over in that order. */
  lemma {:induction false} FairOrderIsUnique(order: seq<Tid>, ts: seq<Tid>, stamps: map<Tid, nat>)
    requires FairlyOrdered(order, stamps) && FairlyOrdered(ts, stamps) && forall t :: t in order <==> t in ts
    ensures order == ts
    decreases |ts|
  {
    NoneInEmpty(order, ts);
    NoneInEmpty(ts, order);
    if ts != [] {
      var j, k := |order| - 1, |ts| - 1;
      LastIsLatest(ts, stamps, order[j]);
      LastIsLatest(order, stamps, ts[k]);
      assert order[j] == ts[k];
      forall t
        ensures t in order[..j] <==> t in ts[..k]
      {
        ShorterOrder(order, stamps, t);
        ShorterOrder(ts, stamps, t);
      }
      ShorterOrder(order, stamps, order[j]);
      ShorterOrder(ts, stamps, ts[k]);
      FairOrderIsUnique(order[..j], ts[..k], stamps);
    }
  }

  lemma NoneInEmpty(a: seq<Tid>, b: seq<Tid>)
    requires forall t :: t in a ==> t in b
    ensures a != [] ==> b != []
  {
    if a != [] {
      var t := a[0];
      assert t in b;
    }
  }

  lemma LastIsLatest(ts: seq<Tid>, stamps: map<Tid, nat>, t: Tid)
    requires FairlyOrdered(ts, stamps) && t in ts
    ensures t == ts[|ts| - 1] || Earlier(t, ts[|ts| - 1], stamps)
  {
    var x :| 0 <= x < |ts| && ts[x] == t;
    if x < |ts| - 1 {
      assert Earlier(ts[x], ts[|ts| - 1], stamps);
    }
  }

  /** So the first pass after an initialization that stamped all threads is in their first order. */
  lemma FirstPassInOrder(order: seq<Tid>, active: seq<Tid>, stamps: map<Tid, nat>)
    requires StampsIncrease(active, stamps) && FairlyOrdered(order, stamps) && forall t :: t in order <==> t in active
    ensures order == active
  {
    forall i: nat, j: nat | i < j < |active|
      ensures Earlier(active[i], active[j], stamps)
    {
    }
    FairOrderIsUnique(order, active, stamps);
  }
}
