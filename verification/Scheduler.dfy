/** The cooperative scheduler (python/sim/greenlet_scheduler.py), over any system of threads. */
module Scheduler {
  import opened Finite
  import opened Switching
  import opened Wrappers

  datatype Algorithm = Greedy | Fair

  datatype Switched = Blocked | Completed | Raised

  datatype Verdict = Finished | Deadlock | Failed(thread: Tid)

  class GreenletScheduler<S(!new)> {
    const sys: System<S>
    const algorithm: Algorithm
    ghost const start: S

    var net: S
    /** `_active` in insertion order, and which of its threads are blocked on an object. */
    var active: seq<Tid>
    var blocked: map<Tid, bool>
    var completed: seq<Tid>
    var lastRun: map<Tid, nat>
    var timestamp: nat
    var madeProgress: map<Tid, bool>

    /** The thread of every operation performed so far. */
    ghost var trace: seq<Tid>
    /** The main loop's switches and the states around them; `base` is its first timestamp. */
    ghost var log: seq<Tid>
    ghost var at: seq<S>
    ghost var base: nat
    /** Where in the trace each of those switches begins, and the operations before the first. */
    ghost var marks: seq<nat>
    ghost var prologue: seq<Tid>
    /** The threads that the present pass has looked at, in order, whether it then ran them or not. */
    ghost var seen: seq<Tid>

    /** The threads' bookkeeping. */
    ghost predicate Bookkept()
      reads this`active, this`blocked, this`lastRun, this`timestamp, this`madeProgress
    {
      && Distinct(active) && (forall t | t in active :: t in sys.threads)
      && (forall t | t in sys.threads :: t in blocked && t in madeProgress)
      && (forall t | t in active :: t in lastRun)
      && (forall t | t in lastRun :: lastRun[t] <= timestamp)
    }

    /** The threads' states, leaving out the thread that is being run, if any.  An active thread
        that is not blocked has not been switched to; it may have nothing to do. */
    ghost predicate ThreadsOk(running: set<Tid>)
      reads this`net, this`active, this`blocked
    {
      && (forall t | t in sys.threads && t !in active && t !in running :: sys.halted(net, t))
      && (forall t | t in active && t !in running :: AtRest(sys, net, t, t in blocked && blocked[t]))
    }

    ghost predicate WorldValid(running: set<Tid>)
      reads this`net, this`active, this`blocked, this`lastRun, this`timestamp, this`madeProgress, this`trace
    {
      && Lawful(sys) && sys.inv(net) && Runs(sys, start, trace, net)
      && Bookkept() && ThreadsOk(running)
    }

    /** The log is that of the trace up to its last mark, and keeps its promises about waiting. */
    ghost predicate LogKept()
      reads this`trace, this`log, this`at, this`marks, this`prologue
    {
      && Last(marks) <= |trace| && prologue <= trace
      && Follows(sys, algorithm == Fair, start, prologue, trace[..Last(marks)], log, at, marks)
      && BoundedThroughout(sys, algorithm == Fair, log, at)
      && (forall t | t in log :: t in sys.threads)
    }

    ghost predicate LogValid()
      reads this`net, this`trace, this`active, this`lastRun, this`timestamp, this`log, this`at, this`base,
            this`marks, this`prologue
    {
      && LogKept() && Last(marks) == |trace| && at[|log|] == net
      && timestamp == base + |log|
      && Stamped(log, |log|, lastRun, base, active)
    }

    /** Thread t raised in its turn after the logged ones. */
    ghost predicate RaisedBy(t: Tid)
      reads this`net, this`trace, this`log, this`at, this`marks, this`prologue
    {
      && sys.failed(net, t) && Runs(sys, start, trace, net) && LogKept()
      && Turn(sys, algorithm == Fair, start, trace, Last(marks), t, true)
    }

    ghost function WorkLeft(): nat
      reads this`net, this`active, this`blocked
    {
      Work(sys, net, active, blocked, sys.threads)
    }

    constructor (sys: System<S>, algorithm: Algorithm, start: S)
      requires Lawful(sys) && sys.inv(start)
      requires forall t | t in sys.threads :: !sys.failed(start, t)
      ensures this.sys == sys && this.algorithm == algorithm && this.start == start
      ensures WorldValid({}) && net == start && active == sys.threads && trace == []
      ensures timestamp == base == 0 && log == [] && at == [start] && marks == [0] && prologue == [] && seen == []
      ensures forall t | t in active :: !blocked[t]
    {
      this.sys, this.algorithm, this.start := sys, algorithm, start;
      net, active, completed, timestamp := start, sys.threads, [], 0;
      blocked := map t | t in sys.threads :: false;
      lastRun := map t | t in sys.threads :: 0;
      madeProgress := map t | t in sys.threads :: false;
      trace, log, at, base, marks, prologue, seen := [], [], [start], 0, [0], [], [];
    }

    /** One operation of thread t, in the turn that began at operation `lo` of the trace. */
    method Perform(t: Tid, ghost origin: S, ghost lo: nat, ghost resuming: bool)
      requires WorldValid({t}) && t in active && Enabled(sys, net, t) && Kept(sys, origin, net, t)
      requires lo <= |trace| && Turn(sys, algorithm == Fair, start, trace, lo, t, resuming)
      requires algorithm == Fair && (|trace| > lo || !resuming) ==> !sys.atSync(net, t)
      modifies this`net, this`trace
      ensures WorldValid({t}) && net == sys.step(old(net), t) && trace == old(trace) + [t]
      ensures Kept(sys, origin, net, t) && sys.rank(net, t) < old(sys.rank(net, t))
      ensures Turn(sys, algorithm == Fair, start, trace, lo, t, resuming)
    {
      ExtendRuns(sys, start, trace, net, t);
      assert StepLaw(sys, net, t);
      OthersUnmoved(sys, net, sys.step(net, t), t);
      KeptTransitive(sys, origin, net, sys.step(net, t), t);
      TurnOneMore(sys, algorithm == Fair, start, trace, lo, t, resuming);
      net, trace := sys.step(net, t), trace + [t];
    }

    /** `block_if_needed`, up to the switch back: the fair algorithm always yields, the greedy
        one only when the operation cannot proceed. */
    method BlockIfNeeded(t: Tid) returns (yielded: bool)
      requires WorldValid({t}) && t in active && Live(sys, net, t) && sys.atSync(net, t)
      modifies this`blocked, this`madeProgress
      ensures yielded <==> algorithm == Fair || !sys.canProceed(net, t)
      ensures WorldValid({t}) && (yielded ==> WorldValid({}))
      ensures blocked == if yielded then old(blocked)[t := true] else old(blocked)
      ensures yielded && algorithm == Fair ==> madeProgress[t]
    {
      yielded := algorithm == Fair || !sys.canProceed(net, t);
      if algorithm == Fair || sys.canProceed(net, t) {
        madeProgress := madeProgress[t := true];
      }
      if yielded {
        blocked := blocked[t := true];
      }
    }

    /** `_mark_completed`. */
    method MarkCompleted(t: Tid)
      requires WorldValid({t}) && t in active && sys.halted(net, t)
      modifies this`active, this`completed, this`lastRun
      ensures WorldValid({}) && active == Without(old(active), t)
      ensures completed == old(completed) + [t] && lastRun == old(lastRun) - {t}
    {
      active, completed, lastRun := Without(active, t), completed + [t], lastRun - {t};
    }

    /** `g.switch()`: runs thread t until it blocks, finishes or raises.  A thread that resumes
        does so inside `block_if_needed`, right after the scheduler found that its operation can
        proceed.  The fair algorithm then yields at every later synchronisation point, the
        greedy one only where the operation cannot proceed. */
    method Switch(t: Tid, resuming: bool) returns (r: Switched)
      requires WorldValid({t}) && t in active && !sys.failed(net, t) && !blocked[t]
      requires resuming ==> Enabled(sys, net, t)
      modifies this`net, this`trace, this`active, this`blocked, this`completed, this`lastRun, this`madeProgress
      ensures Kept(sys, old(net), net, t) && old(trace) <= trace
      ensures Turn(sys, algorithm == Fair, start, trace, |old(trace)|, t, resuming)
      ensures r == Raised ==> sys.failed(net, t) && Runs(sys, start, trace, net)
      ensures r != Raised ==> WorldValid({})
      ensures r == Switched.Blocked ==>
        && active == old(active) && blocked == old(blocked)[t := true] && lastRun == old(lastRun)
        && completed == old(completed)
        && sys.rank(net, t) <= old(sys.rank(net, t))
        && (resuming ==> sys.rank(net, t) < old(sys.rank(net, t)))
        && (algorithm == Fair ==> madeProgress[t])
      ensures r == Switched.Completed ==>
        && active == Without(old(active), t) && blocked == old(blocked) && lastRun == old(lastRun) - {t}
        && completed == old(completed) + [t] && sys.halted(net, t)
    {
      var yielded := RunUntilYield(t, resuming);
      if yielded {
        return Switched.Blocked;
      }
      if sys.failed(net, t) {
        return Raised;
      }
      MarkCompleted(t);
      return Switched.Completed;
    }

    /** The thread's own part of a switch: its operations until it yields, halts or raises. */
    method RunUntilYield(t: Tid, resuming: bool) returns (yielded: bool)
      requires WorldValid({t}) && t in active && !sys.failed(net, t) && !blocked[t]
      requires resuming ==> Enabled(sys, net, t)
      modifies this`net, this`trace, this`blocked, this`madeProgress
      ensures WorldValid({t}) && Kept(sys, old(net), net, t) && old(trace) <= trace
      ensures Turn(sys, algorithm == Fair, start, trace, |old(trace)|, t, resuming)
      ensures blocked == if yielded then old(blocked)[t := true] else old(blocked)
      ensures !yielded ==> sys.failed(net, t) || sys.halted(net, t)
      ensures yielded ==>
        && WorldValid({}) && sys.rank(net, t) <= old(sys.rank(net, t))
        && (resuming ==> sys.rank(net, t) < old(sys.rank(net, t)))
      ensures yielded && algorithm == Fair ==> madeProgress[t]
    {
      var resumed := resuming;
      while !sys.halted(net, t) && !sys.failed(net, t)
        invariant WorldValid({t}) && Kept(sys, old(net), net, t) && old(trace) <= trace
        invariant resumed ==> Enabled(sys, net, t)
        invariant resumed <==> resuming && |trace| == |old(trace)|
        invariant Turn(sys, algorithm == Fair, start, trace, |old(trace)|, t, resuming)
        invariant sys.rank(net, t) <= old(sys.rank(net, t))
        invariant resuming && !resumed ==> sys.rank(net, t) < old(sys.rank(net, t))
        invariant blocked == old(blocked)
        decreases sys.rank(net, t)
      {
        if !resumed && sys.atSync(net, t) {
          yielded := BlockIfNeeded(t);
          if yielded {
            return;
          }
        }
        Perform(t, old(net), |old(trace)|, resuming);
        resumed := false;
      }
      yielded := false;
    }

    /** Books a switch of the main loop: the thread's stamp, and the log entry. */
    method Record(t: Tid)
      requires Bookkept() && timestamp == base + |log| && Stamped(log, |log|, lastRun, base, active)
      modifies this`timestamp, this`lastRun, this`log, this`at, this`marks
      ensures Bookkept() && timestamp == base + |log| && Stamped(log, |log|, lastRun, base, active)
      ensures log == old(log) + [t] && at == old(at) + [net] && marks == old(marks) + [|trace|]
    {
      ExtendStamped(log, lastRun, base, active, t);
      timestamp := timestamp + 1;
      lastRun := lastRun[t := timestamp];
      log, at, marks := log + [t], at + [net], marks + [|trace|];
    }

    lemma OnlyActiveAreEnabled()
      requires WorldValid({})
      ensures forall v | Enabled(sys, net, v) :: v in active
    {
    }

    /** One candidate of a pass: skipped while its object cannot proceed, switched to otherwise. */
    method Visit(t: Tid, ghost candidates: seq<Tid>, ghost stamps: map<Tid, nat>,
                 ghost prev: nat, ghost q: nat, ghost j: nat)
      returns (ran: bool, raised: bool)
      requires WorldValid({}) && LogValid()
      requires InPass(sys, algorithm == Fair, log, at, base, candidates, stamps, prev, q, j)
      requires j < |candidates| && candidates[j] == t && (forall v | v in active :: v in candidates)
      modifies this`net, this`trace, this`active, this`blocked, this`completed, this`lastRun, this`timestamp,
               this`madeProgress, this`log, this`at, this`marks, this`seen
      ensures seen == old(seen) + [t]
      ensures raised ==> RaisedBy(t)
      ensures !raised ==>
        && WorldValid({}) && LogValid()
        && InPass(sys, algorithm == Fair, log, at, base, candidates, stamps, prev, q, j + 1)
        && (forall v | v in active :: v in candidates)
        && log == old(log) + (if ran then [t] else [])
        && WorkLeft() <= old(WorkLeft())
        && (ran ==> WorkLeft() < old(WorkLeft()))
        && (!ran ==> active == old(active) && net == old(net) && blocked == old(blocked)
                     && !Enabled(sys, net, t) && (t in active ==> blocked[t]))
    {
      seen := seen + [t];
      if t !in active || (blocked[t] && !sys.canProceed(net, t)) {
        OnlyActiveAreEnabled();
        PassSkips(sys, algorithm == Fair, log, at, base, candidates, stamps, prev, q, j);
        return false, false;
      }
      raised := RunCandidate(t, candidates, stamps, prev, q, j);
      return true, raised;
    }

    /** A candidate that can proceed runs, and the switch is booked. */
    method RunCandidate(t: Tid, ghost candidates: seq<Tid>, ghost stamps: map<Tid, nat>,
                        ghost prev: nat, ghost q: nat, ghost j: nat)
      returns (raised: bool)
      requires WorldValid({}) && LogValid() && t in active && (blocked[t] ==> sys.canProceed(net, t))
      requires InPass(sys, algorithm == Fair, log, at, base, candidates, stamps, prev, q, j)
      requires j < |candidates| && candidates[j] == t && (forall v | v in active :: v in candidates)
      modifies this`net, this`trace, this`active, this`blocked, this`completed, this`lastRun, this`timestamp,
               this`madeProgress, this`log, this`at, this`marks
      ensures raised ==> RaisedBy(t)
      ensures !raised ==>
        && WorldValid({}) && LogValid()
        && InPass(sys, algorithm == Fair, log, at, base, candidates, stamps, prev, q, j + 1)
        && (forall v | v in active :: v in candidates) && log == old(log) + [t]
        && WorkLeft() < old(WorkLeft())
    {
      OnlyActiveAreEnabled();
      ghost var before := net;
      var r := SwitchInPass(t);
      if r == Raised {
        return true;
      }
      Book(t, candidates, stamps, prev, q, j, before);
      return false;
    }

    /** Records the switch that has just been made in the pass. */
    method Book(t: Tid, ghost candidates: seq<Tid>, ghost stamps: map<Tid, nat>,
                ghost prev: nat, ghost q: nat, ghost j: nat, ghost before: S)
      requires WorldValid({}) && t in sys.threads && timestamp == base + |log|
      requires InPass(sys, algorithm == Fair, log, at, base, candidates, stamps, prev, q, j)
      requires LogKept() && Turn(sys, algorithm == Fair, start, trace, Last(marks), t, true)
      requires Stamped(log, |log|, lastRun, base, active)
      requires |at| == |log| + 1 && at[|log|] == before && Kept(sys, before, net, t)
      requires j < |candidates| && candidates[j] == t && forall v | Enabled(sys, before, v) :: v in candidates
      modifies this`timestamp, this`lastRun, this`log, this`at, this`marks
      ensures WorldValid({}) && LogValid() && log == old(log) + [t]
      ensures InPass(sys, algorithm == Fair, log, at, base, candidates, stamps, prev, q, j + 1)
    {
      PassRuns(sys, algorithm == Fair, log, at, base, candidates, stamps, prev, q, j, net);
      BoundedOneMore(sys, algorithm == Fair, log, at, t, net);
      FollowsOneMore(sys, algorithm == Fair, start, prologue, trace[..Last(marks)], log, at, marks, t, trace);
      Record(t);
      assert trace[..|trace|] == trace;
    }

    /** Clears the blocking state and switches. */
    method SwitchTo(t: Tid) returns (r: Switched)
      requires WorldValid({}) && t in active && (blocked[t] ==> sys.canProceed(net, t))
      modifies this`net, this`trace, this`active, this`blocked, this`completed, this`lastRun, this`madeProgress
      ensures old(trace) <= trace && Turn(sys, algorithm == Fair, start, trace, |old(trace)|, t, old(blocked[t]))
      ensures r == Raised ==> sys.failed(net, t) && Runs(sys, start, trace, net)
      ensures r != Raised ==>
        && WorldValid({}) && Kept(sys, old(net), net, t)
        && (forall v | v in active :: v in old(active) && lastRun[v] == old(lastRun)[v])
        && WorkLeft() < old(WorkLeft())
    {
      ghost var net0, active0, blocked0 := net, active, blocked;
      var resuming := blocked[t];
      blocked := blocked[t := false];
      r := Switch(t, resuming);
      if r != Raised {
        SwitchLosesWork(sys, net0, net, active0, active, blocked0, blocked, t);
      }
    }

    /** A switch of the main loop: its operations come after the logged ones, and the stamps of the
        other threads still describe the log. */
    method SwitchInPass(t: Tid) returns (r: Switched)
      requires WorldValid({}) && LogKept() && Last(marks) == |trace|
      requires t in active && (blocked[t] ==> sys.canProceed(net, t))
      requires Stamped(log, |log|, lastRun, base, active)
      modifies this`net, this`trace, this`active, this`blocked, this`completed, this`lastRun, this`madeProgress
      ensures LogKept() && Turn(sys, algorithm == Fair, start, trace, Last(marks), t, true)
      ensures r == Raised ==> sys.failed(net, t) && Runs(sys, start, trace, net)
      ensures r != Raised ==>
        && WorldValid({}) && Kept(sys, old(net), net, t)
        && (forall v | v in active :: v in old(active)) && Stamped(log, |log|, lastRun, base, active)
        && WorkLeft() < old(WorkLeft())
    {
      ghost var active0, lastRun0, resuming := active, lastRun, blocked[t];
      r := SwitchTo(t);
      TurnWeakens(sys, algorithm == Fair, start, trace, |old(trace)|, t, resuming);
      assert trace[..|old(trace)|] == old(trace)[..|old(trace)|];
      if r != Raised {
        SameStamps(log, lastRun0, lastRun, base, active0, active);
      }
    }

    /** `_get_fair_thread_order`: least recently run first, then by name. */
    method GetFairThreadOrder() returns (order: seq<Tid>)
      requires WorldValid({})
      ensures Distinct(order) && (forall t :: t in order <==> t in active)
      ensures SortedByStamp(order, lastRun) && FairlyOrdered(order, lastRun)
      ensures forall i: nat, j: nat | i < j < |order| && lastRun[order[i]] == lastRun[order[j]] :: order[i] < order[j]
    {
      order := [];
      for i := 0 to |active|
        invariant forall t :: t in order <==> t in active[..i]
        invariant FairlyOrdered(order, lastRun) && forall t | t in order :: t in lastRun
      {
        var t := active[i];
        var j := 0;
        while j < |order| && (lastRun[order[j]] < lastRun[t] || (lastRun[order[j]] == lastRun[t] && order[j] < t))
          invariant j <= |order|
          invariant forall x: nat | x < j :: Earlier(order[x], t, lastRun)
        {
          j := j + 1;
        }
        assert active[..i + 1] == active[..i] + [t];
        InsertInOrder(order, j, t, lastRun);
        order := order[..j] + [t] + order[j..];
      }
      assert active[..|active|] == active;
    }

    /** Where a pass stands after its first j candidates; `weight` and `before` are the work left and
        the active threads at its start. */
    ghost predicate PassStands(candidates: seq<Tid>, stamps: map<Tid, nat>, prev: nat, q: nat, j: nat,
                               anyProgress: bool, weight: nat, before: seq<Tid>)
      reads this
    {
      && WorldValid({}) && LogValid()
      && InPass(sys, algorithm == Fair, log, at, base, candidates, stamps, prev, q, j)
      && (forall t | t in active :: t in candidates)
      && |seen| == j && (forall i: nat | i < j :: seen[i] == candidates[i])
      && WorkLeft() <= weight && (anyProgress ==> WorkLeft() < weight)
      && (!anyProgress ==> active == before && |log| == q)
      && (!anyProgress ==> forall i: nat | i < j && candidates[i] in active :: blocked[candidates[i]])
    }

    /** The loop's body. */
    method VisitNext(candidates: seq<Tid>, ghost stamps: map<Tid, nat>, ghost prev: nat, ghost q: nat, j: nat,
                     ghost weight: nat, ghost before: seq<Tid>, progress: bool)
      returns (anyProgress: bool, raised: bool)
      requires j < |candidates| && PassStands(candidates, stamps, prev, q, j, progress, weight, before)
      modifies this`net, this`trace, this`active, this`blocked, this`completed, this`lastRun, this`timestamp,
               this`madeProgress, this`log, this`at, this`marks, this`seen
      ensures raised ==> RaisedBy(candidates[j])
      ensures !raised ==> PassStands(candidates, stamps, prev, q, j + 1, anyProgress, weight, before)
    {
      var ran;
      ran, raised := Visit(candidates[j], candidates, stamps, prev, q, j);
      anyProgress := progress || ran;
    }

    /** The loop of a pass over its candidates. */
    method VisitAll(candidates: seq<Tid>, ghost stamps: map<Tid, nat>, ghost prev: nat, ghost q: nat)
      returns (anyProgress: bool, failure: Option<Tid>)
      requires seen == [] && PassStands(candidates, stamps, prev, q, 0, false, WorkLeft(), active)
      modifies this`net, this`trace, this`active, this`blocked, this`completed, this`lastRun, this`timestamp,
               this`madeProgress, this`log, this`at, this`marks, this`seen
      ensures failure.Some? ==> RaisedBy(failure.value)
      ensures failure.None? ==>
                PassStands(candidates, stamps, prev, q, |candidates|, anyProgress, old(WorkLeft()), old(active))
    {
      anyProgress := false;
      ghost var weight, before := WorkLeft(), active;
      for j := 0 to |candidates|
        invariant PassStands(candidates, stamps, prev, q, j, anyProgress, weight, before)
      {
        var raised;
        anyProgress, raised := VisitNext(candidates, stamps, prev, q, j, weight, before, anyProgress);
        if raised {
          return true, Some(candidates[j]);
        }
      }
      return anyProgress, None;
    }

    /** What a pass looks at: with the greedy algorithm the active threads in their order, with the
        fair one those least recently run first, and by name at the same stamp. */
    ghost predicate IsPassOrder(order: seq<Tid>, active: seq<Tid>, stamps: map<Tid, nat>) {
      if algorithm == Greedy then order == active
      else FairlyOrdered(order, stamps) && forall t :: t in order <==> t in active
    }

    /** A pass of the main loop. */
    method RunPass(ghost prev: nat) returns (anyProgress: bool, failure: Option<Tid>)
      requires WorldValid({}) && LogValid() && prev <= |log|
      requires (prev == 0 || Covered(sys, log, at, prev, |log|, active)) && Distinct(log[prev..])
      modifies this`net, this`trace, this`active, this`blocked, this`completed, this`lastRun, this`timestamp,
               this`madeProgress, this`log, this`at, this`marks, this`seen
      ensures failure.Some? ==> RaisedBy(failure.value)
      ensures failure.None? ==> IsPassOrder(seen, old(active), old(lastRun))
      ensures failure.None? ==>
        && WorldValid({}) && LogValid() && |log| >= |old(log)|
        && Covered(sys, log, at, |old(log)|, |log|, active) && Distinct(log[|old(log)|..])
        && (anyProgress ==> WorkLeft() < old(WorkLeft()))
        && (!anyProgress ==> active == old(active) && (forall t | t in active :: blocked[t])
                             && forall t | t in active :: !Enabled(sys, net, t))
    {
      var candidates := PassCandidates();
      ghost var q, stamps := |log|, lastRun;
      SameStamps(log, lastRun, lastRun, base, active, candidates);
      PassStarts(sys, algorithm == Fair, log, at, base, candidates, stamps, prev);
      seen := [];
      anyProgress, failure := VisitAll(candidates, stamps, prev, q);
      if failure.None? {
        assert seen == candidates;
        PassEnds(sys, algorithm == Fair, log, at, base, candidates, stamps, prev, q);
      }
    }

    /** `_initialization_phase`: runs every thread up to its first synchronisation point.  A thread
        that finishes here is marked completed twice, by its own wrapper and by this loop. */
    method InitializationPhase() returns (failure: Option<Tid>)
      requires WorldValid({}) && algorithm == Fair && active == sys.threads && log == [] && trace == []
      requires forall t | t in active :: !blocked[t]
      modifies this`net, this`trace, this`active, this`blocked, this`completed, this`lastRun, this`timestamp,
               this`madeProgress
      ensures failure.Some? ==> sys.failed(net, failure.value) && Runs(sys, start, trace, net)
      ensures failure.None? ==> WorldValid({}) && forall t | t in active :: blocked[t]
      ensures failure.None? ==> StampsIncrease(active, lastRun)
      ensures Unsynced(sys, start, trace)
    {
      var names := active;
      ghost var done: seq<Tid> := [];
      while names != []
        invariant InitStands(done, names)
        decreases |names|
      {
        var raised;
        raised, done := InitNext(names, done);
        if raised {
          return Some(names[0]);
        }
        names := names[1..];
      }
      assert done + [] == done;
      return None;
    }

    /** Where the initialization phase stands: `done` have had their first switch, `names` not yet. */
    ghost predicate InitStands(done: seq<Tid>, names: seq<Tid>)
      reads this
    {
      && WorldValid({}) && Unsynced(sys, start, trace) && active == done + names && StampsIncrease(done, lastRun)
      && (forall t | t in active :: t in names || blocked[t]) && (forall t | t in names :: t in active && !blocked[t])
    }

    /** The phase's loop body. */
    method InitNext(names: seq<Tid>, ghost done: seq<Tid>) returns (raised: bool, ghost more: seq<Tid>)
      requires names != [] && InitStands(done, names) && algorithm == Fair
      modifies this`net, this`trace, this`active, this`blocked, this`completed, this`lastRun, this`timestamp,
               this`madeProgress
      ensures raised ==> sys.failed(net, names[0]) && Runs(sys, start, trace, net)
      ensures !raised ==> InitStands(more, names[1..])
      ensures Unsynced(sys, start, trace)
    {
      more := done;
      var name := names[0];
      ghost var rest, stamps, stamp := names[1..], lastRun, timestamp;
      assert active == done + [name] + rest;
      DistinctMiddle(done, name, rest);
      raised := FirstSwitch(name);
      if !raised {
        more := FirstStamps(done, name, rest, stamps, stamp);
      }
    }

    /** Each first switch stamps its thread later than those before it. */
    lemma FirstStamps(done: seq<Tid>, name: Tid, rest: seq<Tid>, stamps: map<Tid, nat>, stamp: nat)
      returns (more: seq<Tid>)
      requires Bookkept() && name !in done && name !in rest && StampsIncrease(done, stamps)
      requires forall t | t in done :: t in stamps && stamps[t] <= stamp
      requires if name in active then
                 active == done + [name] + rest && timestamp == stamp + 1 && lastRun == stamps[name := timestamp]
               else active == Without(done + [name] + rest, name) && lastRun == stamps - {name}
      ensures active == more + rest && StampsIncrease(more, lastRun)
      ensures (forall t | t in rest :: t in active && t != name)
      ensures forall t | t in active :: t == name || t in done || t in rest
    {
      WithoutMiddle(done, name, rest);
      more := if name in active then done + [name] else done;
    }

    method FirstSwitch(name: Tid) returns (raised: bool)
      requires WorldValid({}) && algorithm == Fair && name in active && !blocked[name]
      requires Unsynced(sys, start, trace)
      modifies this`net, this`trace, this`active, this`blocked, this`completed, this`lastRun, this`timestamp,
               this`madeProgress
      ensures raised ==> sys.failed(net, name) && Runs(sys, start, trace, net)
      ensures !raised ==> WorldValid({})
      ensures Unsynced(sys, start, trace)
      ensures !raised ==> (name in active ==> blocked[name])
      ensures !raised && name in active ==>
                active == old(active) && timestamp == old(timestamp) + 1 && lastRun == old(lastRun)[name := timestamp]
      ensures !raised && name !in active ==>
                active == Without(old(active), name) && timestamp == old(timestamp) && lastRun == old(lastRun) - {name}
      ensures !raised ==> forall t | t != name && t in active :: blocked[t] == old(blocked)[t]
    {
      var r := Switch(name, false);
      UnsyncedLonger(sys, start, old(trace), trace, name);
      if r == Raised {
        return true;
      }
      if r == Switched.Completed {
        completed := completed + [name];
      } else if madeProgress[name] {
        timestamp := timestamp + 1;
        lastRun := lastRun[name := timestamp];
      }
      return false;
    }

    /** `run()`.  A finished run has every thread at its end; a deadlock is reported only when no
        thread's operation can proceed in the present state; a failure only when a thread raised.
        Every operation performed on the way was enabled, so none of them could time out.  After the
        prologue the log's switches make up the whole trace, but for the turn of a thread that
        raised; in the log no enabled operation waits longer than WaitingBounds says. */
    method Run() returns (v: Verdict)
      requires WorldValid({}) && active == sys.threads && trace == [] && net == start
      requires log == [] && at == [start] && marks == [0] && prologue == [] && timestamp == base
      requires forall t | t in active :: !blocked[t]
      modifies this
      ensures Runs(sys, start, trace, net)
      ensures v == Finished ==> active == [] && forall t | t in sys.threads :: sys.halted(net, t)
      ensures v == Deadlock ==>
        && (forall t :: !Enabled(sys, net, t)) && (exists t :: t in active && Live(sys, net, t))
        && (forall t | t in sys.threads :: sys.halted(net, t) || !sys.failed(net, t))
      ensures v.Failed? ==> sys.failed(net, v.thread)
      ensures prologue <= trace && (if algorithm == Fair then Unsynced(sys, start, prologue) else prologue == [])
      ensures algorithm == Fair && (log != [] || !v.Failed?) ==> AllAtSync(sys, After(sys, start, prologue))
      ensures Last(marks) <= |trace|
      ensures Follows(sys, algorithm == Fair, start, prologue, trace[..Last(marks)], log, at, marks)
      ensures if v.Failed? then Turn(sys, algorithm == Fair, start, trace, Last(marks), v.thread, true)
              else Last(marks) == |trace|
      ensures WaitingBounds(sys, algorithm == Fair, log, at)
    {
      var failure := Initialize();
      if failure.Some? {
        WaitingIsBounded(sys, algorithm == Fair, log, at);
        return Failed(failure.value);
      }
      v := MainLoop();
      WaitingIsBounded(sys, algorithm == Fair, log, at);
    }

    lemma BlockedAreAtSync()
      requires WorldValid({}) && forall t | t in active :: blocked[t]
      ensures AllAtSync(sys, net)
    {
    }

    /** The part of run() before its loop. */
    method Initialize() returns (failure: Option<Tid>)
      requires WorldValid({}) && active == sys.threads && trace == [] && net == start
      requires log == [] && at == [start] && marks == [0] && prologue == [] && timestamp == base
      requires forall t | t in active :: !blocked[t]
      modifies this`net, this`trace, this`active, this`blocked, this`completed, this`lastRun, this`timestamp,
               this`madeProgress, this`at, this`marks, this`base, this`prologue
      ensures at == [net] && marks == [|trace|] && prologue == trace && base == timestamp
      ensures Runs(sys, start, trace, net) && trace[..|trace|] == trace
      ensures if algorithm == Fair then Unsynced(sys, start, trace) else trace == []
      ensures if failure.Some? then sys.failed(net, failure.value) && algorithm == Fair
              else WorldValid({}) && (algorithm == Fair ==> AllAtSync(sys, net) && StampsIncrease(active, lastRun))
    {
      failure := None;
      if algorithm == Fair {
        failure := InitializationPhase();
        if failure.None? {
          BlockedAreAtSync();
        }
        at, marks, base, prologue := [net], [|trace|], timestamp, trace;
      }
      assert trace[..|trace|] == trace;
    }

    /** The candidates of the next pass. */
    method PassCandidates() returns (candidates: seq<Tid>)
      requires WorldValid({})
      ensures Distinct(candidates) && (forall t :: t in candidates <==> t in active)
      ensures algorithm == Fair ==> SortedByStamp(candidates, lastRun)
      ensures if algorithm == Greedy then candidates == active else FairlyOrdered(candidates, lastRun)
    {
      candidates := active;
      if algorithm == Fair {
        candidates := GetFairThreadOrder();
      }
    }

    lemma StuckThreadsRemain()
      requires WorldValid({}) && active != [] && forall t | t in active :: blocked[t]
      ensures forall t | Enabled(sys, net, t) :: t in active
      ensures exists t :: t in active && Live(sys, net, t)
      ensures forall t | t in sys.threads :: sys.halted(net, t) || !sys.failed(net, t)
    {
      assert active[0] in active && Live(sys, net, active[0]);
    }

    method MainLoop() returns (v: Verdict)
      requires WorldValid({}) && log == [] && at == [net] && marks == [|trace|] && base == timestamp
      requires prologue == trace
      modifies this`net, this`trace, this`active, this`blocked, this`completed, this`lastRun, this`timestamp,
               this`madeProgress, this`log, this`at, this`marks, this`seen
      ensures Runs(sys, start, trace, net)
      ensures v == Finished ==> active == [] && forall t | t in sys.threads :: sys.halted(net, t)
      ensures v == Deadlock ==>
        && (forall t :: !Enabled(sys, net, t)) && (exists t :: t in active && Live(sys, net, t))
        && (forall t | t in sys.threads :: sys.halted(net, t) || !sys.failed(net, t))
      ensures LogKept() && (if v.Failed? then RaisedBy(v.thread) else Last(marks) == |trace| && at[|log|] == net)
    {
      ghost var prev: nat := 0;
      assert trace[..|trace|] == trace;
      while active != []
        invariant WorldValid({}) && LogValid() && prev <= |log|
        invariant (prev == 0 || Covered(sys, log, at, prev, |log|, active)) && Distinct(log[prev..])
        decreases WorkLeft()
      {
        ghost var q := |log|;
        var anyProgress, failure := RunPass(prev);
        if failure.Some? {
          return Failed(failure.value);
        }
        prev := q;
        if !anyProgress && active != [] {
          StuckThreadsRemain();
          return Deadlock;
        }
      }
      return Finished;
    }
  }
}
