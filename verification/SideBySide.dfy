/** Kernels of several cores side by side, as the simulator runs them: one set of threads and
    buffers, in which thread or buffer i of core c is number 3 c + i.  A run of the whole is an
    interleaving of runs of the cores. */
module SideBySide {
  import opened BlockState
  import opened DataflowQueue
  import opened Network
  import KernelSystem
  import opened Finite

  const WIDTH: nat := 3

  function Number(core: nat, i: nat): nat {
    WIDTH * core + i
  }

  function CoreOf(g: nat): nat {
    g / WIDTH
  }

  function Within(g: nat): (i: nat)
    ensures i < WIDTH
  {
    g % WIDTH
  }

  lemma Numbered(core: nat, i: nat)
    requires i < WIDTH
    ensures CoreOf(Number(core, i)) == core && Within(Number(core, i)) == i
  {
  }

  lemma NumberOf(g: nat)
    ensures Number(CoreOf(g), Within(g)) == g
  {
  }

  /** The numbers that belong to some core. */
  function Names(cores: nat): (names: set<nat>)
    ensures forall g: nat :: g in names <==> CoreOf(g) < cores
  {
    Below(WIDTH * cores)
  }

  function Moved<T>(core: nat, a: Action<T>): Action<T> {
    match a
    case Halt => Halt
    case Reserve(b) => Action.Reserve(Number(core, b))
    case Push(b) => Action.Push(Number(core, b))
    case Wait(b) => Action.Wait(Number(core, b))
    case Pop(b) => Action.Pop(Number(core, b))
    case Write(b, op, data) => Action.Write(Number(core, b), op, data)
    case Read(b, op, data) => Action.Read(Number(core, b), op, data)
  }

  lemma MovedActsAlike<T>(core: nat, a: Action<T>, thread: ThreadType, zeros: seq<T>, q: Queue<T>)
    ensures Moved(core, a).Halt? <==> a.Halt?
    ensures !a.Halt? ==>
              && Moved(core, a).b == Number(core, a.b)
              && Effect(thread, zeros, Moved(core, a), q) == Effect(thread, zeros, a, q)
              && Seen(Moved(core, a), q) == Seen(a, q)
              && (ProducerSide(Moved(core, a)) <==> ProducerSide(a))
  {
    match a
    case Halt =>
    case Reserve(_) =>
    case Push(_) =>
    case Wait(_) =>
    case Pop(_) =>
    case Write(_, _, _) =>
    case Read(_, _, _) =>
  }

  function ProducerOf<L, T>(ks: seq<Kernel<L, T>>, b: Buf): Tid {
    if CoreOf(b) < |ks| then Number(CoreOf(b), ks[CoreOf(b)].producer(Within(b))) else 0
  }

  function ConsumerOf<L, T>(ks: seq<Kernel<L, T>>, b: Buf): Tid {
    if CoreOf(b) < |ks| then Number(CoreOf(b), ks[CoreOf(b)].consumer(Within(b))) else 1
  }

  /** The kernel of all cores. */
  function Together<L, T>(ks: seq<Kernel<L, T>>): Kernel<L, T> {
    Kernel(
      (g: Tid, l: L) => if CoreOf(g) < |ks| then Moved(CoreOf(g), ks[CoreOf(g)].next(Within(g), l)) else Halt,
      (g: Tid, l: L, seen: seq<T>) => if CoreOf(g) < |ks| then ks[CoreOf(g)].resume(Within(g), l, seen) else l,
      (g: Tid) => if CoreOf(g) < |ks| then ks[CoreOf(g)].kind(Within(g)) else DM,
      (b: Buf) => if CoreOf(b) < |ks| then ks[CoreOf(b)].zeros(Within(b)) else [],
      (b: Buf) => ProducerOf(ks, b),
      (b: Buf) => ConsumerOf(ks, b),
      Names(|ks|))
  }

  /** A core's kernel: wired, with three buffers between its three threads. */
  ghost predicate IsCore<L(!new), T(!new)>(k: Kernel<L, T>) {
    && WellWired(k) && k.buffers == {0, 1, 2}
    && forall b: Buf :: k.producer(b) < WIDTH && k.consumer(b) < WIDTH
  }

  ghost predicate AreCores<L(!new), T(!new)>(ks: seq<Kernel<L, T>>) {
    forall c: nat | c < |ks| :: IsCore(ks[c])
  }

  ghost predicate SameThread<L, T>(s: State<L, T>, sides: seq<State<L, T>>, g: nat) {
    if CoreOf(g) < |sides| then
      && (g in s.threads <==> Within(g) in sides[CoreOf(g)].threads)
      && (g in s.threads ==> s.threads[g] == sides[CoreOf(g)].threads[Within(g)])
    else g !in s.threads
  }

  ghost predicate SameBuffer<L, T>(s: State<L, T>, sides: seq<State<L, T>>, g: nat) {
    if CoreOf(g) < |sides| then
      && (g in s.buffers <==> Within(g) in sides[CoreOf(g)].buffers)
      && (g in s.buffers ==> s.buffers[g] == sides[CoreOf(g)].buffers[Within(g)])
    else g !in s.buffers
  }

  ghost predicate InWidth<L, T>(side: State<L, T>) {
    (forall t | t in side.threads :: t < WIDTH) && (forall b | b in side.buffers :: b < WIDTH)
  }

  /** s is the states `sides` of the cores, side by side. */
  ghost predicate Combines<L, T>(s: State<L, T>, sides: seq<State<L, T>>) {
    && (forall g: nat :: SameThread(s, sides, g))
    && (forall g: nat :: SameBuffer(s, sides, g))
    && (forall c: nat | c < |sides| :: InWidth(sides[c]))
  }

  lemma TogetherIsWired<L(!new), T(!new)>(ks: seq<Kernel<L, T>>)
    requires AreCores(ks)
    ensures WellWired(Together(ks))
  {
    var all := Together(ks);
    forall b: Buf
      ensures all.producer(b) != all.consumer(b)
    {
      if CoreOf(b) < |ks| {
        assert IsCore(ks[CoreOf(b)]);
      }
    }
    forall g: Tid, l: L
      ensures var a := all.next(g, l);
              a.Halt? || (a.b in all.buffers && g == (if ProducerSide(a) then all.producer(a.b) else all.consumer(a.b)))
    {
      if CoreOf(g) < |ks| {
        ActionIsWired(ks, CoreOf(g), Within(g), l, g);
      }
    }
  }

  lemma ActionIsWired<L(!new), T(!new)>(ks: seq<Kernel<L, T>>, c: nat, t: Tid, l: L, g: Tid)
    requires AreCores(ks) && c < |ks| && t < WIDTH && c == CoreOf(g) && t == Within(g)
    ensures var a := Together(ks).next(g, l);
            a.Halt? || (a.b in Together(ks).buffers
              && g == (if ProducerSide(a) then Together(ks).producer(a.b) else Together(ks).consumer(a.b)))
  {
    assert IsCore(ks[c]);
    var a := ks[c].next(t, l);
    MovedActsAlike(c, a, DM, [], Empty(0));
    if !a.Halt? {
      assert a.b in {0, 1, 2};
      Numbered(c, a.b);
      NumberOf(g);
    }
  }

  // ----- One step -----

  lemma EnabledInCore<L(!new), T(!new)>(ks: seq<Kernel<L, T>>, s: State<L, T>, sides: seq<State<L, T>>, g: Tid)
    requires AreCores(ks) && |sides| == |ks| && Combines(s, sides)
    ensures Enabled(Together(ks), s, g) <==> CoreOf(g) < |ks| && Enabled(ks[CoreOf(g)], sides[CoreOf(g)], Within(g))
  {
    assert SameThread(s, sides, g);
    if CoreOf(g) < |ks| && g in s.threads && s.threads[g].Running? {
      var c, t, l := CoreOf(g), Within(g), s.threads[g].local;
      BufferInCore(ks, s, sides, c, t, l);
      assert Together(ks).next(g, l) == Moved(c, ks[c].next(t, l));
      assert Active(Together(ks), s, g) <==> Active(ks[c], sides[c], t);
      if Active(ks[c], sides[c], t) {
        assert EffectOf(Together(ks), s, g) == EffectOf(ks[c], sides[c], t);
      }
    }
  }

  /** The action's buffer is the core's own. */
  lemma BufferInCore<L(!new), T(!new)>(ks: seq<Kernel<L, T>>, s: State<L, T>, sides: seq<State<L, T>>,
                                       c: nat, t: Tid, l: L)
    requires AreCores(ks) && |sides| == |ks| && Combines(s, sides) && c < |ks|
    ensures var a := ks[c].next(t, l);
            !a.Halt? ==>
              var b := Number(c, a.b);
              && a.b < WIDTH && CoreOf(b) == c && Within(b) == a.b
              && (b in s.buffers <==> a.b in sides[c].buffers)
              && (b in s.buffers ==>
                    && s.buffers[b] == sides[c].buffers[a.b]
                    && Effect(ks[c].kind(t), ks[c].zeros(a.b), Moved(c, a), s.buffers[b])
                       == Effect(ks[c].kind(t), ks[c].zeros(a.b), a, sides[c].buffers[a.b])
                    && Seen(Moved(c, a), s.buffers[b]) == Seen(a, sides[c].buffers[a.b]))
    ensures Moved(c, ks[c].next(t, l)).Halt? <==> ks[c].next(t, l).Halt?
  {
    assert IsCore(ks[c]);
    var a := ks[c].next(t, l);
    MovedActsAlike(c, a, DM, [], Empty(0));
    if !a.Halt? {
      assert a.b in {0, 1, 2};
      Numbered(c, a.b);
      assert SameBuffer(s, sides, Number(c, a.b));
      if a.b in sides[c].buffers {
        MovedActsAlike(c, a, ks[c].kind(t), ks[c].zeros(a.b), sides[c].buffers[a.b]);
      }
    }
  }

  /** One entry of the whole and of a core changes to the same value. */
  lemma FireInCore<L(!new), T(!new)>(ks: seq<Kernel<L, T>>, s: State<L, T>, sides: seq<State<L, T>>, g: Tid)
    requires AreCores(ks) && |sides| == |ks| && Combines(s, sides) && Enabled(Together(ks), s, g)
    ensures CoreOf(g) < |ks| && Enabled(ks[CoreOf(g)], sides[CoreOf(g)], Within(g))
    ensures var c := CoreOf(g);
            Combines(Fire(Together(ks), s, g), sides[c := Fire(ks[c], sides[c], Within(g))])
  {
    EnabledInCore(ks, s, sides, g);
    var c, t := CoreOf(g), Within(g);
    assert SameThread(s, sides, g);
    var l := s.threads[g].local;
    var a := ks[c].next(t, l);
    BufferInCore(ks, s, sides, c, t, l);
    var b := Number(c, a.b);
    var whole, side := After(Together(ks), g, l, s.buffers[b]), After(ks[c], t, l, sides[c].buffers[a.b]);
    assert whole == side;
    assert Fire(Together(ks), s, g) == State(s.threads[g := whole.0], s.buffers[b := whole.1]);
    assert Fire(ks[c], sides[c], t) == State(sides[c].threads[t := side.0], sides[c].buffers[a.b := side.1]);
    OneEntryEach(s, sides, g, b, whole.0, whole.1);
  }

  lemma OneEntryEach<L, T>(s: State<L, T>, sides: seq<State<L, T>>, g: nat, b: nat, thread: Thread<L>, q: Queue<T>)
    requires Combines(s, sides) && CoreOf(g) == CoreOf(b) < |sides| && g in s.threads && b in s.buffers
    ensures var c := CoreOf(g);
            Combines(State(s.threads[g := thread], s.buffers[b := q]),
                     sides[c := State(sides[c].threads[Within(g) := thread], sides[c].buffers[Within(b) := q])])
  {
    var c := CoreOf(g);
    var s' := State(s.threads[g := thread], s.buffers[b := q]);
    var sides' := sides[c := State(sides[c].threads[Within(g) := thread], sides[c].buffers[Within(b) := q])];
    forall h: nat
      ensures SameThread(s', sides', h) && SameBuffer(s', sides', h)
    {
      assert SameThread(s, sides, h) && SameBuffer(s, sides, h);
      NumberOf(g);
      NumberOf(b);
      NumberOf(h);
    }
  }

  // ----- Whole runs -----

  function Total(runs: seq<seq<Tid>>): nat {
    if runs == [] then 0 else Total(runs[..|runs| - 1]) + |runs[|runs| - 1]|
  }

  lemma {:induction false} TotalOneMore(runs: seq<seq<Tid>>, c: nat, run: seq<Tid>)
    requires c < |runs| && |run| == |runs[c]| + 1
    ensures Total(runs[c := run]) == Total(runs) + 1
    decreases |runs|
  {
    var last := |runs| - 1;
    if c < last {
      TotalOneMore(runs[..last], c, run);
      assert runs[c := run][..last] == runs[..last][c := run];
    } else {
      assert runs[c := run][..last] == runs[..last];
    }
  }

  ghost function NoSteps(n: nat): (runs: seq<seq<Tid>>)
    ensures |runs| == n && Total(runs) == 0 && forall c: nat | c < n :: runs[c] == []
  {
    if n == 0 then []
    else
      assert (NoSteps(n - 1) + [[]])[..n - 1] == NoSteps(n - 1);
      NoSteps(n - 1) + [[]]
  }

  /** Each core's part of the run takes it from its state to its state at the end. */
  ghost predicate Splits<L, T>(ks: seq<Kernel<L, T>>, sides: seq<State<L, T>>, runs: seq<seq<Tid>>,
                               ends: seq<State<L, T>>)
  {
    && |ks| == |sides| == |runs| == |ends|
    && forall c: nat | c < |ks| :: IsRun(ks[c], sides[c], runs[c]) && End(ks[c], sides[c], runs[c]) == ends[c]
  }

  /** A run of the whole is an interleaving of runs of the cores. */
  lemma {:induction false} RunSplits<L(!new), T(!new)>(ks: seq<Kernel<L, T>>, s: State<L, T>,
                                                       sides: seq<State<L, T>>, run: seq<Tid>)
    returns (runs: seq<seq<Tid>>, ends: seq<State<L, T>>)
    requires AreCores(ks) && |sides| == |ks| && Combines(s, sides) && IsRun(Together(ks), s, run)
    ensures Splits(ks, sides, runs, ends) && Total(runs) == |run|
    ensures Combines(End(Together(ks), s, run), ends)
    decreases |run|
  {
    if run == [] {
      runs, ends := NoSteps(|ks|), sides;
    } else {
      FireInCore(ks, s, sides, run[0]);
      var c, t := CoreOf(run[0]), Within(run[0]);
      var next := sides[c := Fire(ks[c], sides[c], t)];
      var rest: seq<seq<Tid>>;
      rest, ends := RunSplits(ks, Fire(Together(ks), s, run[0]), next, run[1..]);
      runs := rest[c := [t] + rest[c]];
      TotalOneMore(rest, c, [t] + rest[c]);
      forall d: nat | d < |ks|
        ensures IsRun(ks[d], sides[d], runs[d]) && End(ks[d], sides[d], runs[d]) == ends[d]
      {
        assert IsRun(ks[d], next[d], rest[d]) && End(ks[d], next[d], rest[d]) == ends[d];
        assert d == c ==> runs[d][0] == t && runs[d][1..] == rest[d];
      }
    }
  }

  /** The whole is stuck exactly when every core is. */
  lemma StuckTogether<L(!new), T(!new)>(ks: seq<Kernel<L, T>>, s: State<L, T>, sides: seq<State<L, T>>)
    requires AreCores(ks) && |sides| == |ks| && Combines(s, sides)
    ensures Stuck(Together(ks), s) <==> forall c: nat | c < |ks| :: Stuck(ks[c], sides[c])
  {
    if Stuck(Together(ks), s) {
      forall c: nat, t: Tid | c < |ks|
        ensures !Enabled(ks[c], sides[c], t)
      {
        assert InWidth(sides[c]);
        if t in sides[c].threads {
          Numbered(c, t);
          EnabledInCore(ks, s, sides, Number(c, t));
          assert !Enabled(Together(ks), s, Number(c, t));
        }
      }
    }
    if forall c: nat | c < |ks| :: Stuck(ks[c], sides[c]) {
      forall g: Tid
        ensures !Enabled(Together(ks), s, g)
      {
        EnabledInCore(ks, s, sides, g);
      }
    }
  }

  /** A thread of the whole has halted when its core's has. */
  lemma HaltedTogether<L(!new), T(!new)>(ks: seq<Kernel<L, T>>, s: State<L, T>, sides: seq<State<L, T>>, g: Tid)
    requires |sides| == |ks| && SameThread(s, sides, g)
    requires CoreOf(g) < |ks| ==> KernelSystem.Halted(ks[CoreOf(g)], sides[CoreOf(g)], Within(g))
    ensures KernelSystem.Halted(Together(ks), s, g)
  {
  }
}
