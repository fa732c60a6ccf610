/** Ring-buffer state and the tile-granular API over it (python/sim/dfbstate.py and
    `DFBAPI` in python/sim/dfb.py).  Blocking calls are modelled by their guard: under
    cooperative scheduling nothing changes while a call waits, so a false guard is a
    timeout. */
module RingState {
  import opened Wrappers
  import opened BlockState
  import opened MixedRadix

  /** typedefs.Size: pydantic rejects anything else before the body runs. */
  type Size = n: int | 0 < n witness 1

  datatype ApiError =
    | NotConfigured | TooManyTiles | UnevenTiles | NotCumulative | RegressingReserve
    | Timeout | ExceedsReserved | ExceedsVisible | NoPriorWait | NoPriorReserve
    | StaleWindow | ConsumedSlot

  datatype BlockError = CannotRead | CannotWrite | BadIndex | Uninitialized | LengthMismatch
                      | State(error: StateError)

  /** Position of the i-th tile of a window that starts at `start`. */
  function Slot(start: nat, i: nat, cap: nat): (r: nat)
    requires start < cap && i <= cap
    ensures r < cap
  {
    if start + i < cap then start + i else start + i - cap
  }

  /** The index the source computes. */
  lemma SlotIsModular(start: nat, i: nat, cap: nat)
    requires start < cap && i <= cap
    ensures Slot(start, i, cap) == (start + i) % cap
  {
    if start + i >= cap {
      assert (start + i) / cap == 1;
    }
  }

  /** How far slot `s` lies behind `start`, going round the ring. */
  function Offset(start: nat, s: nat, cap: nat): (i: nat)
    requires start < cap && s < cap
    ensures i < cap && Slot(start, i, cap) == s
  {
    if s >= start then s - start else s - start + cap
  }

  lemma OffsetShift(start: nat, n: nat, s: nat, cap: nat)
    requires start < cap && s < cap && n <= cap
    ensures Offset(Slot(start, n, cap), s, cap) ==
              if n == cap || Offset(start, s, cap) >= n then
                if n == cap then Offset(start, s, cap) else Offset(start, s, cap) - n
              else Offset(start, s, cap) + cap - n
  {
  }

  /** The slots of a window, in order. */
  ghost function View<T>(ring: seq<Option<T>>, start: nat, length: nat): (v: seq<Option<T>>)
    requires start < |ring| && length <= |ring|
    ensures |v| == length && forall i: nat | i < length :: v[i] == ring[Slot(start, i, |ring|)]
  {
    seq(length, i requires 0 <= i < length => ring[Slot(start, i, |ring|)])
  }

  /** The ring after the `n` slots from `head` on were cleared. */
  ghost predicate Cleared<T>(before: seq<Option<T>>, after: seq<Option<T>>, head: nat, n: nat)
    requires head < |before| == |after|
  {
    forall s: nat | s < |before| ::
      after[s] == if Offset(head, s, |before|) < n then None else before[s]
  }

  /** Clearing the first n visible slots leaves the rest of the visible window and the write
      window alone. */
  lemma ClearedViews<T>(before: seq<Option<T>>, after: seq<Option<T>>, head: nat, visible: nat, reserved: nat, n: nat)
    requires head < |before| == |after| && n <= visible && visible + reserved <= |before|
    requires Cleared(before, after, head, n)
    ensures var cap := |before|;
            && View(after, Slot(head, n, cap), visible - n) == View(before, head, visible)[n..]
            && Slot(Slot(head, n, cap), visible - n, cap) == Slot(head, visible, cap)
            && View(after, Slot(head, visible, cap), reserved) == View(before, Slot(head, visible, cap), reserved)
  {
    var cap := |before|;
    forall i: nat | n <= i < visible
      ensures View(after, Slot(head, n, cap), visible - n)[i - n] == View(before, head, visible)[i]
    {
      assert Slot(Slot(head, n, cap), i - n, cap) == Slot(head, i, cap);
    }
    forall j: nat | j < reserved
      ensures View(after, Slot(head, visible, cap), reserved)[j] == View(before, Slot(head, visible, cap), reserved)[j]
    {
      assert Slot(Slot(head, visible, cap), j, cap) == Slot(head, visible + j, cap);
    }
  }

  /** Slots hold a tile exactly in the `held` positions from `head` on. */
  ghost predicate FilledExactly<T>(ring: seq<Option<T>>, head: nat, held: nat)
    requires head < |ring|
  {
    forall s: nat | s < |ring| :: ring[s].Some? <==> Offset(head, s, |ring|) < held
  }

  lemma ClearedFilling<T>(before: seq<Option<T>>, after: seq<Option<T>>, head: nat, held: nat, n: nat)
    requires head < |before| == |after| && n <= held <= |before|
    requires Cleared(before, after, head, n) && FilledExactly(before, head, held)
    ensures FilledExactly(after, Slot(head, n, |before|), held - n)
  {
    forall s: nat | s < |after|
      ensures after[s].Some? <==> Offset(Slot(head, n, |after|), s, |after|) < held - n
    {
      OffsetShift(head, n, s, |after|);
    }
  }

  /** How many leading slots hold a tile. */
  ghost function FirstEmpty<T>(slots: seq<Option<T>>): (n: nat)
    ensures n <= |slots| && (forall i: nat | i < n :: slots[i].Some?) && (n < |slots| ==> slots[n].None?)
  {
    if slots == [] || slots[0].None? then 0 else 1 + FirstEmpty(slots[1..])
  }

  /** What a store leaves in the slots; an accumulating one gets as far as the first empty slot. */
  ghost function Combined<T>(was: seq<Option<T>>, items: seq<T>, add: (T, T) -> T, accumulate: bool)
    : (now: seq<Option<T>>)
    requires |items| == |was|
    ensures |now| == |was|
  {
    seq(|was|, i requires 0 <= i < |was| =>
      if !accumulate then Some(items[i])
      else if i < FirstEmpty(was) then Some(add(was[i].value, items[i]))
      else was[i])
  }

  /** A legal count of tiles: from any position that is a multiple of it, that many tiles lie in
      the ring without wrapping. */
  ghost predicate NeverWraps(n: Size, cap: nat) {
    forall start: nat | start < cap && start % n == 0 :: start + n <= cap
  }

  lemma LegalIffNeverWraps(n: Size, cap: nat)
    requires cap > 0
    ensures NeverWraps(n, cap) <==> n <= cap && cap % n == 0
  {
    if n <= cap && cap % n == 0 {
      forall start: nat | start < cap && start % n == 0
        ensures start + n <= cap
      {
        MulMonotone(cap / n, start / n, n);
        MulMonotone(start / n + 1, cap / n, n);
      }
    } else if n <= cap {
      var start := cap / n * n;
      QuotientUnique(cap / n, 0, n);
      assert start < cap && start % n == 0 && start + n > cap;
    } else {
      assert 0 % n == 0 && 0 + n > cap;
    }
  }

  /** The slots at least `from` places behind `start`, going round the ring. */
  ghost function SlotsFrom(start: nat, from: nat, cap: nat): set<nat>
    requires start < cap
  {
    set s: nat | s < cap && Offset(start, s, cap) >= from
  }

  lemma {:induction false} SlotCount(start: nat, from: nat, cap: nat)
    requires start < cap && from <= cap
    ensures |SlotsFrom(start, from, cap)| == cap - from
    decreases cap - from
  {
    if from == cap {
      assert SlotsFrom(start, from, cap) == {};
    } else {
      SlotCount(start, from + 1, cap);
      var s := Slot(start, from, cap);
      assert Offset(start, s, cap) == from;
      assert SlotsFrom(start, from, cap) == SlotsFrom(start, from + 1, cap) + {s};
    }
  }

  /** Two windows that together fit in the ring share no slot. */
  predicate DisjointWindows(start: nat, length: nat, otherStart: nat, otherLength: nat, cap: nat)
    requires start < cap && otherStart < cap && length <= cap && otherLength <= cap
  {
    forall i: nat, j: nat | i < length && j < otherLength :: Slot(start, i, cap) != Slot(otherStart, j, cap)
  }

  /** The window of a block: a view of the ring's own storage. */
  class Block<T> {
    const buf: array<Option<T>>
    const capacity: nat
    const start: nat
    const length: nat
    const acq: Acquisition
    const thread: ThreadType
    var access: AccessState
    var expected: set<ExpectedOp>

    ghost predicate Valid() {
      0 < capacity == buf.Length && start < capacity && length <= capacity
    }

    function Proto(): Protocol
      reads this
    {
      Protocol(acq, thread, access, expected)
    }

    ghost function Contents(): (c: seq<Option<T>>)
      requires Valid()
      reads buf
      ensures |c| == length
      ensures forall i: nat | i < length :: c[i] == buf[Slot(start, i, capacity)]
    {
      View(buf[..], start, length)
    }

    predicate InWindow(s: nat)
      requires Valid() && s < capacity
    {
      Offset(start, s, capacity) < length
    }

    constructor (buf: array<Option<T>>, capacity: nat, start: nat, length: nat,
                 acq: Acquisition, thread: ThreadType)
      requires 0 < capacity == buf.Length && start < capacity && length <= capacity
      ensures Valid() && this.buf == buf && this.capacity == capacity
      ensures this.start == start && this.length == length
      ensures Proto() == Initial(acq, thread)
    {
      this.buf, this.capacity, this.start, this.length := buf, capacity, start, length;
      this.acq, this.thread := acq, thread;
      this.access, this.expected := Initial(acq, thread).access, Initial(acq, thread).expected;
    }

    /** `_transition_state`, `mark_push_complete` and `mark_pop_complete`. */
    method Mark(op: Operation) returns (r: Result<(), StateError>)
      modifies this
      ensures match Apply(old(Proto()), op)
              case Success(q) => r == Success(()) && Proto() == q
              case Failure(e) => r == Failure(e) && Proto() == old(Proto())
    {
      match Apply(Proto(), op) {
        case Success(q) =>
          access, expected := q.access, q.expected;
          r := Success(());
        case Failure(e) =>
          r := Failure(e);
      }
    }

    predicate CanRead()
      reads this
    {
      access !in {MW, NAW, OS}
    }

    predicate CanWrite()
      reads this
    {
      access !in {NAW, NAR, OS}
    }

    /** After the operations `history`: the block can be read while it is open, holds data and is not
        being written by a copy, and written while it is open and no copy is in flight. */
    lemma AccessIff(history: seq<Operation>)
      requires Run(acq, thread, history) == Some(Proto())
      ensures CanRead() <==>
                && !Closed(history) && Filled(acq, history)
                && !(InFlight(history) && history[|history| - 1] == CopyDst)
      ensures CanWrite() <==> !Closed(history) && !InFlight(history)
    {
      HistoryDeterminesState(acq, thread, history);
    }

    method GetItem(i: nat) returns (r: Result<T, BlockError>)
      requires Valid()
      ensures r == if !CanRead() then Failure(CannotRead)
                   else if i >= length then Failure(BadIndex)
                   else if Contents()[i].None? then Failure(Uninitialized)
                   else Success(Contents()[i].value)
    {
      if !CanRead() {
        return Failure(CannotRead);
      }
      if i >= length {
        return Failure(BadIndex);
      }
      match buf[Slot(start, i, capacity)] {
        case None => r := Failure(Uninitialized);
        case Some(v) => r := Success(v);
      }
    }

    method ToList() returns (r: Result<seq<T>, BlockError>)
      requires Valid()
      ensures (length == 0 || CanRead()) && (forall i: nat | i < length :: Contents()[i].Some?)
              <==> r.Success?
      ensures r.Success? ==> |r.value| == length && forall i: nat | i < length :: Contents()[i] == Some(r.value[i])
    {
      var items: seq<T> := [];
      var i := 0;
      while i < length
        invariant 0 <= i <= length
        invariant |items| == i && (i > 0 ==> CanRead())
        invariant forall j: nat | j < i :: Contents()[j] == Some(items[j])
      {
        var v := this.GetItem(i);
        if v.Failure? {
          return Failure(v.error);
        }
        items := items + [v.value];
        i := i + 1;
      }
      return Success(items);
    }

    method WriteSlot(i: nat, value: T) returns (r: Result<(), BlockError>)
      requires Valid()
      modifies buf
      ensures r == if !CanWrite() then Failure(CannotWrite)
                   else if i >= length then Failure(BadIndex)
                   else Success(())
      ensures r.Success? ==> Contents() == old(Contents())[i := Some(value)]
      ensures r.Success? ==> forall s: nat | s < capacity && s != Slot(start, i, capacity) :: buf[s] == old(buf[s])
      ensures r.Failure? ==> buf[..] == old(buf[..])
    {
      if !CanWrite() {
        return Failure(CannotWrite);
      }
      if i >= length {
        return Failure(BadIndex);
      }
      buf[Slot(start, i, capacity)] := Some(value);
      return Success(());
    }

    /** Used by the copy handlers: no access check, the block is locked at this point. */
    method CopyAsDest(items: seq<T>) returns (r: Result<(), BlockError>)
      requires Valid()
      modifies buf
      ensures r == if |items| != length then Failure(LengthMismatch) else Success(())
      ensures r.Success? ==> forall i: nat | i < length :: Contents()[i] == Some(items[i])
      ensures forall s: nat | s < capacity && !InWindow(s) :: buf[s] == old(buf[s])
      ensures r.Failure? ==> buf[..] == old(buf[..])
    {
      if |items| != length {
        return Failure(LengthMismatch);
      }
      var i := 0;
      while i < length
        invariant 0 <= i <= length
        invariant forall j: nat | j < i :: buf[Slot(start, j, capacity)] == Some(items[j])
        invariant forall s: nat | s < capacity && !InWindow(s) :: buf[s] == old(buf[s])
      {
        buf[Slot(start, i, capacity)] := Some(items[i]);
        i := i + 1;
      }
      return Success(());
    }

    /** The write loop of store(): each item, or its sum with what the slot holds; an empty slot
        stops an accumulating store. */
    method WriteAll(items: seq<T>, add: (T, T) -> T, accumulate: bool) returns (r: Result<(), BlockError>)
      requires Valid() && |items| == length && CanWrite() && (accumulate ==> CanRead())
      modifies buf
      ensures r == if accumulate && FirstEmpty(old(Contents())) < length then Failure(Uninitialized) else Success(())
      ensures Contents() == Combined(old(Contents()), items, add, accumulate)
      ensures forall s: nat | s < capacity && !InWindow(s) :: buf[s] == old(buf[s])
    {
      ghost var was := Contents();
      ghost var result := Combined(was, items, add, accumulate);
      var i := 0;
      while i < length
        invariant 0 <= i <= length
        invariant forall j: nat | j < i :: Contents()[j] == result[j] && (accumulate ==> was[j].Some?)
        invariant forall j: nat | i <= j < length :: Contents()[j] == was[j]
        invariant forall s: nat | s < capacity && !InWindow(s) :: buf[s] == old(buf[s])
      {
        var v := items[i];
        if accumulate {
          var current := GetItem(i);
          if current.Failure? {
            assert FirstEmpty(was) == i;
            return Failure(Uninitialized);
          }
          v := add(current.value, items[i]);
        }
        ghost var before := Contents();
        var w := WriteSlot(i, v);
        assert Contents() == before[i := Some(v)];
        i := i + 1;
      }
      return Success(());
    }

    /** The marks put on the source blocks, one after the other up to the first refused. */
    method MarkRead(sources: seq<Block<T>>) returns (r: Result<(), StateError>)
      modifies sources
      ensures r.Success? <==> forall b | b in sources :: Apply(old(b.Proto()), StoreSrc).Success?
      ensures r.Success? ==> forall b | b in sources :: b.Proto() == AfterRead(old(b.Proto()))
      ensures r.Failure? ==>
                exists k: nat :: k < |sources| && Apply(old(sources[k].Proto()), StoreSrc) == Failure(r.error)
                  && (forall b | b in sources[..k] :: b.Proto() == AfterRead(old(b.Proto())))
                  && (forall b | b in sources && b !in sources[..k] :: b.Proto() == old(b.Proto()))
    {
      var i := 0;
      while i < |sources|
        invariant 0 <= i <= |sources|
        invariant forall b | b in sources[..i] :: b.Proto() == AfterRead(old(b.Proto()))
        invariant forall b | b in sources[..i] :: Apply(old(b.Proto()), StoreSrc).Success?
        invariant forall b | b in sources && b !in sources[..i] :: b.Proto() == old(b.Proto())
      {
        ghost var p := sources[i].Proto();
        var m := sources[i].Mark(StoreSrc);
        if m.Failure? {
          return Failure(m.error);
        }
        ReadIsIdempotent(p, sources[i].Proto());
        assert Apply(old(sources[i].Proto()), StoreSrc).Success?;
        assert sources[..i + 1] == sources[..i] + [sources[i]];
        i := i + 1;
      }
      return Success(());
    }

    /** The block's protocol when store() comes to its own mark. */
    ghost function BeforeStore(sources: seq<Block<T>>): Protocol
      reads this
    {
      if this in sources then AfterRead(Proto()) else Proto()
    }

    /** The marks that a store puts are all accepted. */
    ghost predicate StoreAccepted(sources: seq<Block<T>>, accumulate: bool)
      reads this, sources
    {
      && (forall b | b in sources :: Apply(b.Proto(), StoreSrc).Success?)
      && Apply(BeforeStore(sources), if accumulate then StoreDstAcc else StoreDst).Success?
    }

    /** store(): `sources` are the waited blocks the items were computed from.  They are marked
        read first, so a block may be stored into from itself.  The first accumulating store
        into a fresh block assigns; later ones add.  What is marked stays marked when the
        writing then meets an empty slot. */
    method Store(items: seq<T>, sources: seq<Block<T>>, accumulate: bool, add: (T, T) -> T)
      returns (r: Result<(), BlockError>)
      requires Valid()
      modifies this, sources, buf
      ensures |items| != length ==> r == Failure(LengthMismatch)
      ensures |items| == length && !old(CanWrite()) ==> r == Failure(CannotWrite)
      ensures |items| != length || !old(CanWrite()) ==>
                Proto() == old(Proto()) && forall b | b in sources :: b.Proto() == old(b.Proto())
      ensures |items| == length && old(CanWrite()) && !old(StoreAccepted(sources, accumulate)) ==>
                r.Failure? && r.error.State?
      ensures |items| == length && old(CanWrite()) && !old(StoreAccepted(sources, accumulate))
              && (forall b | b in sources :: Apply(old(b.Proto()), StoreSrc).Success?) ==>
                Proto() == old(BeforeStore(sources))
                && forall b | b in sources :: b.Proto() == AfterRead(old(b.Proto()))
      ensures |items| != length || !old(CanWrite()) || !old(StoreAccepted(sources, accumulate)) ==>
                buf[..] == old(buf[..])
      ensures |items| == length && old(CanWrite()) && old(StoreAccepted(sources, accumulate)) ==>
                var p := old(BeforeStore(sources));
                var adds := accumulate && p.access != MW;
                && r == (if adds && FirstEmpty(old(Contents())) < length then Failure(Uninitialized) else Success(()))
                && Contents() == Combined(old(Contents()), items, add, adds)
                && Apply(p, if accumulate then StoreDstAcc else StoreDst) == Success(Proto())
                && forall b | b in sources && b != this :: b.Proto() == AfterRead(old(b.Proto()))
      ensures forall s: nat | s < capacity && !InWindow(s) :: buf[s] == old(buf[s])
    {
      if |items| != length {
        return Failure(LengthMismatch);
      }
      if !CanWrite() {
        return Failure(CannotWrite);
      }
      var marked := MarkRead(sources);
      if marked.Failure? {
        return Failure(State(marked.error));
      }
      assert Proto() == old(BeforeStore(sources));
      var first := accumulate && access == MW;
      var m := Mark(if accumulate then StoreDstAcc else StoreDst);
      if m.Failure? {
        return Failure(State(m.error));
      }
      assert Contents() == old(Contents());
      r := WriteAll(items, add, accumulate && !first);
    }

    /** Clears one slot of a consumed block. */
    method PopIdx(i: nat) returns (r: Result<(), BlockError>)
      requires Valid()
      modifies buf
      ensures r == if i >= length then Failure(BadIndex)
                   else if old(Contents())[i].None? then Failure(Uninitialized)
                   else Success(())
      ensures i < length ==> buf[Slot(start, i, capacity)] == None
      ensures forall s: nat | s < capacity && (i >= length || s != Slot(start, i, capacity)) :: buf[s] == old(buf[s])
    {
      if i >= length {
        return Failure(BadIndex);
      }
      if buf[Slot(start, i, capacity)].None? {
        return Failure(Uninitialized);
      }
      buf[Slot(start, i, capacity)] := None;
      return Success(());
    }
  }

  class DFBState<T> {
    const cap: nat
    const buf: array<Option<T>>
    var head: nat
    var visible: nat
    var reserved: nat
    var step: Option<nat>
    var lastWaitTarget: nat
    var lastReserveTarget: nat

    ghost predicate Valid()
      reads `head, `visible, `reserved
    {
      0 < cap == buf.Length && head < cap && visible + reserved <= cap
    }

    function Free(): (f: nat)
      requires Valid()
      reads `head, `visible, `reserved
      ensures visible + reserved + f == cap
    {
      cap - (visible + reserved)
    }

    function Back(): (b: nat)
      requires Valid()
      reads `head, `visible, `reserved
      ensures b < cap
    {
      Slot(head, visible, cap)
    }

    ghost function Window(start: nat, length: nat): (w: seq<Option<T>>)
      requires Valid() && start < cap && length <= cap
      reads `head, `visible, `reserved, buf
      ensures |w| == length
      ensures forall i: nat | i < length :: w[i] == buf[Slot(start, i, cap)]
    {
      View(buf[..], start, length)
    }

    predicate BadCount(n: Size) {
      n > cap || cap % n != 0
    }

    /** host_configure_dfb on a fresh state. */
    constructor (cap: Size)
      ensures Valid() && this.cap == cap && fresh(buf)
      ensures head == 0 && visible == 0 && reserved == 0 && step == None
      ensures lastWaitTarget == 0 && lastReserveTarget == 0
      ensures forall i: nat | i < cap :: buf[i] == None
    {
      this.cap := cap;
      buf := new Option<T>[cap](_ => None);
      head, visible, reserved, step, lastWaitTarget, lastReserveTarget := 0, 0, 0, None, 0, 0;
    }

    /** The counts accepted are those whose windows never wrap. */
    method CheckNumTiles(n: Size) returns (r: Result<(), ApiError>)
      requires Valid()
      ensures r.Success? <==> NeverWraps(n, cap)
      ensures r == if n > cap then Failure(TooManyTiles)
                   else if cap % n != 0 then Failure(UnevenTiles)
                   else Success(())
    {
      LegalIffNeverWraps(n, cap);
      if n > cap {
        return Failure(TooManyTiles);
      }
      if cap % n != 0 {
        return Failure(UnevenTiles);
      }
      return Success(());
    }

    /** dfb_wait_front.  The step is recorded even when the wait then times out. */
    method WaitFront(n: Size) returns (r: Result<(), ApiError>)
      requires Valid()
      modifies `step, `lastWaitTarget
      ensures r.Success? <==> !BadCount(n) && n <= visible
                              && (old(step).None? || n == old(lastWaitTarget) + old(step).value)
      ensures r == Failure(Timeout) <==> !BadCount(n) && n > visible
                                         && (old(step).None? || n == old(lastWaitTarget) + old(step).value)
      ensures step == if BadCount(n) || old(step).Some? then old(step) else Some(n)
      ensures lastWaitTarget == if r.Success? then n else old(lastWaitTarget)
    {
      var c := CheckNumTiles(n);
      if c.Failure? {
        return Failure(c.error);
      }
      if step.None? {
        step := Some(n);
      } else if n != lastWaitTarget + step.value {
        return Failure(NotCumulative);
      }
      if visible < n {
        return Failure(Timeout);
      }
      lastWaitTarget := n;
      return Success(());
    }

    /** dfb_reserve_back. */
    method ReserveBack(n: Size) returns (r: Result<(), ApiError>)
      requires Valid()
      modifies `reserved, `lastReserveTarget
      ensures Valid()
      ensures r.Success? <==> !BadCount(n) && n >= old(reserved) && n <= old(Free())
      ensures r == Failure(Timeout) <==> !BadCount(n) && n >= old(reserved) && n > old(Free())
      ensures r.Success? ==> reserved == n && lastReserveTarget == n
      ensures r.Failure? ==> reserved == old(reserved) && lastReserveTarget == old(lastReserveTarget)
    {
      var c := CheckNumTiles(n);
      if c.Failure? {
        return Failure(c.error);
      }
      if n < reserved {
        return Failure(RegressingReserve);
      }
      if Free() < n {
        return Failure(Timeout);
      }
      reserved, lastReserveTarget := n, n;
      return Success(());
    }

    /** dfb_push_back: the first n reserved tiles become the last n visible ones. */
    method PushBack(n: Size) returns (r: Result<(), ApiError>)
      requires Valid()
      modifies `reserved, `visible
      ensures Valid()
      ensures r.Success? <==> !BadCount(n) && n <= old(reserved)
      ensures r.Success? ==> reserved == old(reserved) - n && visible == old(visible) + n
      ensures r.Success? ==> Window(head, visible) == old(Window(head, visible)) + old(Window(Back(), n))
      ensures r.Failure? ==> reserved == old(reserved) && visible == old(visible)
    {
      var c := CheckNumTiles(n);
      if c.Failure? {
        return Failure(c.error);
      }
      if n > reserved {
        return Failure(ExceedsReserved);
      }
      reserved, visible := reserved - n, visible + n;
      return Success(());
    }

    /** The pop loop: clears slots from the head on, stopping at one that is already empty. */
    method ClearFront(n: nat) returns (r: Result<(), ApiError>)
      requires Valid() && n <= cap
      modifies buf
      ensures r.Success? <==> forall i: nat | i < n :: old(buf[Slot(head, i, cap)]).Some?
      ensures r.Success? ==> Cleared(old(buf[..]), buf[..], head, n)
    {
      ghost var was := buf[..];
      var view := new Block<T>(buf, cap, head, n, WAIT, COMPUTE);
      var i := 0;
      while i < n
        invariant 0 <= i <= n
        invariant forall j: nat | j < i :: was[Slot(head, j, cap)].Some?
        invariant Cleared(was, buf[..], head, i)
      {
        assert buf[..][Slot(head, i, cap)] == was[Slot(head, i, cap)];
        var p := view.PopIdx(i);
        if p.Failure? {
          return Failure(ConsumedSlot);
        }
        i := i + 1;
      }
      return Success(());
    }

    /** dfb_pop_front: the first n visible tiles are cleared and leave the window; the write
        window does not move. */
    method PopFront(n: Size) returns (r: Result<(), ApiError>)
      requires Valid()
      modifies `head, `visible, `lastWaitTarget, buf
      ensures Valid()
      ensures r.Success? <==> !BadCount(n) && n <= old(visible)
                              && forall i: nat | i < n :: old(buf[Slot(head, i, cap)]).Some?
      ensures r.Success? ==>
        && head == Slot(old(head), n, cap) && visible == old(visible) - n && lastWaitTarget == 0
        && Cleared(old(buf[..]), buf[..], old(head), n)
        && Back() == old(Back())
        && View(buf[..], head, visible) == old(View(buf[..], head, visible))[n..]
        && View(buf[..], Back(), reserved) == old(View(buf[..], Back(), reserved))
      ensures r.Failure? ==> head == old(head) && visible == old(visible) && lastWaitTarget == old(lastWaitTarget)
      ensures BadCount(n) || n > old(visible) ==> buf[..] == old(buf[..])
    {
      var c := CheckNumTiles(n);
      if c.Failure? {
        return Failure(c.error);
      }
      if n > visible {
        return Failure(ExceedsVisible);
      }
      ghost var was := buf[..];
      var cleared := ClearFront(n);
      if cleared.Failure? {
        return Failure(cleared.error);
      }
      ClearedViews(was, buf[..], head, visible, reserved, n);
      head, visible, lastWaitTarget := Slot(head, n, cap), visible - n, 0;
      return Success(());
    }

    /** get_read_ptr. */
    method GetReadPtr(thread: ThreadType) returns (r: Result<Block<T>, ApiError>)
      requires Valid()
      ensures r.Success? <==> 0 < lastWaitTarget <= visible
      ensures r.Success? ==> fresh(r.value) && r.value.Valid() && r.value.buf == buf
                             && r.value.capacity == cap && r.value.start == head
                             && r.value.length == lastWaitTarget && r.value.Proto() == Initial(WAIT, thread)
    {
      if lastWaitTarget <= 0 {
        return Failure(NoPriorWait);
      }
      if visible < lastWaitTarget {
        return Failure(StaleWindow);
      }
      var block := new Block<T>(buf, cap, head, lastWaitTarget, WAIT, thread);
      return Success(block);
    }

    /** get_write_ptr. */
    method GetWritePtr(thread: ThreadType) returns (r: Result<Block<T>, ApiError>)
      requires Valid()
      ensures r.Success? <==> 0 < lastReserveTarget <= reserved
      ensures r.Success? ==> fresh(r.value) && r.value.Valid() && r.value.buf == buf
                             && r.value.capacity == cap && r.value.start == Back()
                             && r.value.length == lastReserveTarget && r.value.Proto() == Initial(RESERVE, thread)
    {
      if lastReserveTarget <= 0 {
        return Failure(NoPriorReserve);
      }
      if reserved < lastReserveTarget {
        return Failure(StaleWindow);
      }
      var block := new Block<T>(buf, cap, Back(), lastReserveTarget, RESERVE, thread);
      return Success(block);
    }

    /** The free tiles are the slots in neither window. */
    lemma FreeSlots()
      requires Valid()
      ensures Free() == |set s: nat | s < cap && Offset(head, s, cap) >= visible && Offset(Back(), s, cap) >= reserved|
    {
      SlotCount(head, visible + reserved, cap);
      forall s: nat | s < cap
        ensures Offset(head, s, cap) >= visible && Offset(Back(), s, cap) >= reserved
                <==> Offset(head, s, cap) >= visible + reserved
      {
        OffsetShift(head, visible, s, cap);
      }
      assert SlotsFrom(head, visible + reserved, cap)
          == set s: nat | s < cap && Offset(head, s, cap) >= visible && Offset(Back(), s, cap) >= reserved;
    }

    /** Outstanding read and write windows never overlap, wrap or not. */
    lemma WindowsAreDisjoint(read: nat, write: nat)
      requires Valid() && read <= visible && write <= reserved
      ensures DisjointWindows(head, read, Back(), write, cap)
    {
      forall i: nat, j: nat | i < read && j < write
        ensures Slot(head, i, cap) != Slot(Back(), j, cap)
      {
        assert Slot(Back(), j, cap) == Slot(head, visible + j, cap);
      }
    }
  }
}
