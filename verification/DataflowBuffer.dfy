/** `DataflowBuffer` (python/sim/dfb.py): whole-block reserve/push/wait/pop over the ring.
    Each method is proved to do to the buffer what the queue operation of the same name does,
    so the ring refines the bounded queue of blocks. */
module Dataflow {
  import opened Wrappers
  import opened BlockState
  import opened Copying
  import opened RingState
  import opened DataflowQueue
  import opened MixedRadix

  ghost predicate AllSome<T>(w: seq<Option<T>>) {
    forall i: nat | i < |w| :: w[i].Some?
  }

  ghost function Values<T>(w: seq<Option<T>>): (v: seq<T>)
    requires AllSome(w)
    ensures |v| == |w| && forall i: nat | i < |w| :: w[i] == Some(v[i])
  {
    seq(|w|, i requires 0 <= i < |w| => w[i].value)
  }

  lemma ValuesAppend<T>(w: seq<Option<T>>, x: seq<Option<T>>)
    requires AllSome(w) && AllSome(x)
    ensures AllSome(w + x) && Values(w + x) == Values(w) + Values(x)
  {
  }

  lemma ValuesDrop<T>(w: seq<Option<T>>, n: nat)
    requires AllSome(w) && n <= |w|
    ensures AllSome(w[n..]) && Values(w[n..]) == Values(w)[n..]
  {
  }

  /** x tiles make a whole number of blocks of n tiles. */
  ghost predicate Whole(x: nat, n: Size) {
    x == 0 || (x >= n && Whole(x - n, n))
  }

  /** How many blocks of n tiles x tiles make. */
  ghost function Blocks(x: nat, n: Size): nat
    requires Whole(x, n)
  {
    if x == 0 then 0 else 1 + Blocks(x - n, n)
  }

  lemma {:induction false} ProductIsWhole(n: Size, k: nat)
    ensures Whole(n * k, n) && Blocks(n * k, n) == k && (n * k) % n == 0
  {
    if k > 0 {
      ProductIsWhole(n, k - 1);
      assert n * k == n * (k - 1) + n;
      QuotientUnique(k, 0, n);
      assert k * n == n * k;
    }
  }

  /** Block counts order like tile counts, and two whole counts differ by whole blocks. */
  lemma {:induction false} WholeOrder(x: nat, y: nat, n: Size)
    requires Whole(x, n) && Whole(y, n)
    ensures x < y <==> Blocks(x, n) < Blocks(y, n)
    ensures x < y ==> x + n <= y
    decreases x
  {
    if x > 0 && y > 0 {
      WholeOrder(x - n, y - n, n);
    }
  }

  /** A tile sequence cut into blocks of n tiles. */
  ghost function Chunks<T>(w: seq<T>, n: Size): (c: seq<seq<T>>)
    requires Whole(|w|, n)
    ensures |c| == Blocks(|w|, n)
    decreases |w|
  {
    if w == [] then [] else [w[..n]] + Chunks(w[n..], n)
  }

  lemma {:induction false} ChunksAppend<T>(w: seq<T>, block: seq<T>, n: Size)
    requires Whole(|w|, n) && |block| == n
    ensures Whole(|w| + n, n)
    ensures Chunks(w + block, n) == Chunks(w, n) + [block]
    decreases |w|
  {
    if w == [] {
      assert w + block == block && block[..n] == block && block[n..] == [];
    } else {
      ChunksAppend(w[n..], block, n);
      assert (w + block)[..n] == w[..n] && (w + block)[n..] == w[n..] + block;
    }
  }

  class DataflowBuffer<T> {
    const state: DFBState<T>
    const tiles: Size
    const factor: Size
    const zero: T
    var pendingReserved: Block?<T>
    var pendingWaited: Block?<T>

    ghost predicate IsView(b: Block<T>, start: nat)
      reads b
    {
      b.Valid() && b.buf == state.buf && b.capacity == state.cap && b.start == start && b.length == tiles
    }

    ghost predicate Valid()
      reads this, state, state.buf, pendingReserved, pendingWaited
    {
      && state.Valid() && !state.BadCount(tiles)
      && Whole(state.cap, tiles) && Blocks(state.cap, tiles) == factor
      && Whole(state.head, tiles) && Whole(state.visible, tiles)
      && state.reserved == (if pendingReserved == null then 0 else tiles)
      && state.step in {None, Some(tiles as nat)}
      && state.lastWaitTarget == (if pendingWaited == null then 0 else tiles)
      && (pendingReserved != null ==>
            pendingReserved.acq == RESERVE && IsView(pendingReserved, state.Back()))
      && (pendingWaited != null ==>
            pendingWaited.acq == WAIT && IsView(pendingWaited, state.head) && tiles <= state.visible)
      && FilledExactlyWhereHeld()
    }

    /** Slots hold a tile exactly in the visible and reserved windows. */
    ghost predicate FilledExactlyWhereHeld()
      requires state.Valid()
      reads state`head, state`visible, state`reserved, state.buf
    {
      FilledExactly(state.buf[..], state.head, state.visible + state.reserved)
    }

    lemma HeldWindowsAreFilled()
      requires Valid()
      ensures AllSome(state.Window(state.head, state.visible))
      ensures pendingReserved != null ==> AllSome(pendingReserved.Contents())
      ensures pendingWaited != null ==> AllSome(pendingWaited.Contents())
    {
      var cap := state.cap;
      forall i: nat | i < state.visible + state.reserved
        ensures state.buf[Slot(state.head, i, cap)].Some?
      {
        assert Offset(state.head, Slot(state.head, i, cap), cap) == i || i == cap;
      }
      forall j: nat | j < state.reserved
        ensures state.buf[Slot(state.Back(), j, cap)].Some?
      {
        assert Slot(state.Back(), j, cap) == Slot(state.head, state.visible + j, cap);
      }
    }

    /** The queue this buffer stands for. */
    ghost function Abs(): (q: Queue<T>)
      requires Valid()
      reads this, state, state.buf, pendingReserved, pendingWaited
      ensures |q.blocks| == Blocks(state.visible, tiles)
    {
      HeldWindowsAreFilled();
      Queue(factor,
            Chunks(Values(state.Window(state.head, state.visible)), tiles),
            if pendingReserved == null then None
            else Some(Writing(pendingReserved.Proto(), Values(pendingReserved.Contents()))),
            if pendingWaited == null then None else Some(pendingWaited.Proto()))
    }

    constructor (rows: Size, cols: Size, factor: Size, zero: T)
      ensures Valid() && Abs() == Empty(factor)
      ensures fresh(state) && fresh(state.buf) && tiles == rows * cols
    {
      var n: Size := rows * cols;
      tiles, this.factor, this.zero := n, factor, zero;
      state := new DFBState<T>(n * factor);
      pendingReserved, pendingWaited := null, null;
      new;
      ProductIsWhole(tiles, factor);
    }

    predicate CanWaitNow()
      reads state
    {
      state.visible >= tiles
    }

    predicate CanReserveNow()
      requires state.Valid()
      reads state
    {
      state.Free() >= tiles
    }

    /** can_wait and can_reserve are the guards of the queue. */
    lemma GuardsAgree()
      requires Valid()
      ensures CanWaitNow() <==> CanWait(Abs())
      ensures CanReserveNow() <==> CanReserve(Abs())
    {
      WholeOrder(state.visible + state.reserved, state.cap, tiles);
      WholeOrder(0, state.visible, tiles);
    }

    /** wait().  Once the guard holds the ring API raises nothing, its timeout included. */
    method WaitBlock(thread: ThreadType) returns (r: Result<Block<T>, QueueError>)
      requires Valid()
      modifies this`pendingWaited, state`step, state`lastWaitTarget
      ensures Valid()
      ensures match Wait(old(Abs()), thread)
              case Failure(e) => r == Failure(e) && Abs() == old(Abs())
              case Success(q) =>
                && Abs() == q && r.Success? && r.value == pendingWaited && fresh(r.value)
                && AllSome(r.value.Contents()) && Values(r.value.Contents()) == old(Abs()).blocks[0]
    {
      GuardsAgree();
      if pendingWaited != null {
        return Failure(AlreadyPending);
      }
      if !CanWaitNow() {
        return Failure(WouldBlock);
      }
      var w := state.WaitFront(tiles);
      assert w.Success?;
      var p := state.GetReadPtr(thread);
      assert p.Success?;
      pendingWaited := p.value;
      HeldWindowsAreFilled();
      ghost var visible := Values(state.Window(state.head, state.visible));
      assert Values(p.value.Contents()) == visible[..tiles];
      return Success(p.value);
    }

    /** reserve(): the new block is filled with zero tiles. */
    method ReserveBlock(thread: ThreadType) returns (r: Result<Block<T>, QueueError>)
      requires Valid()
      modifies this`pendingReserved, state`reserved, state`lastReserveTarget, state.buf
      ensures Valid()
      ensures match Reserve(old(Abs()), thread, seq(tiles, _ => zero))
              case Failure(e) => r == Failure(e) && Abs() == old(Abs())
              case Success(q) => Abs() == q && r.Success? && r.value == pendingReserved && fresh(r.value)
    {
      GuardsAgree();
      if pendingReserved != null {
        return Failure(AlreadyPending);
      }
      if !CanReserveNow() {
        return Failure(WouldBlock);
      }
      HeldWindowsAreFilled();
      var block := ReserveWindow(thread);
      pendingReserved := block;
      assert AllSome(block.Contents()) && Values(block.Contents()) == seq(tiles, _ => zero);
      return Success(block);
    }

    /** dfb_reserve_back, get_write_ptr and the zero fill: the visible window keeps its tiles. */
    method ReserveWindow(thread: ThreadType) returns (block: Block<T>)
      requires Valid() && pendingReserved == null && CanReserveNow()
      modifies state`reserved, state`lastReserveTarget, state.buf
      ensures state.Valid() && state.reserved == tiles && fresh(block)
      ensures IsView(block, state.Back()) && block.Proto() == Initial(RESERVE, thread)
      ensures block.Contents() == seq(tiles, _ => Some(zero))
      ensures FilledExactlyWhereHeld()
      ensures state.Window(state.head, state.visible) == old(state.Window(state.head, state.visible))
      ensures pendingWaited != null ==> pendingWaited.Contents() == old(pendingWaited.Contents())
    {
      var reserve := state.ReserveBack(tiles);
      assert reserve.Success?;
      var p := state.GetWritePtr(thread);
      assert p.Success?;
      block := p.value;
      BackWindowStartsWhereVisibleEnds(block);
      FillWithZeros(block);
      assert forall i: nat | i < state.visible :: !block.InWindow(Slot(state.head, i, state.cap));
    }

    lemma BackWindowStartsWhereVisibleEnds(block: Block<T>)
      requires state.Valid() && IsView(block, state.Back()) && tiles <= state.cap - state.visible
      ensures forall s: nat | s < state.cap ::
                block.InWindow(s) <==> state.visible <= Offset(state.head, s, state.cap) < state.visible + tiles
    {
    }

    method FillWithZeros(block: Block<T>)
      requires block.Valid() && block.CanWrite() && block.buf == state.buf
      modifies block.buf
      ensures forall i: nat | i < block.length :: block.Contents()[i] == Some(zero)
      ensures forall s: nat | s < block.capacity && !block.InWindow(s) :: block.buf[s] == old(block.buf[s])
    {
      var i := 0;
      while i < block.length
        invariant 0 <= i <= block.length
        invariant forall j: nat | j < i :: block.Contents()[j] == Some(zero)
        invariant forall s: nat | s < block.capacity && !block.InWindow(s) :: block.buf[s] == old(block.buf[s])
      {
        var w := block.WriteSlot(i, zero);
        i := i + 1;
      }
    }

    /** push_block(). */
    method Push() returns (r: Result<(), QueueError>)
      requires Valid()
      modifies this`pendingReserved, state`reserved, state`visible, pendingReserved
      ensures Valid()
      ensures match PushBlock(old(Abs()))
              case Failure(e) => r == Failure(e) && Abs() == old(Abs())
              case Success(q) => r.Success? && Abs() == q
    {
      HeldWindowsAreFilled();
      if pendingReserved != null {
        ghost var data := Values(pendingReserved.Contents());
        var m := pendingReserved.Mark(BlockState.Push);
        if m.Failure? {
          return Failure(Refused(m.error));
        }
        pendingReserved := null;
        PushWindow(data);
        return Success(());
      } else {
        var p := state.PushBack(tiles);
        assert p.Failure?;
        return Failure(NothingReserved);
      }
    }

    /** dfb_push_back on a whole reserved block. */
    method PushWindow(ghost data: seq<T>)
      requires state.Valid() && !state.BadCount(tiles) && state.reserved == tiles && Whole(state.visible, tiles)
      requires AllSome(state.Window(state.head, state.visible))
      requires AllSome(state.Window(state.Back(), tiles)) && data == Values(state.Window(state.Back(), tiles))
      modifies state`reserved, state`visible
      ensures state.Valid() && state.reserved == 0 && state.visible == old(state.visible) + tiles
      ensures AllSome(state.Window(state.head, state.visible)) && Whole(state.visible, tiles)
      ensures Chunks(Values(state.Window(state.head, state.visible)), tiles)
           == Chunks(old(Values(state.Window(state.head, state.visible))), tiles) + [data]
    {
      ghost var was := state.Window(state.head, state.visible);
      ghost var back := state.Window(state.Back(), tiles);
      var p := state.PushBack(tiles);
      assert p.Success?;
      ValuesAppend(was, back);
      ChunksAppend(Values(was), data, tiles);
    }

    /** pop_block(): with nothing waited for, it still drops the oldest visible block. */
    method Pop() returns (r: Result<(), QueueError>)
      requires Valid()
      modifies this`pendingWaited, state`head, state`visible, state`lastWaitTarget, state.buf, pendingWaited
      ensures Valid()
      ensures match PopBlock(old(Abs()))
              case Failure(e) => r == Failure(e) && Abs() == old(Abs())
              case Success(q) => r.Success? && Abs() == q
      ensures pendingReserved == old(pendingReserved)
    {
      GuardsAgree();
      if pendingWaited != null {
        var m := pendingWaited.Mark(BlockState.Pop);
        if m.Failure? {
          return Failure(Refused(m.error));
        }
      }
      var popped := RemoveOldest();
      return if popped then Success(()) else Failure(NothingVisible);
    }

    /** The oldest visible block and the pending waited one, if any, go. */
    method RemoveOldest() returns (popped: bool)
      requires Valid()
      modifies this`pendingWaited, state`head, state`visible, state`lastWaitTarget, state.buf
      ensures Valid() && pendingReserved == old(pendingReserved)
      ensures popped <==> old(Abs()).blocks != []
      ensures Abs() == if popped then old(Abs()).(blocks := old(Abs()).blocks[1..], reader := None) else old(Abs())
    {
      HeldWindowsAreFilled();
      popped := PopWindow();
      pendingWaited := null;
    }

    /** dfb_pop_front on a whole block; the writer's window stays where it is. */
    method PopWindow() returns (popped: bool)
      requires state.Valid() && !state.BadCount(tiles)
      requires Whole(state.cap, tiles) && Whole(state.head, tiles) && Whole(state.visible, tiles)
      requires FilledExactlyWhereHeld() && AllSome(state.Window(state.head, state.visible))
      modifies state`head, state`visible, state`lastWaitTarget, state.buf
      ensures state.Valid() && popped == (old(state.visible) > 0)
      ensures Whole(state.head, tiles) && Whole(state.visible, tiles) && FilledExactlyWhereHeld()
      ensures state.Back() == old(state.Back())
      ensures state.Window(state.Back(), state.reserved) == old(state.Window(state.Back(), state.reserved))
      ensures AllSome(state.Window(state.head, state.visible))
      ensures var tilesNow := Values(state.Window(state.head, state.visible));
              tilesNow == if popped then old(Values(state.Window(state.head, state.visible)))[tiles..]
                          else old(Values(state.Window(state.head, state.visible)))
      ensures if popped then state.lastWaitTarget == 0 && state.visible == old(state.visible) - tiles
              else state.lastWaitTarget == old(state.lastWaitTarget) && state.visible == old(state.visible)
                   && state.head == old(state.head)
    {
      WholeOrder(0, state.visible, tiles);
      WholeOrder(state.head, state.cap, tiles);
      ghost var was := state.Window(state.head, state.visible);
      ghost var ring, head, held := state.buf[..], state.head, state.visible + state.reserved;
      var p := state.PopFront(tiles);
      popped := p.Success?;
      if popped {
        ValuesDrop(was, tiles);
        assert state.Window(state.head, state.visible) == was[tiles..];
        ClearedFilling(ring, state.buf[..], head, held, tiles);
      }
    }

    // ----- A whole delivery -----

    /** A copy into the reserved block, from its start to the end of its wait. */
    method FillReserved(items: seq<T>)
      requires Valid() && pendingReserved != null && |items| == tiles
      requires pendingReserved.Proto() == Initial(RESERVE, DM)
      modifies pendingReserved, state.buf
      ensures Valid()
      ensures Abs() == old(Abs()).(writer := Some(Writing(Protocol(RESERVE, DM, MR, {PUSH, COPY_SRC}), items)))
    {
      HeldWindowsAreFilled();
      BackWindowStartsWhereVisibleEnds(pendingReserved);
      ghost var visible := state.Window(state.head, state.visible);
      CopyInto(items);
      assert forall i: nat | i < state.visible :: !pendingReserved.InWindow(Slot(state.head, i, state.cap));
      assert state.Window(state.head, state.visible) == visible;
      FilledStays(old(state.buf[..]), state.buf[..], state.head, state.visible + state.reserved, pendingReserved);
    }

    /** The copy itself. */
    method CopyInto(items: seq<T>)
      requires pendingReserved != null && pendingReserved.Valid() && |items| == pendingReserved.length
      requires pendingReserved.Proto() == Initial(RESERVE, DM)
      modifies pendingReserved, pendingReserved.buf
      ensures pendingReserved.Valid() && pendingReserved.Proto() == Protocol(RESERVE, DM, MR, {PUSH, COPY_SRC})
      ensures AllSome(pendingReserved.Contents()) && Values(pendingReserved.Contents()) == items
      ensures forall s: nat | s < pendingReserved.buf.Length && !pendingReserved.InWindow(s) ::
                pendingReserved.buf[s] == old(pendingReserved.buf[s])
    {
      var tx := CopyTransaction.Create(pendingReserved, true, items, true);
      var copied := tx.value.Wait(true);
      assert copied.Success?;
    }

    /** Writing tiles into a window of filled slots leaves the filled slots as they are. */
    lemma FilledStays(before: seq<Option<T>>, after: seq<Option<T>>, head: nat, held: nat, b: Block<T>)
      requires b.Valid() && b.capacity == |before| == |after| && head < |before|
      requires FilledExactly(before, head, held)
      requires forall s: nat | s < |before| && !b.InWindow(s) :: after[s] == before[s]
      requires forall s: nat | s < |before| && b.InWindow(s) :: after[s].Some? && before[s].Some?
      ensures FilledExactly(after, head, held)
    {
    }

    /** The producer's round: reserve, copy, push. */
    method Deliver(items: seq<T>)
      requires Valid() && Abs().writer.None? && CanReserve(Abs()) && |items| == tiles
      modifies this`pendingReserved, state`reserved, state`lastReserveTarget, state`visible, state.buf
      ensures Valid() && pendingWaited == old(pendingWaited)
      ensures Abs() == old(Abs()).(blocks := old(Abs()).blocks + [items])
    {
      var block := ReserveBlock(DM);
      FillReserved(items);
      var pushed := Push();
    }

    // ----- Window safety -----

    /** The pending windows lie in the ring without wrapping, share no slot, and every slot in
        them holds a tile, so reading them never meets an uninitialised slot. */
    lemma WindowSafety()
      requires Valid()
      ensures pendingReserved != null ==>
                pendingReserved.start + tiles <= state.cap && AllSome(pendingReserved.Contents())
      ensures pendingWaited != null ==>
                pendingWaited.start + tiles <= state.cap && AllSome(pendingWaited.Contents())
      ensures pendingReserved != null && pendingWaited != null ==>
                DisjointWindows(pendingWaited.start, tiles, pendingReserved.start, tiles, state.cap)
    {
      HeldWindowsAreFilled();
      WholeOrder(state.head, state.cap, tiles);
      WholeSum(state.head, state.visible);
      if state.head + state.visible >= state.cap {
        WholeDifference(state.head + state.visible, state.cap);
      }
      WholeOrder(state.Back(), state.cap, tiles);
      if pendingReserved != null && pendingWaited != null {
        state.WindowsAreDisjoint(tiles, tiles);
      }
    }

    lemma {:induction false} WholeSum(x: nat, y: nat)
      requires Whole(x, tiles) && Whole(y, tiles)
      ensures Whole(x + y, tiles)
      decreases x
    {
      if x > 0 {
        WholeSum(x - tiles, y);
      }
    }

    lemma {:induction false} WholeDifference(x: nat, y: nat)
      requires Whole(x, tiles) && Whole(y, tiles) && y <= x
      ensures Whole(x - y, tiles)
      decreases y
    {
      if y > 0 {
        WholeDifference(x - tiles, y - tiles);
      }
    }

    // ----- Writes through a pending block -----

    /** Only the slots of `b` changed, and they still hold tiles. */
    twostate predicate WroteOnly(b: Block<T>)
      requires b.Valid() && b.buf == state.buf && b.capacity == state.cap
      reads state.buf
    {
      && (forall s: nat | s < state.cap && !b.InWindow(s) :: state.buf[s] == old(state.buf[s]))
      && AllSome(b.Contents())
    }

    twostate predicate SamePositions()
      reads this, state
    {
      && unchanged(this) && unchanged(state)
    }

    /** A marked operation on the reserved block that writes only inside its window keeps the
        buffer's invariant ... */
    twostate lemma WriterTouchKeepsValid()
      requires old(Valid()) && SamePositions() && pendingReserved != null
      requires WroteOnly(pendingReserved)
      requires pendingWaited != null ==> unchanged(pendingWaited)
      ensures Valid()
    {
      assert forall s: nat | s < state.cap && pendingReserved.InWindow(s) ::
        s == Slot(pendingReserved.start, Offset(pendingReserved.start, s, state.cap), state.cap)
        && pendingReserved.Contents()[Offset(pendingReserved.start, s, state.cap)].Some?;
    }

    /** ... and does what TouchWriter says, leaving everything the consumer can see alone. */
    twostate lemma WriterTouchRefines(op: Operation)
      requires old(Valid()) && Valid() && SamePositions() && pendingReserved != null
      requires op !in {BlockState.Push, BlockState.Pop} && WroteOnly(pendingReserved)
      requires Apply(old(pendingReserved.Proto()), op) == Success(pendingReserved.Proto())
      requires pendingWaited != null ==> unchanged(pendingWaited)
      ensures TouchWriter(old(Abs()), op, Some(Values(pendingReserved.Contents()))) == Success(Abs())
    {
      BackWindowStartsWhereVisibleEnds(pendingReserved);
      assert forall i: nat | i < state.visible :: !pendingReserved.InWindow(Slot(state.head, i, state.cap));
      assert state.Window(state.head, state.visible) == old(state.Window(state.head, state.visible));
      if pendingWaited != null {
        assert pendingWaited.Proto() == old(pendingWaited.Proto());
      }
    }

    /** The same for the waited block: only the oldest visible block may change. */
    twostate lemma ReaderTouchKeepsValid()
      requires old(Valid()) && SamePositions() && pendingWaited != null
      requires WroteOnly(pendingWaited)
      requires pendingReserved != null ==> unchanged(pendingReserved)
      ensures Valid()
    {
      assert forall s: nat | s < state.cap && pendingWaited.InWindow(s) ::
        s == Slot(state.head, Offset(state.head, s, state.cap), state.cap)
        && pendingWaited.Contents()[Offset(state.head, s, state.cap)].Some?;
    }

    twostate lemma ReaderTouchRefines(op: Operation)
      requires old(Valid()) && Valid() && SamePositions() && pendingWaited != null
      requires op !in {BlockState.Push, BlockState.Pop} && WroteOnly(pendingWaited)
      requires Apply(old(pendingWaited.Proto()), op) == Success(pendingWaited.Proto())
      requires pendingReserved != null ==> unchanged(pendingReserved)
      ensures TouchReader(old(Abs()), op, Some(Values(pendingWaited.Contents()))) == Success(Abs())
    {
      HeldWindowsAreFilled();
      var now := Values(state.Window(state.head, state.visible));
      assert now[..tiles] == Values(pendingWaited.Contents());
      assert now[tiles..] == old(Values(state.Window(state.head, state.visible)))[tiles..];
      if pendingReserved != null {
        assert pendingReserved.Contents() == old(pendingReserved.Contents());
      }
    }
  }
}
