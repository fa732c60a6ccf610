/** Copy transactions (python/sim/copy.py).  Every registered handler has a block at exactly one
    end; the other end, a tensor or a pipe, only delivers or takes a list of tiles. */
module Copying {
  import opened Wrappers
  import opened BlockState
  import opened RingState

  datatype CopyError = WrongState(error: StateError) | Invalid | Blocked | Mismatch | Unreadable

  class CopyTransaction<T> {
    const block: Block<T>
    /** true when the block is the destination. */
    const into: bool
    /** What the other end delivers into the block. */
    const incoming: seq<T>
    /** What the other end has been given. */
    var outgoing: seq<T>
    var completed: bool

    constructor (block: Block<T>, into: bool, incoming: seq<T>)
      ensures this.block == block && this.into == into && this.incoming == incoming
      ensures !completed && outgoing == []
    {
      this.block, this.into, this.incoming := block, into, incoming;
      outgoing, completed := [], false;
    }

    /** The transaction holds its block: nothing but its own wait() can use the block. */
    ghost predicate Holds()
      reads this, block
    {
      && block.Valid() && block.thread == DM && !completed
      && block.access == (if into then NAW else NAR) && block.expected == {TX_WAIT}
    }

    /** Marks the block, then validates.  A failed validation leaves the block locked. */
    static method Create(block: Block<T>, into: bool, incoming: seq<T>, shapesMatch: bool)
      returns (r: Result<CopyTransaction<T>, CopyError>)
      requires block.Valid()
      modifies block
      ensures var m := Apply(old(block.Proto()), if into then CopyDst else CopySrc);
              && (m.Failure? ==> r == Failure(WrongState(m.error)) && block.Proto() == old(block.Proto()))
              && (m.Success? ==> block.Proto() == m.value && (r.Success? <==> shapesMatch))
      ensures r.Success? ==> fresh(r.value) && r.value.Holds() && r.value.block == block
                             && r.value.into == into && r.value.incoming == incoming
    {
      var tx := new CopyTransaction(block, into, incoming);
      var m := block.Mark(if into then CopyDst else CopySrc);
      if m.Failure? {
        return Failure(WrongState(m.error));
      }
      if !shapesMatch {
        return Failure(Invalid);
      }
      return Success(tx);
    }

    /** wait(): transfers once and releases the block; a second wait does nothing.  A length
        mismatch leaves the block locked. */
    method Wait(canProceed: bool) returns (r: Result<(), CopyError>)
      requires block.Valid() && (Holds() || completed)
      modifies this, block, block.buf
      ensures old(completed) ==>
        && r.Success? && completed && outgoing == old(outgoing)
        && block.Proto() == old(block.Proto()) && block.buf[..] == old(block.buf[..])
      ensures !old(completed) ==>
                (r.Success? <==> && canProceed
                                 && (if into then |incoming| == block.length
                                     else forall i: nat | i < block.length :: old(block.Contents())[i].Some?))
      ensures r.Success? && !old(completed) ==>
        && completed && Apply(old(block.Proto()), TxWait) == Success(block.Proto())
        && (into ==> forall i: nat | i < block.length :: block.Contents()[i] == Some(incoming[i]))
        && (!into ==> |outgoing| == block.length
                      && forall i: nat | i < block.length :: old(block.Contents())[i] == Some(outgoing[i]))
      ensures r.Failure? ==> Holds() && outgoing == old(outgoing)
      ensures forall s: nat | s < block.capacity && !(into && block.InWindow(s)) ::
                block.buf[s] == old(block.buf[s])
    {
      if completed {
        return Success(());
      }
      if !canProceed {
        return Failure(Blocked);
      }
      if into {
        var c := block.CopyAsDest(incoming);
        if c.Failure? {
          return Failure(Mismatch);
        }
      } else {
        var items := block.ToList();
        if items.Failure? {
          return Failure(Unreadable);
        }
        outgoing := items.value;
      }
      completed := true;
      var m := block.Mark(TxWait);
      assert m.Success?;
      return Success(());
    }
  }
}
