/** The accumulation loop of examples/singlecore_matmul.py on its two input buffers: each iteration
    waits for one block of either, stores their product, and pops both. */
module MatmulBuffers {
  import opened BlockState
  import opened Dataflow
  import opened DataflowQueue
  import opened Matmul
  import opened Wrappers
  import RingState

  /** The two buffers and the output block are different objects. */
  ghost predicate Separate(a: DataflowBuffer<Tile>, b: DataflowBuffer<Tile>, out: RingState.Block<Tile>)
    reads a, b
  {
    && a != b && a.state != b.state && a.state.buf != b.state.buf
    && out.buf != a.state.buf && out.buf != b.state.buf
    && a.pendingWaited == null && b.pendingWaited == null
    && a.pendingReserved == null && b.pendingReserved == null
  }

  /** The block's tiles as a factor. */
  function Factor(rows: nat, cols: nat, tiles: seq<Tile>): Block {
    Block([rows, cols], tiles)
  }

  /** The blocks that an iteration works on. */
  method WaitForBoth(a: DataflowBuffer<Tile>, b: DataflowBuffer<Tile>, out: RingState.Block<Tile>)
    returns (left: RingState.Block<Tile>, right: RingState.Block<Tile>)
    requires a.Valid() && b.Valid() && Separate(a, b, out)
    requires CanWait(a.Abs()) && CanWait(b.Abs())
    modifies a`pendingWaited, a.state`step, a.state`lastWaitTarget
    modifies b`pendingWaited, b.state`step, b.state`lastWaitTarget
    ensures a.Valid() && b.Valid() && left == a.pendingWaited && right == b.pendingWaited
    ensures fresh(left) && fresh(right) && left != right
    ensures AllSome(left.Contents()) && Values(left.Contents()) == old(a.Abs()).blocks[0]
    ensures AllSome(right.Contents()) && Values(right.Contents()) == old(b.Abs()).blocks[0]
    ensures a.Abs() == old(a.Abs()).(reader := Some(WAITED)) && b.Abs() == old(b.Abs()).(reader := Some(WAITED))
  {
    var x := a.WaitBlock(COMPUTE);
    var y := b.WaitBlock(COMPUTE);
    left, right := x.value, y.value;
  }

  /** The product of what was waited for, stored into the output block; the contents of the two
      buffers stay, and both blocks have been read. */
  method StoreFactors(a: DataflowBuffer<Tile>, b: DataflowBuffer<Tile>, out: RingState.Block<Tile>,
                      left: RingState.Block<Tile>, right: RingState.Block<Tile>, s: Sizes, ghost k: nat)
    returns (product: Block)
    requires a.Valid() && b.Valid() && a != b && a.state != b.state && a.state.buf != b.state.buf
    requires left == a.pendingWaited && right == b.pendingWaited && left != right && out != left && out != right
    requires a.pendingReserved == null && b.pendingReserved == null
    requires out.buf != a.state.buf && out.buf != b.state.buf
    requires AllSome(left.Contents()) && AllSome(right.Contents())
    requires left.Proto() == WAITED && right.Proto() == WAITED
    requires Multipliable(Factor(s.M, s.K, Values(left.Contents())), Factor(s.K, s.N, Values(right.Contents())), s)
    requires out.Valid() && out.length == s.M * s.N && s.K > 0 && out.Proto() == AfterStores(k)
    requires forall p: nat | p < out.length :: out.Contents()[p].Some?
    modifies out, left, right, out.buf
    ensures IsBlockProduct(product, Factor(s.M, s.K, old(Values(left.Contents()))),
                           Factor(s.K, s.N, old(Values(right.Contents()))), s)
    ensures out.Proto() == AfterStores(k + 1)
    ensures forall p: nat | p < out.length ::
              out.Contents()[p] == Some(if k == 0 then product.tiles[p]
                                        else TileAdd(old(out.Contents()[p]).value, product.tiles[p]))
    ensures left.Proto() == AfterRead(WAITED) && right.Proto() == AfterRead(WAITED)
    ensures a.Valid() && a.Abs() == old(a.Abs()).(reader := Some(AfterRead(WAITED)))
    ensures b.Valid() && b.Abs() == old(b.Abs()).(reader := Some(AfterRead(WAITED)))
  {
    var leftTiles := left.ToList();
    var rightTiles := right.ToList();
    assert leftTiles.value == Values(left.Contents()) && rightTiles.value == Values(right.Contents());
    var multiplied := MultiplyBlocks(Factor(s.M, s.K, leftTiles.value), Factor(s.K, s.N, rightTiles.value), s);
    product := multiplied.value;
    StoreProduct(out, left, right, product.tiles, k);
  }

  method PopBoth(a: DataflowBuffer<Tile>, b: DataflowBuffer<Tile>, out: RingState.Block<Tile>)
    requires a.Valid() && b.Valid() && a != b && a.state != b.state && a.state.buf != b.state.buf
    requires out.buf != a.state.buf && out.buf != b.state.buf
    requires a.pendingReserved == null && b.pendingReserved == null && a.pendingWaited != b.pendingWaited
    requires out != a.pendingWaited && out != b.pendingWaited
    requires a.Abs().reader == Some(AfterRead(WAITED)) && b.Abs().reader == Some(AfterRead(WAITED))
    requires a.Abs().blocks != [] && b.Abs().blocks != []
    modifies a`pendingWaited, a.state, a.state.buf, a.pendingWaited
    modifies b`pendingWaited, b.state, b.state.buf, b.pendingWaited
    ensures a.Valid() && b.Valid() && Separate(a, b, out)
    ensures a.Abs() == old(a.Abs()).(blocks := old(a.Abs()).blocks[1..], reader := None)
    ensures b.Abs() == old(b.Abs()).(blocks := old(b.Abs()).blocks[1..], reader := None)
  {
    var poppedA := a.Pop();
    var poppedB := b.Pop();
  }

  /** One iteration: the two waits, the store of the product, and the two pops. */
  method Step(a: DataflowBuffer<Tile>, b: DataflowBuffer<Tile>, out: RingState.Block<Tile>, s: Sizes, ghost k: nat)
    returns (product: Block)
    requires a.Valid() && b.Valid() && Separate(a, b, out) && CanWait(a.Abs()) && CanWait(b.Abs())
    requires Multipliable(Factor(s.M, s.K, a.Abs().blocks[0]), Factor(s.K, s.N, b.Abs().blocks[0]), s)
    requires out.Valid() && out.length == s.M * s.N && s.K > 0 && out.Proto() == AfterStores(k)
    requires forall p: nat | p < out.length :: out.Contents()[p].Some?
    modifies a`pendingWaited, a.state, a.state.buf, b`pendingWaited, b.state, b.state.buf, out, out.buf
    ensures a.Valid() && b.Valid() && Separate(a, b, out)
    ensures a.Abs() == old(a.Abs()).(blocks := old(a.Abs()).blocks[1..])
    ensures b.Abs() == old(b.Abs()).(blocks := old(b.Abs()).blocks[1..])
    ensures IsBlockProduct(product, Factor(s.M, s.K, old(a.Abs()).blocks[0]),
                           Factor(s.K, s.N, old(b.Abs()).blocks[0]), s)
    ensures out.Proto() == AfterStores(k + 1)
    ensures forall p: nat | p < out.length ::
              out.Contents()[p] == Some(if k == 0 then product.tiles[p]
                                        else TileAdd(old(out.Contents()[p]).value, product.tiles[p]))
  {
    var left, right := WaitForBoth(a, b, out);
    product := StoreFactors(a, b, out, left, right, s, k);
    PopBoth(a, b, out);
  }

  /** The reader thread's round and the compute thread's, over and over: after it the output block
      holds the sum of all products and can be pushed, and the buffers are as they were. */
  method AccumulateProducts(a: DataflowBuffer<Tile>, b: DataflowBuffer<Tile>, out: RingState.Block<Tile>,
                            lefts: seq<Block>, rights: seq<Block>, s: Sizes)
    returns (ghost products: seq<Block>)
    requires a.Valid() && b.Valid() && Separate(a, b, out) && a.Abs().blocks == [] && b.Abs().blocks == []
    requires a.tiles == s.M * s.K && b.tiles == s.K * s.N
    requires |lefts| == |rights| && forall k :: 0 <= k < |lefts| ==> Multipliable(lefts[k], rights[k], s)
    requires out.Valid() && out.length == s.M * s.N && s.K > 0
    requires out.Proto() == Initial(RESERVE, COMPUTE) && forall p: nat | p < out.length :: out.Contents()[p].Some?
    modifies a, a.state, a.state.buf, b, b.state, b.state.buf, out, out.buf
    ensures |products| == |lefts| && AllProducts(products, lefts, rights, s)
    ensures lefts != [] ==> AllSums(out.Contents(), products, s)
    ensures lefts != [] ==> Apply(out.Proto(), BlockState.Push).Success?
    ensures a.Valid() && b.Valid() && a.Abs() == old(a.Abs()) && b.Abs() == old(b.Abs())
  {
    products := [];
    for k := 0 to |lefts|
      invariant a.Valid() && b.Valid() && Separate(a, b, out)
      invariant a.Abs() == old(a.Abs()) && b.Abs() == old(b.Abs())
      invariant |products| == k && AllProducts(products, lefts, rights, s)
      invariant forall p: nat | p < out.length :: out.Contents()[p].Some?
      invariant k > 0 ==> AllSums(out.Contents(), products, s)
      invariant out.Proto() == AfterStores(k)
    {
      ghost var before := out.Contents();
      var product := OneRound(a, b, out, lefts[k], rights[k], s, k);
      MoreSums(before, out.Contents(), products, product, s);
      products := products + [product];
    }
  }

  /** One pair of factors delivered and consumed. */
  method OneRound(a: DataflowBuffer<Tile>, b: DataflowBuffer<Tile>, out: RingState.Block<Tile>,
                  left: Block, right: Block, s: Sizes, ghost k: nat)
    returns (product: Block)
    requires a.Valid() && b.Valid() && Separate(a, b, out) && a.Abs().blocks == [] && b.Abs().blocks == []
    requires a.tiles == s.M * s.K && b.tiles == s.K * s.N && Multipliable(left, right, s)
    requires out.Valid() && out.length == s.M * s.N && s.K > 0 && out.Proto() == AfterStores(k)
    requires forall p: nat | p < out.length :: out.Contents()[p].Some?
    modifies a, a.state, a.state.buf, b, b.state, b.state.buf, out, out.buf
    ensures a.Valid() && b.Valid() && Separate(a, b, out)
    ensures a.Abs() == old(a.Abs()) && b.Abs() == old(b.Abs())
    ensures IsBlockProduct(product, left, right, s) && out.Proto() == AfterStores(k + 1)
    ensures forall p: nat | p < out.length ::
              out.Contents()[p] == Some(if k == 0 then product.tiles[p]
                                        else TileAdd(old(out.Contents()[p]).value, product.tiles[p]))
  {
    a.Deliver(left.tiles);
    b.Deliver(right.tiles);
    product := Step(a, b, out, s, k);
  }
}
