/** Blocked matrix products: `matmul` on blocks of tiles (python/sim/dfb.py) and the accumulation
    over K-blocks of examples/singlecore_matmul.py, over exact integers. */
module Matmul {
  import opened MixedRadix
  import opened Wrappers
  import BlockState
  import RingState

  type Tile = seq<seq<int>>

  /** Tiles in row-major order. */
  datatype Block = Block(shape: seq<nat>, tiles: seq<Tile>)

  predicate IsTile(t: Tile, h: nat, w: nat) {
    |t| == h && forall r :: 0 <= r < h ==> |t[r]| == w
  }

  ghost predicate IsBlock(b: Block, rows: nat, cols: nat, h: nat, w: nat) {
    b.shape == [rows, cols] && |b.tiles| == rows * cols && forall p :: 0 <= p < |b.tiles| ==> IsTile(b.tiles[p], h, w)
  }

  // ----- Tiles -----

  /** Entry (r, c) of a product of tiles, over the first n terms. */
  function Dot(a: Tile, b: Tile, r: nat, c: nat, n: nat): int
    requires r < |a| && n <= |a[r]| && n <= |b| && forall t :: 0 <= t < |b| ==> c < |b[t]|
  {
    if n == 0 then 0 else Dot(a, b, r, c, n - 1) + a[r][n - 1] * b[n - 1][c]
  }

  /** t is the product of an h x d tile with a d x w tile. */
  ghost predicate IsProduct(t: Tile, a: Tile, b: Tile, h: nat, d: nat, w: nat) {
    && IsTile(t, h, w) && IsTile(a, h, d) && IsTile(b, d, w)
    && forall r: nat, c: nat | r < h && c < w :: t[r][c] == Dot(a, b, r, c, d)
  }

  /** `torch.matmul` on two tiles. */
  method TileMul(a: Tile, b: Tile, h: nat, d: nat, w: nat) returns (t: Tile)
    requires IsTile(a, h, d) && IsTile(b, d, w)
    ensures IsProduct(t, a, b, h, d, w)
  {
    t := [];
    for r := 0 to h
      invariant |t| == r
      invariant forall i: nat | i < r :: |t[i]| == w && forall c: nat | c < w :: t[i][c] == Dot(a, b, i, c, d)
    {
      var row: seq<int> := [];
      for c := 0 to w
        invariant |row| == c
        invariant forall j: nat | j < c :: row[j] == Dot(a, b, r, j, d)
      {
        var total := 0;
        for k := 0 to d
          invariant total == Dot(a, b, r, c, k)
        {
          total := total + a[r][k] * b[k][c];
        }
        row := row + [total];
      }
      t := t + [row];
    }
  }

  function TileAdd(a: Tile, b: Tile): Tile {
    seq(|a|, r requires 0 <= r < |a| =>
      if r < |b| then seq(|a[r]|, c requires 0 <= c < |a[r]| => if c < |b[r]| then a[r][c] + b[r][c] else 0)
      else a[r])
  }

  lemma TileAddEntry(a: Tile, b: Tile, h: nat, w: nat)
    requires IsTile(a, h, w) && IsTile(b, h, w)
    ensures IsTile(TileAdd(a, b), h, w)
    ensures forall r: nat, c: nat | r < h && c < w :: TileAdd(a, b)[r][c] == a[r][c] + b[r][c]
  {
  }

  // ----- Blocks -----

  lemma TileIndex(i: nat, j: nat, rows: nat, cols: nat)
    requires i < rows && j < cols
    ensures 0 <= i * cols + j < rows * cols
    ensures (i * cols + j) / cols == i && (i * cols + j) % cols == j
  {
    QuotientUnique(i, j, cols);
    MulMonotone(i + 1, rows, cols);
    MulMonotone(0, i, cols);
  }

  ghost function TileAt(b: Block, rows: nat, cols: nat, h: nat, w: nat, i: nat, j: nat): Tile
    requires IsBlock(b, rows, cols, h, w) && i < rows && j < cols
    ensures IsTile(TileAt(b, rows, cols, h, w, i, j), h, w)
  {
    TileIndex(i, j, rows, cols);
    b.tiles[i * cols + j]
  }

  /** Entry (r, c) of the matrix that a block's tiles assemble. */
  ghost function At(b: Block, rows: nat, cols: nat, h: nat, w: nat, r: nat, c: nat): int
    requires IsBlock(b, rows, cols, h, w) && h > 0 && w > 0 && r < rows * h && c < cols * w
  {
    QuotientBelow(r, rows, h);
    QuotientBelow(c, cols, w);
    TileAt(b, rows, cols, h, w, r / h, c / w)[r % h][c % w]
  }

  /** Sizes of a product: an M x K grid of h x d tiles by a K x N grid of d x w tiles. */
  datatype Sizes = Sizes(M: nat, K: nat, N: nat, h: nat, d: nat, w: nat)

  ghost predicate Multipliable(a: Block, b: Block, s: Sizes) {
    IsBlock(a, s.M, s.K, s.h, s.d) && IsBlock(b, s.K, s.N, s.d, s.w)
  }

  /** Entry (r, c) of the sum of the first n tile products for output tile (i, j). */
  ghost function PartialEntry(a: Block, b: Block, s: Sizes, i: nat, j: nat, r: nat, c: nat, n: nat): int
    requires Multipliable(a, b, s) && i < s.M && j < s.N && r < s.h && c < s.w && n <= s.K
  {
    if n == 0 then 0
    else
      PartialEntry(a, b, s, i, j, r, c, n - 1)
      + Dot(TileAt(a, s.M, s.K, s.h, s.d, i, n - 1), TileAt(b, s.K, s.N, s.d, s.w, n - 1, j), r, c, s.d)
  }

  ghost predicate IsPartial(t: Tile, a: Block, b: Block, s: Sizes, i: nat, j: nat, n: nat)
    requires Multipliable(a, b, s) && i < s.M && j < s.N && n <= s.K
  {
    IsTile(t, s.h, s.w) &&
    forall r: nat, c: nat | r < s.h && c < s.w :: t[r][c] == PartialEntry(a, b, s, i, j, r, c, n)
  }

  datatype MatmulError = Not2D | InnerMismatch | EmptyInner

  /** c's tile at (i, j) is complete. */
  ghost predicate TileDone(c: seq<Tile>, a: Block, b: Block, s: Sizes, i: nat, j: nat)
    requires Multipliable(a, b, s) && i < s.M && j < s.N
  {
    TileIndex(i, j, s.M, s.N);
    i * s.N + j < |c| && IsPartial(c[i * s.N + j], a, b, s, i, j, s.K)
  }

  ghost predicate RowsDone(c: seq<Tile>, a: Block, b: Block, s: Sizes, rows: nat)
    requires Multipliable(a, b, s) && rows <= s.M
  {
    |c| == rows * s.N && forall i: nat, j: nat | i < rows && j < s.N :: TileDone(c, a, b, s, i, j)
  }

  /** c is the block that `matmul` returns. */
  ghost predicate IsBlockProduct(c: Block, a: Block, b: Block, s: Sizes) {
    && Multipliable(a, b, s) && IsBlock(c, s.M, s.N, s.h, s.w)
    && forall i: nat, j: nat | i < s.M && j < s.N :: TileDone(c.tiles, a, b, s, i, j)
  }

  /** The innermost loop: the sum over k; with nothing to add there is no result. */
  method SumOfProducts(a: Block, b: Block, s: Sizes, i: nat, j: nat) returns (sum: Option<Tile>)
    requires Multipliable(a, b, s) && i < s.M && j < s.N
    ensures sum.None? <==> s.K == 0
    ensures sum.Some? ==> IsPartial(sum.value, a, b, s, i, j, s.K)
  {
    sum := None;
    for k := 0 to s.K
      invariant sum.None? <==> k == 0
      invariant sum.Some? ==> IsPartial(sum.value, a, b, s, i, j, k)
    {
      TileIndex(i, k, s.M, s.K);
      TileIndex(k, j, s.K, s.N);
      var partial := TileMul(a.tiles[i * s.K + k], b.tiles[k * s.N + j], s.h, s.d, s.w);
      if sum.None? {
        sum := Some(partial);
      } else {
        TileAddEntry(sum.value, partial, s.h, s.w);
        sum := Some(TileAdd(sum.value, partial));
      }
    }
  }

  /** `matmul`; `s` gives the tile sizes, and the grids when the shapes fit. */
  method MultiplyBlocks(a: Block, b: Block, s: Sizes) returns (r: Result<Block, MatmulError>)
    requires |a.shape| == 2 ==> IsBlock(a, s.M, s.K, s.h, s.d)
    requires |b.shape| == 2 ==> IsBlock(b, b.shape[0], s.N, s.d, s.w)
    ensures r.Failure? ==>
              r.error == if |a.shape| != 2 || |b.shape| != 2 then Not2D
                         else if s.K != b.shape[0] then InnerMismatch else EmptyInner
    ensures r.Success? <==> |a.shape| == |b.shape| == 2 && s.K == b.shape[0] && (s.M * s.N > 0 ==> s.K > 0)
    ensures r.Success? ==> IsBlockProduct(r.value, a, b, s)
  {
    if |a.shape| != 2 || |b.shape| != 2 {
      return Failure(Not2D);
    }
    if a.shape[1] != b.shape[0] {
      return Failure(InnerMismatch);
    }
    var tiles: seq<Tile> := [];
    for i := 0 to s.M
      invariant RowsDone(tiles, a, b, s, i)
      invariant i * s.N > 0 ==> s.K > 0
    {
      ghost var before := tiles;
      for j := 0 to s.N
        invariant |tiles| == |before| + j && before <= tiles
        invariant forall x: nat | x < j :: TileDone(tiles, a, b, s, i, x)
        invariant j > 0 ==> s.K > 0
      {
        var sum := SumOfProducts(a, b, s, i, j);
        if sum.None? {
          MulMonotone(1, s.M, s.N);
          return Failure(EmptyInner);
        }
        ghost var shorter := tiles;
        tiles := tiles + [sum.value];
        forall x: nat | x <= j
          ensures TileDone(tiles, a, b, s, i, x)
        {
          assert x < j ==> TileDone(shorter, a, b, s, i, x);
        }
      }
      RowAdded(before, tiles, a, b, s, i);
    }
    forall p | 0 <= p < |tiles|
      ensures IsTile(tiles[p], s.h, s.w)
    {
      QuotientBelow(p, s.M, s.N);
      assert TileDone(tiles, a, b, s, p / s.N, p % s.N);
    }
    return Success(Block([s.M, s.N], tiles));
  }

  lemma RowAdded(before: seq<Tile>, after: seq<Tile>, a: Block, b: Block, s: Sizes, i: nat)
    requires Multipliable(a, b, s) && i < s.M && RowsDone(before, a, b, s, i)
    requires before <= after && |after| == |before| + s.N
    requires forall x: nat | x < s.N :: TileDone(after, a, b, s, i, x)
    ensures RowsDone(after, a, b, s, i + 1)
  {
    forall y: nat, x: nat | y < i + 1 && x < s.N
      ensures TileDone(after, a, b, s, y, x)
    {
      if y < i {
        assert TileDone(before, a, b, s, y, x);
      }
    }
  }

  // ----- Agreement with the flat product -----

  /** The first n terms of entry (r, c) of the product of the assembled matrices. */
  ghost function FlatSum(a: Block, b: Block, s: Sizes, r: nat, c: nat, n: nat): int
    requires Multipliable(a, b, s) && s.h > 0 && s.d > 0 && s.w > 0
    requires r < s.M * s.h && c < s.N * s.w && n <= s.K * s.d
  {
    if n == 0 then 0
    else FlatSum(a, b, s, r, c, n - 1) + At(a, s.M, s.K, s.h, s.d, r, n - 1) * At(b, s.K, s.N, s.d, s.w, n - 1, c)
  }

  /** The flat sum up to term t of the k-th tiles. */
  lemma {:induction false} FlatSumByTiles(a: Block, b: Block, s: Sizes, r: nat, c: nat, k: nat, t: nat)
    requires Multipliable(a, b, s) && s.h > 0 && s.d > 0 && s.w > 0
    requires r < s.M * s.h && c < s.N * s.w && k < s.K && t <= s.d
    ensures r / s.h < s.M && c / s.w < s.N && k * s.d + t <= s.K * s.d
    ensures FlatSum(a, b, s, r, c, k * s.d + t)
            == PartialEntry(a, b, s, r / s.h, c / s.w, r % s.h, c % s.w, k)
               + Dot(TileAt(a, s.M, s.K, s.h, s.d, r / s.h, k), TileAt(b, s.K, s.N, s.d, s.w, k, c / s.w),
                     r % s.h, c % s.w, t)
    decreases k, t
  {
    QuotientBelow(r, s.M, s.h);
    QuotientBelow(c, s.N, s.w);
    MulMonotone(k + 1, s.K, s.d);
    if t > 0 {
      FlatSumByTiles(a, b, s, r, c, k, t - 1);
      TileIndex(k, t - 1, s.K, s.d);
    } else if k > 0 {
      FlatSumByTiles(a, b, s, r, c, k - 1, s.d);
      assert (k - 1) * s.d + s.d == k * s.d;
    }
  }

  /** Row r and column c are row x and column y of tile (i, j). */
  predicate Locates(s: Sizes, r: nat, c: nat, i: nat, j: nat, x: nat, y: nat)
    requires s.h > 0 && s.w > 0
  {
    && r < s.M * s.h && c < s.N * s.w && i < s.M && j < s.N && x < s.h && y < s.w
    && i == r / s.h && j == c / s.w && x == r % s.h && y == c % s.w
  }

  lemma FlatSumTotal(a: Block, b: Block, s: Sizes, r: nat, c: nat, i: nat, j: nat, x: nat, y: nat)
    requires Multipliable(a, b, s) && s.h > 0 && s.d > 0 && s.w > 0 && Locates(s, r, c, i, j, x, y)
    ensures FlatSum(a, b, s, r, c, s.K * s.d) == PartialEntry(a, b, s, i, j, x, y, s.K)
  {
    if s.K > 0 {
      FlatSumByTiles(a, b, s, r, c, s.K - 1, s.d);
      Distribute(s.K, s.d);
    }
  }

  lemma Distribute(k: int, d: int)
    ensures (k - 1) * d + d == k * d
  {
  }

  lemma DoneEntry(c: Block, a: Block, b: Block, s: Sizes, i: nat, j: nat, x: nat, y: nat)
    requires IsBlockProduct(c, a, b, s) && i < s.M && j < s.N && x < s.h && y < s.w
    ensures TileAt(c, s.M, s.N, s.h, s.w, i, j)[x][y] == PartialEntry(a, b, s, i, j, x, y, s.K)
  {
    assert TileDone(c.tiles, a, b, s, i, j);
  }

  /** Every entry of the blocked product is that of the flat product of the assembled matrices. */
  lemma BlockedIsFlat(c: Block, a: Block, b: Block, s: Sizes, row: nat, col: nat)
    requires IsBlockProduct(c, a, b, s) && s.h > 0 && s.d > 0 && s.w > 0
    requires row < s.M * s.h && col < s.N * s.w
    ensures At(c, s.M, s.N, s.h, s.w, row, col) == FlatSum(a, b, s, row, col, s.K * s.d)
  {
    QuotientBelow(row, s.M, s.h);
    QuotientBelow(col, s.N, s.w);
    EntryIsFlat(c, a, b, s, row, col, row / s.h, col / s.w, row % s.h, col % s.w);
  }

  lemma EntryIsFlat(c: Block, a: Block, b: Block, s: Sizes, row: nat, col: nat, i: nat, j: nat, x: nat, y: nat)
    requires IsBlockProduct(c, a, b, s) && s.h > 0 && s.d > 0 && s.w > 0 && Locates(s, row, col, i, j, x, y)
    ensures At(c, s.M, s.N, s.h, s.w, row, col) == FlatSum(a, b, s, row, col, s.K * s.d)
  {
    FlatSumTotal(a, b, s, row, col, i, j, x, y);
    DoneEntry(c, a, b, s, i, j, x, y);
  }

  // ----- Accumulation over K-blocks -----

  ghost predicate AllProducts(products: seq<Block>, lefts: seq<Block>, rights: seq<Block>, s: Sizes) {
    |products| <= |lefts| && |lefts| == |rights| &&
    forall k :: 0 <= k < |products| ==> IsBlockProduct(products[k], lefts[k], rights[k], s)
  }

  predicate HasEntry(b: Block, p: nat, r: nat, c: nat) {
    p < |b.tiles| && r < |b.tiles[p]| && c < |b.tiles[p][r]|
  }

  /** Entry (r, c) of tile p summed over the first n products. */
  ghost function EntrySum(products: seq<Block>, p: nat, r: nat, c: nat, n: nat): int
    requires n <= |products|
    requires forall k :: 0 <= k < n ==> HasEntry(products[k], p, r, c)
  {
    if n == 0 then 0
    else
      assert HasEntry(products[n - 1], p, r, c);
      EntrySum(products, p, r, c, n - 1) + products[n - 1].tiles[p][r][c]
  }

  ghost predicate SumsTiles(t: Tile, products: seq<Block>, s: Sizes, p: nat)
    requires p < s.M * s.N && forall k :: 0 <= k < |products| ==> IsBlock(products[k], s.M, s.N, s.h, s.w)
  {
    IsTile(t, s.h, s.w) &&
    forall r: nat, c: nat | r < s.h && c < s.w ::
      (forall k :: 0 <= k < |products| ==> HasEntry(products[k], p, r, c)) &&
      t[r][c] == EntrySum(products, p, r, c, |products|)
  }

  lemma {:induction false} EntrySumPrefix(products: seq<Block>, last: Block, p: nat, r: nat, c: nat, n: nat)
    requires n <= |products|
    requires forall k :: 0 <= k < n ==> HasEntry(products[k], p, r, c)
    ensures EntrySum(products + [last], p, r, c, n) == EntrySum(products, p, r, c, n)
  {
    if n > 0 {
      EntrySumPrefix(products, last, p, r, c, n - 1);
    }
  }

  /** What one more accumulating store leaves in a tile. */
  lemma OneMoreProduct(before: Tile, now: Tile, products: seq<Block>, last: Block, s: Sizes, p: nat)
    requires p < s.M * s.N && IsBlock(last, s.M, s.N, s.h, s.w)
    requires forall k :: 0 <= k < |products| ==> IsBlock(products[k], s.M, s.N, s.h, s.w)
    requires products == [] ==> now == last.tiles[p]
    requires products != [] ==> SumsTiles(before, products, s, p) && now == TileAdd(before, last.tiles[p])
    ensures SumsTiles(now, products + [last], s, p)
  {
    if products != [] {
      TileAddEntry(before, last.tiles[p], s.h, s.w);
    }
    assert IsTile(last.tiles[p], s.h, s.w) && IsTile(now, s.h, s.w);
    forall r: nat, c: nat | r < s.h && c < s.w
      ensures now[r][c] == EntrySum(products + [last], p, r, c, |products| + 1)
    {
      EntrySumPrefix(products, last, p, r, c, |products|);
      assert (products + [last])[|products|] == last;
    }
    forall r: nat, c: nat, k | r < s.h && c < s.w && 0 <= k < |products| + 1
      ensures HasEntry((products + [last])[k], p, r, c)
    {
      assert IsBlock((products + [last])[k], s.M, s.N, s.h, s.w);
    }
  }

  /** The same for all tiles of the output block. */
  ghost predicate AllSums(tiles: seq<Option<Tile>>, products: seq<Block>, s: Sizes)
    requires |tiles| == s.M * s.N
    requires forall k :: 0 <= k < |products| ==> IsBlock(products[k], s.M, s.N, s.h, s.w)
  {
    forall p: nat | p < |tiles| :: tiles[p].Some? && SumsTiles(tiles[p].value, products, s, p)
  }

  lemma MoreSums(before: seq<Option<Tile>>, now: seq<Option<Tile>>, products: seq<Block>, last: Block, s: Sizes)
    requires |before| == |now| == s.M * s.N && IsBlock(last, s.M, s.N, s.h, s.w)
    requires forall k :: 0 <= k < |products| ==> IsBlock(products[k], s.M, s.N, s.h, s.w)
    requires products != [] ==> AllSums(before, products, s)
    requires forall p: nat | p < |before| :: before[p].Some?
    requires forall p: nat | p < |now| ::
               now[p] == Some(if products == [] then last.tiles[p] else TileAdd(before[p].value, last.tiles[p]))
    ensures AllSums(now, products + [last], s)
  {
    forall p: nat | p < |now|
      ensures now[p].Some? && SumsTiles(now[p].value, products + [last], s, p)
    {
      OneMoreProduct(before[p].value, now[p].value, products, last, s, p);
    }
  }

  const WAITED := BlockState.Initial(BlockState.WAIT, BlockState.COMPUTE)

  /** One accumulating store of a product into the output block, after k others. */
  method StoreProduct(out: RingState.Block<Tile>, a: RingState.Block<Tile>, b: RingState.Block<Tile>,
                      tiles: seq<Tile>, ghost k: nat)
    requires out.Valid() && |tiles| == out.length && a != out && b != out
    requires forall p: nat | p < out.length :: out.Contents()[p].Some?
    requires out.Proto() == AfterStores(k) && a.Proto() == WAITED && b.Proto() == WAITED
    modifies out, a, b, out.buf
    ensures out.Proto() == AfterStores(k + 1)
    ensures a.Proto() == BlockState.AfterRead(WAITED) && b.Proto() == BlockState.AfterRead(WAITED)
    ensures forall p: nat | p < out.length ::
              out.Contents()[p] == Some(if k == 0 then tiles[p] else TileAdd(old(out.Contents()[p]).value, tiles[p]))
  {
    ghost var before := out.Contents();
    assert RingState.FirstEmpty(before) == out.length;
    var sources := [a, b];
    assert a in sources && b in sources;
    var stored := out.Store(tiles, sources, true, TileAdd);
    assert stored.Success?;
  }

  /** The output block's state after k accumulating stores. */
  ghost function AfterStores(k: nat): BlockState.Protocol {
    var start := BlockState.Initial(BlockState.RESERVE, BlockState.COMPUTE);
    if k == 0 then start
    else BlockState.Protocol(start.acq, start.thread, BlockState.A,
                             {BlockState.STORE_SRC, BlockState.STORE_ACC, BlockState.PUSH})
  }

  ghost predicate AllMultipliable(lefts: seq<Block>, rights: seq<Block>, s: Sizes) {
    && s.h > 0 && s.d > 0 && s.w > 0 && s.K > 0
    && |lefts| == |rights| && forall k :: 0 <= k < |lefts| ==> Multipliable(lefts[k], rights[k], s)
  }

  /** One K-block's share of the inner dimension. */
  function Depth(s: Sizes): nat {
    s.K * s.d
  }

  lemma DepthPositive(s: Sizes)
    requires s.K > 0 && s.d > 0
    ensures Depth(s) > 0
  {
    MulMonotone(1, s.K, s.d);
  }

  /** Term x of entry (r, c) of the product of the whole matrices: the left one is the K-blocks
      side by side, the right one the K-blocks one above the other. */
  ghost function LongTerm(lefts: seq<Block>, rights: seq<Block>, s: Sizes, r: nat, c: nat, x: nat): int
    requires AllMultipliable(lefts, rights, s)
    requires r < s.M * s.h && c < s.N * s.w && x < |lefts| * Depth(s)
  {
    DepthPositive(s);
    QuotientBelow(x, |lefts|, Depth(s));
    var k, y := x / Depth(s), x % Depth(s);
    At(lefts[k], s.M, s.K, s.h, s.d, r, y) * At(rights[k], s.K, s.N, s.d, s.w, y, c)
  }

  ghost function LongSum(lefts: seq<Block>, rights: seq<Block>, s: Sizes, r: nat, c: nat, n: nat): int
    requires AllMultipliable(lefts, rights, s)
    requires r < s.M * s.h && c < s.N * s.w && n <= |lefts| * Depth(s)
  {
    if n == 0 then 0 else LongSum(lefts, rights, s, r, c, n - 1) + LongTerm(lefts, rights, s, r, c, n - 1)
  }

  ghost function BlockSums(lefts: seq<Block>, rights: seq<Block>, s: Sizes, r: nat, c: nat, n: nat): int
    requires AllMultipliable(lefts, rights, s)
    requires r < s.M * s.h && c < s.N * s.w && n <= |lefts|
  {
    if n == 0 then 0
    else BlockSums(lefts, rights, s, r, c, n - 1) + FlatSum(lefts[n - 1], rights[n - 1], s, r, c, Depth(s))
  }

  lemma LongTermAt(lefts: seq<Block>, rights: seq<Block>, s: Sizes, r: nat, c: nat, k: nat, t: nat)
    requires AllMultipliable(lefts, rights, s)
    requires r < s.M * s.h && c < s.N * s.w && k < |lefts| && t < Depth(s)
    ensures 0 <= k * Depth(s) + t < |lefts| * Depth(s)
    ensures LongTerm(lefts, rights, s, r, c, k * Depth(s) + t)
            == At(lefts[k], s.M, s.K, s.h, s.d, r, t) * At(rights[k], s.K, s.N, s.d, s.w, t, c)
  {
    TileIndex(k, t, |lefts|, Depth(s));
  }

  lemma {:induction false} LongSumByBlocks(lefts: seq<Block>, rights: seq<Block>, s: Sizes, r: nat, c: nat,
                                          k: nat, t: nat)
    requires AllMultipliable(lefts, rights, s)
    requires r < s.M * s.h && c < s.N * s.w && k < |lefts| && t <= Depth(s)
    ensures 0 <= k * Depth(s) + t <= |lefts| * Depth(s)
    ensures LongSum(lefts, rights, s, r, c, k * Depth(s) + t)
            == BlockSums(lefts, rights, s, r, c, k) + FlatSum(lefts[k], rights[k], s, r, c, t)
    decreases k, t
  {
    var depth := Depth(s);
    MulMonotone(k + 1, |lefts|, depth);
    MulMonotone(0, k, depth);
    if t > 0 {
      LongSumByBlocks(lefts, rights, s, r, c, k, t - 1);
      LongTermAt(lefts, rights, s, r, c, k, t - 1);
    } else if k > 0 {
      LongSumByBlocks(lefts, rights, s, r, c, k - 1, depth);
      Distribute(k, depth);
    }
  }

  lemma LongSumTotal(lefts: seq<Block>, rights: seq<Block>, s: Sizes, r: nat, c: nat, last: nat, total: nat)
    requires AllMultipliable(lefts, rights, s)
    requires r < s.M * s.h && c < s.N * s.w && last + 1 == |lefts| && total == |lefts| * Depth(s)
    ensures LongSum(lefts, rights, s, r, c, total) == BlockSums(lefts, rights, s, r, c, |lefts|)
  {
    LongSumByBlocks(lefts, rights, s, r, c, last, Depth(s));
    Distribute(|lefts|, Depth(s));
    assert last * Depth(s) + Depth(s) == total;
  }

  lemma {:induction false} EntrySumIsBlockSums(products: seq<Block>, lefts: seq<Block>, rights: seq<Block>, s: Sizes,
                                               r: nat, c: nat, i: nat, j: nat, x: nat, y: nat, n: nat)
    requires AllMultipliable(lefts, rights, s) && AllProducts(products, lefts, rights, s)
    requires Locates(s, r, c, i, j, x, y) && n <= |products|
    requires forall k :: 0 <= k < |products| ==> HasEntry(products[k], i * s.N + j, x, y)
    ensures EntrySum(products, i * s.N + j, x, y, n) == BlockSums(lefts, rights, s, r, c, n)
  {
    if n > 0 {
      EntrySumIsBlockSums(products, lefts, rights, s, r, c, i, j, x, y, n - 1);
      EntryIsFlat(products[n - 1], lefts[n - 1], rights[n - 1], s, r, c, i, j, x, y);
    }
  }

  /** Accumulating the products of the K-blocks leaves, in every tile of the output block, the
      entries of the full product. */
  lemma AccumulatedIsFlat(t: Tile, products: seq<Block>, lefts: seq<Block>, rights: seq<Block>, s: Sizes,
                          r: nat, c: nat, i: nat, j: nat, x: nat, y: nat)
    requires AllMultipliable(lefts, rights, s) && AllProducts(products, lefts, rights, s)
    requires |products| == |lefts| > 0 && Locates(s, r, c, i, j, x, y)
    requires i * s.N + j < s.M * s.N && SumsTiles(t, products, s, i * s.N + j)
    ensures t[x][y] == LongSum(lefts, rights, s, r, c, |lefts| * Depth(s))
  {
    EntryOfSum(t, products, s, i * s.N + j, x, y);
    EntrySumIsBlockSums(products, lefts, rights, s, r, c, i, j, x, y, |lefts|);
    LongSumTotal(lefts, rights, s, r, c, |lefts| - 1, |lefts| * Depth(s));
  }

  lemma EntryOfSum(t: Tile, products: seq<Block>, s: Sizes, p: nat, x: nat, y: nat)
    requires p < s.M * s.N && forall k :: 0 <= k < |products| ==> IsBlock(products[k], s.M, s.N, s.h, s.w)
    requires SumsTiles(t, products, s, p) && x < s.h && y < s.w
    ensures x < |t| && y < |t[x]| && forall k :: 0 <= k < |products| ==> HasEntry(products[k], p, x, y)
    ensures t[x][y] == EntrySum(products, p, x, y, |products|)
  {
  }
}
