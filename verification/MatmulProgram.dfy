/** examples/singlecore_matmul.py on its matrices: what its three threads leave in the output tensor
    is the product. */
module MatmulProgram {
  import opened Matmul
  import opened MatmulPipeline
  import MR = MixedRadix
  import opened Network
  import P = Pipeline
  import Sched = Scheduler

  function ProductTile(x: Tile, y: Tile, s: Sizes): (t: Tile)
    requires IsTile(x, s.h, s.d) && IsTile(y, s.d, s.w)
    ensures IsProduct(t, x, y, s.h, s.d, s.w)
  {
    seq(s.h, (r: nat) requires r < s.h => seq(s.w, (c: nat) requires c < s.w => Dot(x, y, r, c, s.d)))
  }

  /** The product of two one-tile blocks. */
  function MulBlocks(x: seq<Tile>, y: seq<Tile>, s: Sizes): seq<Tile> {
    if |x| == |y| == 1 && IsTile(x[0], s.h, s.d) && IsTile(y[0], s.d, s.w) then [ProductTile(x[0], y[0], s)] else []
  }

  function AddBlocks(x: seq<Tile>, y: seq<Tile>): seq<Tile> {
    if |x| == |y| == 1 then [TileAdd(x[0], y[0])] else []
  }

  /** The block read for product i of the loops over m, n and k: tile (m, k) of the left matrix ... */
  function LeftBlock(a: Block, s: Sizes, i: nat): seq<Tile> {
    if s.K == 0 || s.N == 0 then []
    else
      var index := i / s.K / s.N * s.K + i % s.K;
      if 0 <= index < |a.tiles| then [a.tiles[index]] else []
  }

  /** ... and tile (k, n) of the right one. */
  function RightBlock(b: Block, s: Sizes, i: nat): seq<Tile> {
    if s.K == 0 || s.N == 0 then []
    else
      var index := i % s.K * s.N + i / s.K % s.N;
      if 0 <= index < |b.tiles| then [b.tiles[index]] else []
  }

  /** The program's three threads. */
  function MatrixConfig(a: Block, b: Block, s: Sizes, factor: nat): Config<Tile> {
    Config(s.M * s.N, s.K, factor,
           (i: nat) => LeftBlock(a, s, i), (i: nat) => RightBlock(b, s, i),
           (x: seq<Tile>, y: seq<Tile>) => MulBlocks(x, y, s), (x: seq<Tile>, y: seq<Tile>) => AddBlocks(x, y), [])
  }

  /** The k-th product for output tile (m, n). */
  lemma ProductAt(a: Block, b: Block, s: Sizes, factor: nat, m: nat, n: nat, k: nat, i: nat)
    requires Multipliable(a, b, s) && m < s.M && n < s.N && k < s.K && i == (m * s.N + n) * s.K + k
    ensures Product(MatrixConfig(a, b, s, factor), i)
            == [ProductTile(TileAt(a, s.M, s.K, s.h, s.d, m, k), TileAt(b, s.K, s.N, s.d, s.w, k, n), s)]
  {
    MR.QuotientUnique(m * s.N + n, k, s.K);
    MR.QuotientUnique(m, n, s.N);
    TileIndex(m, k, s.M, s.K);
    TileIndex(k, n, s.K, s.N);
  }

  /** After t accumulating stores the output block holds the first t products' sum. */
  lemma {:induction false} SumIsPartial(a: Block, b: Block, s: Sizes, factor: nat, m: nat, n: nat, t: nat, i: nat)
    returns (tile: Tile)
    requires Multipliable(a, b, s) && m < s.M && n < s.N && 1 <= t <= s.K && i == (m * s.N + n) * s.K + t
    ensures Sum(MatrixConfig(a, b, s, factor), t, i) == [tile] && IsPartial(tile, a, b, s, m, n, t)
    decreases t
  {
    var c := MatrixConfig(a, b, s, factor);
    MR.MulMonotone(0, m * s.N + n, s.K) by {
      MR.MulMonotone(0, m, s.N);
    }
    ProductAt(a, b, s, factor, m, n, t - 1, i - 1);
    var next := ProductTile(TileAt(a, s.M, s.K, s.h, s.d, m, t - 1), TileAt(b, s.K, s.N, s.d, s.w, t - 1, n), s);
    if t == 1 {
      tile := next;
      assert Sum(c, 1, i) == Product(c, i - 1);
      FirstPartial(a, b, s, m, n, next);
    } else {
      var before := SumIsPartial(a, b, s, factor, m, n, t - 1, i - 1);
      tile := TileAdd(before, next);
      SumAdds(a, b, s, factor, t, i, before, next);
      NextPartial(a, b, s, m, n, t, before, next);
    }
  }

  lemma SumAdds(a: Block, b: Block, s: Sizes, factor: nat, t: nat, i: nat, before: Tile, next: Tile)
    requires Multipliable(a, b, s) && t > 1 && i > 1
    requires var c := MatrixConfig(a, b, s, factor); Sum(c, t - 1, i - 1) == [before] && Product(c, i - 1) == [next]
    ensures Sum(MatrixConfig(a, b, s, factor), t, i) == [TileAdd(before, next)]
  {
  }

  lemma FirstPartial(a: Block, b: Block, s: Sizes, m: nat, n: nat, next: Tile)
    requires Multipliable(a, b, s) && m < s.M && n < s.N && 1 <= s.K
    requires IsProduct(next, TileAt(a, s.M, s.K, s.h, s.d, m, 0), TileAt(b, s.K, s.N, s.d, s.w, 0, n), s.h, s.d, s.w)
    ensures IsPartial(next, a, b, s, m, n, 1)
  {
  }

  lemma NextPartial(a: Block, b: Block, s: Sizes, m: nat, n: nat, t: nat, before: Tile, next: Tile)
    requires Multipliable(a, b, s) && m < s.M && n < s.N && 1 < t <= s.K
    requires IsPartial(before, a, b, s, m, n, t - 1)
    requires IsProduct(next, TileAt(a, s.M, s.K, s.h, s.d, m, t - 1), TileAt(b, s.K, s.N, s.d, s.w, t - 1, n),
                       s.h, s.d, s.w)
    ensures IsPartial(TileAdd(before, next), a, b, s, m, n, t)
  {
    TileAddEntry(before, next, s.h, s.w);
  }

  /** The output tensor's tiles. */
  function Written(blocks: seq<seq<Tile>>): seq<Tile> {
    seq(|blocks|, (p: nat) requires p < |blocks| => if blocks[p] == [] then [] else blocks[p][0])
  }

  /** Tiles that are complete one by one make the block product. */
  lemma ProductOfTiles(tiles: seq<Tile>, a: Block, b: Block, s: Sizes)
    requires Multipliable(a, b, s) && |tiles| == s.M * s.N
    requires forall m: nat, n: nat | m < s.M && n < s.N :: TileDone(tiles, a, b, s, m, n)
    ensures IsBlockProduct(Block([s.M, s.N], tiles), a, b, s)
  {
    forall p | 0 <= p < |tiles|
      ensures IsTile(tiles[p], s.h, s.w)
    {
      if s.N == 0 {
        assert false;
      }
      MR.QuotientBelow(p, s.M, s.N);
      assert TileDone(tiles, a, b, s, p / s.N, p % s.N);
    }
  }

  lemma WrittenAt(blocks: seq<seq<Tile>>, p: nat)
    requires p < |blocks| && |blocks[p]| == 1
    ensures Written(blocks)[p] == blocks[p][0]
  {
  }

  lemma WrittenIsProduct(a: Block, b: Block, s: Sizes, factor: nat, blocks: seq<seq<Tile>>)
    requires Multipliable(a, b, s) && s.K >= 1
    requires var c := MatrixConfig(a, b, s, factor); blocks == P.Between(Outs(c), 0, c.outs)
    ensures IsBlockProduct(Block([s.M, s.N], Written(blocks)), a, b, s)
  {
    forall m: nat, n: nat | m < s.M && n < s.N
      ensures TileDone(Written(blocks), a, b, s, m, n)
    {
      TileIndex(m, n, s.M, s.N);
      OutIsPartial(a, b, s, factor, m, n);
      WrittenAt(blocks, m * s.N + n);
    }
    ProductOfTiles(Written(blocks), a, b, s);
  }

  lemma OutIsPartial(a: Block, b: Block, s: Sizes, factor: nat, m: nat, n: nat)
    requires Multipliable(a, b, s) && s.K >= 1 && m < s.M && n < s.N
    ensures var c := MatrixConfig(a, b, s, factor);
            var p := m * s.N + n;
            0 <= p < c.outs && |Out(c, p)| == 1 && IsPartial(Out(c, p)[0], a, b, s, m, n, s.K)
  {
    TileIndex(m, n, s.M, s.N);
    var p := m * s.N + n;
    assert (p + 1) * s.K == p * s.K + s.K;
    var tile := SumIsPartial(a, b, s, factor, m, n, s.K, p * s.K + s.K);
  }

  lemma NothingWrittenIsProduct(a: Block, b: Block, s: Sizes)
    requires Multipliable(a, b, s) && s.M * s.N == 0
    ensures IsBlockProduct(Block([s.M, s.N], []), a, b, s)
  {
    if s.M > 0 {
      MR.MulMonotone(1, s.M, s.N);
    }
    assert s.M == 0 || s.N == 0;
  }

  /** The program under the scheduler, with either algorithm and any buffer factor.  It finishes if
      and only if the inner dimension is positive or there is no output, and the output is then the
      blocked product, which BlockedIsFlat says is the product of the matrices. */
  method RunSinglecoreMatmul(a: Block, b: Block, s: Sizes, factor: nat, algorithm: Sched.Algorithm)
    returns (v: Sched.Verdict, out: Block)
    requires Multipliable(a, b, s) && factor >= 1
    ensures v == if s.K >= 1 || s.M * s.N == 0 then Sched.Finished else Sched.Failed(COMPUTER)
    ensures v == Sched.Finished ==> IsBlockProduct(out, a, b, s)
  {
    var end: State<Locals<Tile>, Tile>;
    v, end := RunMatmul(MatrixConfig(a, b, s, factor), algorithm);
    out := Block([s.M, s.N], []);
    if v == Sched.Finished && s.M * s.N > 0 {
      WrittenIsProduct(a, b, s, factor, end.threads[WRITER].local.written);
      out := Block([s.M, s.N], Written(end.threads[WRITER].local.written));
    } else if s.M * s.N == 0 {
      NothingWrittenIsProduct(a, b, s);
    }
  }
}
