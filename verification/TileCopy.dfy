/** Copies between two-dimensional tensors and blocks of 32 x 32 tiles: the tensor handlers of
    python/sim/copyhandlers.py over the tile slices of python/sim/tensoraccessor.py. */
module TileCopy {
  import opened MixedRadix
  import opened Wrappers
  import RingState

  const TILE: nat := 32

  type Tile<T> = seq<seq<T>>

  datatype CopyError = NotTileIndexable | ShapeMismatch | CannotBroadcast | BlockFailed(error: RingState.BlockError)

  /** A dimension the accessor accepts. */
  predicate Indexable(size: nat) {
    size == 1 || size % TILE == 0
  }

  /** A size in `tensor_shape_in_tiles_with_skip`. */
  function InTiles(size: nat): nat {
    if size == 1 then 1 else size / TILE
  }

  /** Length of the slice [32 k, 32 (k + 1)) of a dimension, which ends at the dimension's end. */
  function SliceLength(size: nat, k: nat): nat {
    if (k + 1) * TILE <= size then TILE else if k * TILE <= size then size - k * TILE else 0
  }

  /** Which slice an element is in. */
  lemma ElementInSlice(size: nat, x: nat)
    requires Indexable(size) && x < size
    ensures x / TILE < InTiles(size) && x % TILE < SliceLength(size, x / TILE)
    ensures forall k: nat :: k < InTiles(size) && k * TILE <= x < k * TILE + SliceLength(size, k) ==> k == x / TILE
  {
  }

  predicate Rectangular<T>(tile: Tile<T>) {
    forall r: nat | r < |tile| :: |tile[r]| == Width(tile)
  }

  function Width<T>(tile: Tile<T>): nat {
    if tile == [] then 0 else |tile[0]|
  }

  /** torch assigns a value to a slice of the same sizes, stretching sizes of one. */
  predicate Stretches<T>(tile: Tile<T>, height: nat, width: nat) {
    && Rectangular(tile)
    && (|tile| == height || |tile| == 1) && (Width(tile) == width || Width(tile) == 1)
  }

  function StretchedAt<T>(tile: Tile<T>, r: nat, c: nat, height: nat, width: nat): T
    requires Stretches(tile, height, width) && r < height && c < width
  {
    tile[if |tile| == 1 then 0 else r][if Width(tile) == 1 then 0 else c]
  }

  class Tensor<T> {
    const data: array2<T>

    constructor (data: array2<T>)
      ensures this.data == data
    {
      this.data := data;
    }

    predicate Accepted() {
      Indexable(data.Length0) && Indexable(data.Length1)
    }

    /** The elements under tile (h, w). */
    ghost predicate Shows(tile: Tile<T>, h: nat, w: nat)
      reads data
    {
      && |tile| == SliceLength(data.Length0, h)
      && forall r: nat | r < |tile| ::
           |tile[r]| == SliceLength(data.Length1, w) &&
           forall c: nat | c < |tile[r]| :: tile[r][c] == data[h * TILE + r, w * TILE + c]
    }

    /** `__getitem__` at a tile. */
    method GetTile(h: nat, w: nat) returns (tile: Tile<T>)
      ensures Shows(tile, h, w)
    {
      tile := [];
      for r := 0 to SliceLength(data.Length0, h)
        invariant |tile| == r
        invariant forall i: nat | i < r :: |tile[i]| == SliceLength(data.Length1, w) &&
                    forall c: nat | c < |tile[i]| :: tile[i][c] == data[h * TILE + i, w * TILE + c]
      {
        var row: seq<T> := [];
        for c := 0 to SliceLength(data.Length1, w)
          invariant |row| == c && forall j: nat | j < c :: row[j] == data[h * TILE + r, w * TILE + j]
        {
          row := row + [data[h * TILE + r, w * TILE + c]];
        }
        tile := tile + [row];
      }
    }

    /** Element (r, c) is under tile (h, w). */
    predicate Under(h: nat, w: nat, r: nat, c: nat) {
      && h * TILE <= r < h * TILE + SliceLength(data.Length0, h)
      && w * TILE <= c < w * TILE + SliceLength(data.Length1, w)
    }

    /** The elements under tile (h, w) are the value's, stretched over them. */
    ghost predicate ShowsStretched(tile: Tile<T>, h: nat, w: nat)
      reads data
    {
      var height, width := SliceLength(data.Length0, h), SliceLength(data.Length1, w);
      && Stretches(tile, height, width)
      && forall r: nat, c: nat | r < height && c < width ::
           data[h * TILE + r, w * TILE + c] == StretchedAt(tile, r, c, height, width)
    }

    /** `__setitem__` at a tile. */
    method SetTile(h: nat, w: nat, tile: Tile<T>) returns (r: Result<(), CopyError>)
      requires Rectangular(tile)
      modifies data
      ensures r == if Stretches(tile, SliceLength(data.Length0, h), SliceLength(data.Length1, w)) then Success(())
                   else Failure(CannotBroadcast)
      ensures r.Success? ==> ShowsStretched(tile, h, w)
      ensures forall r: nat, c: nat | r < data.Length0 && c < data.Length1 && !Under(h, w, r, c) ::
                data[r, c] == old(data[r, c])
      ensures r.Failure? ==> unchanged(data)
    {
      var height, width := SliceLength(data.Length0, h), SliceLength(data.Length1, w);
      if !((|tile| == height || |tile| == 1) && (Width(tile) == width || Width(tile) == 1)) {
        return Failure(CannotBroadcast);
      }
      for i := 0 to height
        invariant forall k: nat, c: nat | k < i && c < width ::
                    data[h * TILE + k, w * TILE + c] == StretchedAt(tile, k, c, height, width)
        invariant forall k: nat, c: nat | k < data.Length0 && c < data.Length1 && !Under(h, w, k, c) ::
                    data[k, c] == old(data[k, c])
      {
        for j := 0 to width
          invariant forall c: nat | c < j ::
                      data[h * TILE + i, w * TILE + c] == StretchedAt(tile, i, c, height, width)
          invariant forall k: nat, c: nat | k < i && c < width ::
                      data[h * TILE + k, w * TILE + c] == StretchedAt(tile, k, c, height, width)
          invariant forall k: nat, c: nat | k < data.Length0 && c < data.Length1 && !Under(h, w, k, c) ::
                      data[k, c] == old(data[k, c])
        {
          data[h * TILE + i, w * TILE + j] := StretchedAt(tile, i, j, height, width);
        }
      }
      return Success(());
    }

    /** Every element is under exactly one tile, so a copy writes each once. */
    lemma OneTileEach(r: nat, c: nat)
      requires Accepted() && r < data.Length0 && c < data.Length1
      ensures r / TILE < InTiles(data.Length0) && c / TILE < InTiles(data.Length1)
      ensures forall h: nat, w: nat :: h < InTiles(data.Length0) && w < InTiles(data.Length1) ==>
                (Under(h, w, r, c) <==> h == r / TILE && w == c / TILE)
    {
      ElementInSlice(data.Length0, r);
      ElementInSlice(data.Length1, c);
    }

    /** The assignment of tile k, after the tiles before it. */
    method PlaceTile(tile: Tile<T>, rows: nat, cols: nat, k: nat, ghost tiles: seq<Option<Tile<T>>>)
      returns (r: Result<(), CopyError>)
      requires k < rows * cols == |tiles| && cols > 0 && Accepted() && FitsGrid(this, rows, cols)
      requires tiles[k] == Some(tile) && Rectangular(tile)
      requires forall i: nat | i < k :: Placed(this, tiles, cols, i)
      modifies data
      ensures r.Success? <==> Assignable(this, tiles, cols, k)
      ensures forall i: nat | i < k :: Placed(this, tiles, cols, i)
      ensures r.Success? ==> Placed(this, tiles, cols, k)
    {
      TilePlace(k, rows, cols);
      r := SetTile(k / cols, k % cols, tile);
      forall i: nat | i < k
        ensures Placed(this, tiles, cols, i)
      {
        TilePlace(i, rows, cols);
        assert old(Placed(this, tiles, cols, i));
        var h, w := RowOf(i, cols), ColOf(i, cols);
        var height, width := SliceLength(data.Length0, h), SliceLength(data.Length1, w);
        forall x: nat, y: nat | x < height && y < width
          ensures data[h * TILE + x, w * TILE + y] == StretchedAt(tiles[i].value, x, y, height, width)
        {
          UnderOne(h, w, RowOf(k, cols), ColOf(k, cols), x, y);
        }
      }
    }

    /** No element is under two tiles. */
    lemma UnderOne(h: nat, w: nat, h': nat, w': nat, r: nat, c: nat)
      requires Accepted() && (h, w) != (h', w')
      requires h < InTiles(data.Length0) && w < InTiles(data.Length1)
      requires h' < InTiles(data.Length0) && w' < InTiles(data.Length1)
      requires r < SliceLength(data.Length0, h) && c < SliceLength(data.Length1, w)
      ensures !Under(h', w', h * TILE + r, w * TILE + c)
    {
      OneTileEach(h * TILE + r, w * TILE + c);
      assert Under(h, w, h * TILE + r, w * TILE + c);
    }
  }

  /** Tile number k of a grid with so many columns. */
  function RowOf(k: nat, cols: nat): nat
    requires cols > 0
  {
    k / cols
  }

  function ColOf(k: nat, cols: nat): nat
    requires cols > 0
  {
    k % cols
  }

  lemma TilePlace(k: nat, rows: nat, cols: nat)
    requires k < rows * cols
    ensures cols > 0 && RowOf(k, cols) < rows && ColOf(k, cols) < cols
    ensures RowOf(k, cols) * cols + ColOf(k, cols) == k
  {
    if cols > 0 {
      QuotientBelow(k, rows, cols);
    }
  }

  predicate FitsGrid<T>(t: Tensor<T>, rows: nat, cols: nat) {
    InTiles(t.data.Length0) == rows && InTiles(t.data.Length1) == cols
  }

  /** Tile k of the tensor is the k-th of `tiles`. */
  ghost predicate HasTile<T>(t: Tensor<T>, tiles: seq<Option<Tile<T>>>, cols: nat, k: nat)
    requires k < |tiles| && cols > 0
    reads t.data
  {
    tiles[k].Some? && t.Shows(tiles[k].value, RowOf(k, cols), ColOf(k, cols))
  }

  /** TensorToBlockHandler. */
  method TensorToBlock<T>(src: Tensor<T>, rows: nat, cols: nat, dst: RingState.Block<Tile<T>>)
    returns (r: Result<(), CopyError>)
    requires dst.Valid() && dst.length == rows * cols
    modifies dst.buf
    ensures r == if !FitsGrid(src, rows, cols) then Failure(ShapeMismatch)
                 else if rows * cols > 0 && !src.Accepted() then Failure(NotTileIndexable)
                 else Success(())
    ensures r.Success? ==> forall k: nat | k < rows * cols ::
              cols > 0 && HasTile(src, dst.Contents(), cols, k)
    ensures forall s: nat | s < dst.capacity && !dst.InWindow(s) :: dst.buf[s] == old(dst.buf[s])
    ensures r.Failure? ==> unchanged(dst.buf)
  {
    if !FitsGrid(src, rows, cols) {
      return Failure(ShapeMismatch);
    }
    var tiles: seq<Tile<T>> := [];
    for k := 0 to rows * cols
      invariant |tiles| == k && (k > 0 ==> src.Accepted() && cols > 0) && unchanged(dst.buf)
      invariant forall i: nat | i < k :: src.Shows(tiles[i], RowOf(i, cols), ColOf(i, cols))
    {
      TilePlace(k, rows, cols);
      if !src.Accepted() {
        return Failure(NotTileIndexable);
      }
      var tile := src.GetTile(k / cols, k % cols);
      tiles := tiles + [tile];
    }
    var copied := dst.CopyAsDest(tiles);
    return Success(());
  }

  /** The k-th tile can be assigned to tile k of the tensor. */
  predicate Assignable<T>(t: Tensor<T>, tiles: seq<Option<Tile<T>>>, cols: nat, k: nat)
    requires k < |tiles| && cols > 0
  {
    tiles[k].Some? && Stretches(tiles[k].value, SliceLength(t.data.Length0, RowOf(k, cols)),
                                SliceLength(t.data.Length1, ColOf(k, cols)))
  }

  /** Tile k of the tensor holds the k-th of `tiles`, stretched where its sizes are one. */
  ghost predicate Placed<T>(t: Tensor<T>, tiles: seq<Option<Tile<T>>>, cols: nat, k: nat)
    requires k < |tiles| && cols > 0
    reads t.data
  {
    tiles[k].Some? && t.ShowsStretched(tiles[k].value, RowOf(k, cols), ColOf(k, cols))
  }

  ghost predicate AllRectangular<T>(tiles: seq<Option<Tile<T>>>) {
    forall k: nat | k < |tiles| && tiles[k].Some? :: Rectangular(tiles[k].value)
  }

  /** BlockToTensorHandler. */
  method BlockToTensor<T>(src: RingState.Block<Tile<T>>, rows: nat, cols: nat, dst: Tensor<T>)
    returns (r: Result<(), CopyError>)
    requires src.Valid() && src.length == rows * cols && (rows * cols > 0 ==> cols > 0)
    requires AllRectangular(src.Contents())
    modifies dst.data
    ensures r.Success? <==>
      FitsGrid(dst, rows, cols) &&
      (rows * cols > 0 ==> src.CanRead() && dst.Accepted() &&
                           forall k: nat | k < rows * cols :: Assignable(dst, src.Contents(), cols, k))
    ensures r.Success? ==> forall k: nat | k < rows * cols :: Placed(dst, src.Contents(), cols, k)
  {
    if !FitsGrid(dst, rows, cols) {
      return Failure(ShapeMismatch);
    }
    ghost var tiles := src.Contents();
    for k := 0 to rows * cols
      invariant k > 0 ==> src.CanRead() && dst.Accepted()
      invariant forall i: nat | i < k :: Assignable(dst, tiles, cols, i) && Placed(dst, tiles, cols, i)
    {
      TilePlace(k, rows, cols);
      var tile := src.GetItem(k);
      if tile.Failure? {
        assert !src.CanRead() || !Assignable(dst, src.Contents(), cols, k);
        return Failure(BlockFailed(tile.error));
      }
      if !dst.Accepted() {
        return Failure(NotTileIndexable);
      }
      var placed := dst.PlaceTile(tile.value, rows, cols, k, tiles);
      if placed.Failure? {
        assert tiles == src.Contents() && !Assignable(dst, tiles, cols, k);
        return placed;
      }
    }
    return Success(());
  }

  /** A tensor's own tiles can be assigned to a tensor of its sizes. */
  lemma OwnTilesAssignable<T>(a: Tensor<T>, b: Tensor<T>, tiles: seq<Option<Tile<T>>>, rows: nat, cols: nat, k: nat)
    requires a.Accepted() && FitsGrid(a, rows, cols) && k < rows * cols == |tiles|
    requires a.data.Length0 == b.data.Length0 && a.data.Length1 == b.data.Length1
    requires cols > 0 && HasTile(a, tiles, cols, k)
    ensures Assignable(b, tiles, cols, k)
  {
    TilePlace(k, rows, cols);
  }

  /** Copying a tensor into a block and the block into a tensor of the same size reproduces every
      element. */
  lemma CopyRoundTrip<T>(a: Tensor<T>, b: Tensor<T>, tiles: seq<Option<Tile<T>>>, rows: nat, cols: nat)
    requires a.Accepted() && FitsGrid(a, rows, cols)
    requires a.data.Length0 == b.data.Length0 && a.data.Length1 == b.data.Length1
    requires |tiles| == rows * cols
    requires forall k: nat | k < rows * cols :: cols > 0 && HasTile(a, tiles, cols, k) && Placed(b, tiles, cols, k)
    ensures forall r: nat, c: nat | r < a.data.Length0 && c < a.data.Length1 :: b.data[r, c] == a.data[r, c]
  {
    forall r: nat, c: nat | r < a.data.Length0 && c < a.data.Length1
      ensures b.data[r, c] == a.data[r, c]
    {
      a.OneTileEach(r, c);
      var h, w := r / TILE, c / TILE;
      var k := h * cols + w;
      QuotientUnique(h, w, cols);
      MulMonotone(h + 1, rows, cols);
      assert HasTile(a, tiles, cols, k) && Placed(b, tiles, cols, k);
      ElementInSlice(a.data.Length0, r);
      ElementInSlice(a.data.Length1, c);
      SameElement(a, b, tiles[k].value, h, w, r % TILE, c % TILE);
    }
  }

  lemma SameElement<T>(a: Tensor<T>, b: Tensor<T>, tile: Tile<T>, h: nat, w: nat, i: nat, j: nat)
    requires a.data.Length0 == b.data.Length0 && a.data.Length1 == b.data.Length1
    requires a.Shows(tile, h, w) && b.ShowsStretched(tile, h, w)
    requires i < SliceLength(a.data.Length0, h) && j < SliceLength(a.data.Length1, w)
    ensures b.data[h * TILE + i, w * TILE + j] == a.data[h * TILE + i, w * TILE + j]
  {
    var height, width := SliceLength(a.data.Length0, h), SliceLength(a.data.Length1, w);
    assert tile[i][j] == a.data[h * TILE + i, w * TILE + j];
    assert |tile[0]| == width && |tile| == height;
    assert b.data[h * TILE + i, w * TILE + j] == StretchedAt(tile, i, j, height, width);
  }

  /** Both handlers, one after the other: the block written by the first is read by the second
      through another view of the same window.  The copy back succeeds whenever the first does, and
      the second tensor is then the first. */
  method RoundTrip<T>(a: Tensor<T>, into: RingState.Block<Tile<T>>, from: RingState.Block<Tile<T>>, b: Tensor<T>,
                      rows: nat, cols: nat)
    returns (r: Result<(), CopyError>)
    requires into.Valid() && from.Valid() && into.length == rows * cols && from.CanRead()
    requires from.buf == into.buf && from.capacity == into.capacity
    requires from.start == into.start && from.length == into.length
    requires a.data != b.data && a.data.Length0 == b.data.Length0 && a.data.Length1 == b.data.Length1
    modifies into.buf, b.data
    ensures r.Success? <==> FitsGrid(a, rows, cols) && (rows * cols > 0 ==> a.Accepted())
    ensures r.Success? && a.Accepted() ==>
              forall i: nat, j: nat | i < a.data.Length0 && j < a.data.Length1 :: b.data[i, j] == old(a.data[i, j])
  {
    r := TensorToBlock(a, rows, cols, into);
    if r.Failure? {
      return;
    }
    ghost var tiles := from.Contents();
    assert tiles == into.Contents();
    if rows * cols > 0 {
      forall k: nat | k < rows * cols
        ensures cols > 0 && Assignable(b, tiles, cols, k) && Rectangular(tiles[k].value)
      {
        assert HasTile(a, tiles, cols, k);
        OwnTilesAssignable(a, b, tiles, rows, cols, k);
      }
    }
    r := BlockToTensor(from, rows, cols, b);
    if a.Accepted() {
      assert tiles == from.Contents();
      forall k: nat | k < rows * cols
        ensures cols > 0 && HasTile(a, tiles, cols, k) && Placed(b, tiles, cols, k)
      {
        assert Placed(b, from.Contents(), cols, k);
      }
      CopyRoundTrip(a, b, tiles, rows, cols);
    }
  }
}
