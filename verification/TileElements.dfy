/** Where each element of a tensor is in its block of 32 x 32 tiles, by numbers alone. */
module TileElements {
  import opened MixedRadix
  import opened TileCopy
  import opened Wrappers

  /** Sizes of one, and multiples of 32, are accepted, and count as the tiles that cover them. */
  lemma SizesInTiles(size: nat)
    ensures Indexable(size) <==> size == 1 || size % 32 == 0
    ensures Indexable(size) ==> InTiles(size) == (size + 31) / 32
  {
  }

  /** Slice k has the indices whose quotient by 32 is k. */
  lemma SliceHas(size: nat, k: nat, x: nat)
    ensures x < size && x / 32 == k <==> k * 32 <= x < k * 32 + SliceLength(size, k)
  {
  }

  /** Element (x, y) is entry (x % 32, y % 32) of tile (x / 32, y / 32), tiles in row-major order. */
  lemma ElementOfBlock<T>(t: Tensor<T>, tiles: seq<Option<Tile<T>>>, rows: nat, cols: nat, x: nat, y: nat)
    requires t.Accepted() && FitsGrid(t, rows, cols) && |tiles| == rows * cols
    requires forall k: nat | k < rows * cols :: cols > 0 && HasTile(t, tiles, cols, k)
    requires x < t.data.Length0 && y < t.data.Length1
    ensures var k := x / 32 * cols + y / 32;
            && 0 <= k < |tiles| && tiles[k].Some?
            && x % 32 < |tiles[k].value| && y % 32 < |tiles[k].value[x % 32]|
            && tiles[k].value[x % 32][y % 32] == t.data[x, y]
  {
    ElementInSlice(t.data.Length0, x);
    ElementInSlice(t.data.Length1, y);
    var h, w := x / 32, y / 32;
    MulMonotone(h + 1, rows, cols);
    MulMonotone(0, h, cols);
    assert (h + 1) * cols == h * cols + cols;
    QuotientUnique(h, w, cols);
    assert HasTile(t, tiles, cols, h * cols + w);
    assert h * 32 + x % 32 == x && w * 32 + y % 32 == y;
  }

  /** A tile is stored over a slice if and only if each of its sizes is the slice's or one; a size
      of one is repeated. */
  lemma StoredIff<T>(tile: Tile<T>, height: nat, width: nat)
    requires Rectangular(tile) && tile != [] && tile[0] != []
    ensures Stretches(tile, height, width) <==>
              || (|tile| == height && |tile[0]| == width) || (|tile| == 1 && |tile[0]| == width)
              || (|tile| == height && |tile[0]| == 1) || (|tile| == 1 && |tile[0]| == 1)
  {
  }

  lemma StoredEntry<T>(tile: Tile<T>, height: nat, width: nat, r: nat, c: nat)
    requires Stretches(tile, height, width) && r < height && c < width
    ensures var e := StretchedAt(tile, r, c, height, width);
            && (|tile| == height && |tile[0]| == width ==> e == tile[r][c])
            && (|tile| == 1 && |tile[0]| == width ==> e == tile[0][c])
            && (|tile| == height && |tile[0]| == 1 ==> e == tile[r][0])
            && (|tile| == 1 && |tile[0]| == 1 ==> e == tile[0][0])
  {
  }
}
