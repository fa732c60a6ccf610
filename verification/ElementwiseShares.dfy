/** How examples/eltwise_add.py divides its tensor among a two-dimensional grid of cores, and what
    the cores have written together in the end. */
module ElementwiseShares {
  import opened DataflowQueue
  import opened Finite
  import opened MixedRadix
  import opened Network
  import opened Pipeline
  import opened PipelineCores
  import opened SideBySide
  import Sched = Scheduler

  type Positive = n: int | n > 0 witness 1

  /** The tensor in blocks, and the grid. */
  datatype Layout = Layout(rows: nat, cols: nat, gridCols: Positive, gridRows: Positive)

  datatype Place = Place(row: nat, col: nat)

  /** Python's `-(-n // d)`. */
  function CeilDiv(n: nat, d: Positive): (q: nat)
    ensures d * q >= n
  {
    var floor: int := (0 - n) / d;
    assert floor <= 0 by {
      MulMonotone(1, floor, d);
    }
    -floor
  }

  /** How many indices of the k-th part of size `per` are below the total. */
  function Extent(per: nat, k: nat, total: nat): (n: nat)
    ensures n <= per && (n > 0 ==> k * per + n <= total)
    ensures n < per ==> k * per + n >= total
  {
    if k * per >= total then 0 else if per < total - k * per then per else total - k * per
  }

  function ShareRows(l: Layout, coreRow: nat): nat {
    Extent(CeilDiv(l.rows, l.gridRows), coreRow, l.rows)
  }

  function ShareCols(l: Layout, coreCol: nat): nat {
    Extent(CeilDiv(l.cols, l.gridCols), coreCol, l.cols)
  }

  function PlaceAt(l: Layout, coreCol: nat, coreRow: nat, row: nat, col: nat): Place {
    Place(coreRow * CeilDiv(l.rows, l.gridRows) + row, coreCol * CeilDiv(l.cols, l.gridCols) + col)
  }

  /** The blocks a core visits, in order. */
  function Share(l: Layout, coreCol: nat, coreRow: nat): (share: seq<Place>)
    ensures |share| == ShareRows(l, coreRow) * ShareCols(l, coreCol)
  {
    var m := ShareCols(l, coreCol);
    seq(ShareRows(l, coreRow) * m,
        (j: nat) => if m == 0 then Place(0, 0) else PlaceAt(l, coreCol, coreRow, j / m, j % m))
  }

  lemma ShareAt(l: Layout, coreCol: nat, coreRow: nat, row: nat, col: nat) returns (j: nat)
    requires row < ShareRows(l, coreRow) && col < ShareCols(l, coreCol)
    ensures j == row * ShareCols(l, coreCol) + col && j < |Share(l, coreCol, coreRow)|
    ensures Share(l, coreCol, coreRow)[j] == PlaceAt(l, coreCol, coreRow, row, col)
  {
    var n, m := ShareRows(l, coreRow), ShareCols(l, coreCol);
    MulMonotone(0, row, m);
    MulMonotone(row + 1, n, m);
    assert (row + 1) * m == row * m + m;
    QuotientUnique(row, col, m);
    j := row * m + col;
    ShareElement(l, coreCol, coreRow, j);
  }

  lemma ShareElement(l: Layout, coreCol: nat, coreRow: nat, j: nat)
    requires j < |Share(l, coreCol, coreRow)| && ShareCols(l, coreCol) > 0
    ensures Share(l, coreCol, coreRow)[j]
            == PlaceAt(l, coreCol, coreRow, j / ShareCols(l, coreCol), j % ShareCols(l, coreCol))
  {
  }

  /** One row of the nested loops. */
  method VisitRow(l: Layout, coreCol: nat, coreRow: nat, localRow: nat, visited: seq<Place>) returns (all: seq<Place>)
    requires localRow < ShareRows(l, coreRow)
    requires var m := ShareCols(l, coreCol);
             localRow * m <= |Share(l, coreCol, coreRow)| && visited == Share(l, coreCol, coreRow)[..localRow * m]
    ensures var m := ShareCols(l, coreCol);
            && (localRow + 1) * m <= |Share(l, coreCol, coreRow)|
            && all == Share(l, coreCol, coreRow)[..(localRow + 1) * m]
  {
    var per := CeilDiv(l.cols, l.gridCols);
    ghost var share, m := Share(l, coreCol, coreRow), ShareCols(l, coreCol);
    ghost var from := localRow * m;
    MulMonotone(localRow + 1, ShareRows(l, coreRow), m);
    assert (localRow + 1) * m == from + m;
    all := visited;
    for localCol := 0 to per
      invariant all == share[..from + if localCol < m then localCol else m]
    {
      var col := coreCol * per + localCol;
      if col < l.cols {
        ghost var j := ShareAt(l, coreCol, coreRow, localRow, localCol);
        assert share[..j + 1] == share[..j] + [share[j]];
        all := all + [PlaceAt(l, coreCol, coreRow, localRow, localCol)];
      }
    }
  }

  /** The nested loops of each of the kernel's threads. */
  method Visit(l: Layout, coreCol: nat, coreRow: nat) returns (visited: seq<Place>)
    ensures visited == Share(l, coreCol, coreRow)
  {
    var per := CeilDiv(l.rows, l.gridRows);
    ghost var n, m, share := ShareRows(l, coreRow), ShareCols(l, coreCol), Share(l, coreCol, coreRow);
    visited := [];
    for localRow := 0 to per
      invariant var done := if localRow < n then localRow else n;
                0 <= done * m <= |share| && visited == share[..done * m]
    {
      var row := coreRow * per + localRow;
      if row < l.rows {
        visited := VisitRow(l, coreCol, coreRow, localRow, visited);
      }
    }
    assert share[..n * m] == share;
  }

  // ----- Every block has one core -----

  /** `core(dims=2)` on a two-dimensional grid. */
  function CoreCol(l: Layout, core: nat): nat {
    core / l.gridRows
  }

  function CoreRow(l: Layout, core: nat): nat {
    core % l.gridRows
  }

  lemma CoordinatesOf(l: Layout, core: nat)
    requires core < l.gridCols * l.gridRows
    ensures Digits([l.gridCols, l.gridRows], core) == [CoreCol(l, core), CoreRow(l, core)]
    ensures CoreCol(l, core) < l.gridCols && CoreRow(l, core) < l.gridRows
  {
    QuotientBelow(core, l.gridCols, l.gridRows);
    var shape := [l.gridCols, l.gridRows];
    assert shape[..1] == [l.gridCols] && [l.gridCols][..0] == [];
    QuotientUnique(0, core / l.gridRows, l.gridCols);
    assert Digits([l.gridCols], core / l.gridRows) == Digits([], core / l.gridRows / l.gridCols) + [core / l.gridRows];
  }

  function ShareOf(l: Layout, core: nat): seq<Place> {
    Share(l, CoreCol(l, core), CoreRow(l, core))
  }

  /** Block j of the core's share is at the place. */
  ghost predicate Owns(l: Layout, core: nat, j: nat, place: Place) {
    core < l.gridCols * l.gridRows && j < |ShareOf(l, core)| && ShareOf(l, core)[j] == place
  }

  lemma PartOf(n: nat, d: Positive, i: nat) returns (k: nat, local: nat)
    requires i < n
    ensures k < d && local < Extent(CeilDiv(n, d), k, n) && i == k * CeilDiv(n, d) + local
  {
    var per := CeilDiv(n, d);
    assert per > 0;
    k, local := i / per, i % per;
    MulMonotone(d, k, per);
    assert k * per + local == i;
  }

  lemma OnePart(per: nat, k: nat, local: nat, k': nat, local': nat)
    requires local < per && local' < per && k * per + local == k' * per + local'
    ensures k == k' && local == local'
  {
    QuotientUnique(k, local, per);
    QuotientUnique(k', local', per);
  }

  /** Every block of the tensor is in the share of a core ... */
  lemma HasOwner(l: Layout, place: Place) returns (core: nat, j: nat)
    requires place.row < l.rows && place.col < l.cols
    ensures Owns(l, core, j, place)
  {
    var coreRow, row := PartOf(l.rows, l.gridRows, place.row);
    var coreCol, col := PartOf(l.cols, l.gridCols, place.col);
    core := CoreAt(l, coreCol, coreRow);
    j := OwnsAt(l, core, row, col);
  }

  lemma OwnsAt(l: Layout, core: nat, row: nat, col: nat) returns (j: nat)
    requires core < l.gridCols * l.gridRows
    requires row < ShareRows(l, CoreRow(l, core)) && col < ShareCols(l, CoreCol(l, core))
    ensures Owns(l, core, j, PlaceAt(l, CoreCol(l, core), CoreRow(l, core), row, col))
  {
    j := ShareAt(l, CoreCol(l, core), CoreRow(l, core), row, col);
  }

  lemma CoreAt(l: Layout, coreCol: nat, coreRow: nat) returns (core: nat)
    requires coreCol < l.gridCols && coreRow < l.gridRows
    ensures core < l.gridCols * l.gridRows && CoreCol(l, core) == coreCol && CoreRow(l, core) == coreRow
  {
    core := coreCol * l.gridRows + coreRow;
    QuotientUnique(coreCol, coreRow, l.gridRows);
    MulMonotone(coreCol + 1, l.gridCols, l.gridRows);
    assert (coreCol + 1) * l.gridRows == coreCol * l.gridRows + l.gridRows;
  }

  /** Where block j of a share is. */
  lemma OwnedPlace(l: Layout, core: nat, j: nat, place: Place) returns (row: nat, col: nat)
    requires Owns(l, core, j, place)
    ensures row < ShareRows(l, CoreRow(l, core)) && col < ShareCols(l, CoreCol(l, core))
    ensures j == row * ShareCols(l, CoreCol(l, core)) + col
    ensures place == PlaceAt(l, CoreCol(l, core), CoreRow(l, core), row, col)
    ensures place.row < l.rows && place.col < l.cols
  {
    var n, m := ShareRows(l, CoreRow(l, core)), ShareCols(l, CoreCol(l, core));
    assert m > 0;
    QuotientBelow(j, n, m);
    row, col := j / m, j % m;
  }

  /** ... and in no other, nor twice in that. */
  lemma OneOwner(l: Layout, place: Place, core: nat, j: nat, core': nat, j': nat)
    requires Owns(l, core, j, place) && Owns(l, core', j', place)
    ensures core == core' && j == j'
  {
    var row, col := OwnedPlace(l, core, j, place);
    var row', col' := OwnedPlace(l, core', j', place);
    OnePart(CeilDiv(l.rows, l.gridRows), CoreRow(l, core), row, CoreRow(l, core'), row');
    OnePart(CeilDiv(l.cols, l.gridCols), CoreCol(l, core), col, CoreCol(l, core'), col');
    assert core == CoreCol(l, core) * l.gridRows + CoreRow(l, core);
    assert core' == CoreCol(l, core') * l.gridRows + CoreRow(l, core');
  }

  // ----- The whole program -----

  /** What the program is given: the operands by blocks, their sum, and the buffers. */
  datatype Operands<!T> = Operands(a: Place -> seq<T>, b: Place -> seq<T>, add: (seq<T>, seq<T>) -> seq<T>,
                                   zeros: seq<T>, factor: Positive)

  /** One core's work. */
  function ConfigOf<T>(l: Layout, x: Operands<T>, core: nat): Config<T> {
    var share := ShareOf(l, core);
    Config(|share|, x.factor,
           (j: nat) => if j < |share| then x.a(share[j]) else [],
           (j: nat) => if j < |share| then x.b(share[j]) else [],
           x.add, x.zeros)
  }

  function ConfigsOf<T>(l: Layout, x: Operands<T>): (cs: seq<Config<T>>)
    ensures |cs| == l.gridCols * l.gridRows
  {
    assert l.gridCols * l.gridRows >= 0 by { MulMonotone(0, l.gridCols, l.gridRows); }
    seq(l.gridCols * l.gridRows, (core: nat) => ConfigOf(l, x, core))
  }

  /** The tile block that core number `core` writes for block j of its share. */
  ghost predicate Writes<T>(s: State<Locals<T>, T>, core: nat, j: nat, block: seq<T>) {
    var writer := Number(core, WRITER);
    && writer in s.threads && s.threads[writer].Running?
    && j < |s.threads[writer].local.written| && s.threads[writer].local.written[j] == block
  }

  /** Every block has its owner, who has written the sum of the operands there; and everything that
      any core has written is such a block. */
  ghost predicate IsSum<T(!new)>(l: Layout, x: Operands<T>, s: State<Locals<T>, T>) {
    && (forall place: Place | place.row < l.rows && place.col < l.cols ::
          exists core: nat, j: nat :: Owns(l, core, j, place) && Writes(s, core, j, x.add(x.a(place), x.b(place))))
    && forall core: nat, j: nat, block: seq<T> | core < l.gridCols * l.gridRows && Writes(s, core, j, block) ::
         exists place: Place :: Owns(l, core, j, place) && block == x.add(x.a(place), x.b(place))
  }

  lemma CoreWrites<T(!new)>(l: Layout, x: Operands<T>, s: State<Locals<T>, T>, sides: seq<State<Locals<T>, T>>,
                            core: nat, j: nat, block: seq<T>)
    requires |sides| == |ConfigsOf(l, x)| && Combines(s, sides) && core < |sides|
    requires Finished(ConfigsOf(l, x)[core], sides[core])
    ensures Writes(s, core, j, block) <==>
              j < |ShareOf(l, core)| &&
              block == x.add(x.a(ShareOf(l, core)[j]), x.b(ShareOf(l, core)[j]))
  {
    var writer := Number(core, WRITER);
    Numbered(core, WRITER);
    assert SameThread(s, sides, writer);
    var c, written := ConfigsOf(l, x)[core], sides[core].threads[WRITER].local.written;
    assert c == ConfigOf(l, x, core);
    assert j < c.blocks ==> written[j] == c.add(c.a(j), c.b(j));
  }

  lemma FinishedIsSum<T(!new)>(l: Layout, x: Operands<T>, s: State<Locals<T>, T>)
    requires AllFinished(ConfigsOf(l, x), s)
    ensures IsSum(l, x, s)
  {
    var cs := ConfigsOf(l, x);
    var sides :| |sides| == |cs| && Combines(s, sides) && forall c: nat | c < |cs| :: Finished(cs[c], sides[c]);
    forall place: Place | place.row < l.rows && place.col < l.cols
      ensures exists core: nat, j: nat ::
                Owns(l, core, j, place) && Writes(s, core, j, x.add(x.a(place), x.b(place)))
    {
      var core, j := HasOwner(l, place);
      CoreWrites(l, x, s, sides, core, j, x.add(x.a(place), x.b(place)));
    }
    forall core: nat, j: nat, block: seq<T> | core < l.gridCols * l.gridRows && Writes(s, core, j, block)
      ensures exists place: Place :: Owns(l, core, j, place) && block == x.add(x.a(place), x.b(place))
    {
      CoreWrites(l, x, s, sides, core, j, block);
      assert Owns(l, core, j, ShareOf(l, core)[j]);
    }
  }

  /** The program on its grid, under either algorithm: it finishes, and the cores together have
      written the sum, each block once. */
  method RunEltwiseAdd<T(!new)>(l: Layout, x: Operands<T>, algorithm: Sched.Algorithm)
    returns (v: Sched.Verdict, end: State<Locals<T>, T>)
    ensures v == Sched.Finished && IsSum(l, x, end)
  {
    v, end := RunCores(ConfigsOf(l, x), algorithm);
    FinishedIsSum(l, x, end);
  }
}
