/** Dividing work among cores: `split_work_to_cores` on a whole grid (python/sim/ttnnsim.py) and
    each core's share as examples/multicore_matmul.py computes it. */
module WorkSplit {
  import opened MixedRadix

  datatype CoreCoord = CoreCoord(x: nat, y: nat)

  datatype Split = Split(used: nat, group1: seq<CoreCoord>, group2: seq<CoreCoord>, units1: nat, units2: nat)

  function CoreAt(k: nat, sizeX: nat, sizeY: nat, rowWise: bool): CoreCoord
    requires sizeX > 0 && sizeY > 0
  {
    if rowWise then CoreCoord(k % sizeX, k / sizeX) else CoreCoord(k / sizeY, k % sizeY)
  }

  ghost predicate ListsCores(cores: seq<CoreCoord>, sizeX: nat, sizeY: nat, rowWise: bool, n: int) {
    |cores| == n && (n > 0 ==> sizeX > 0 && sizeY > 0) &&
    forall k: nat | k < |cores| :: cores[k] == CoreAt(k, sizeX, sizeY, rowWise)
  }

  function Min(a: int, b: int): int {
    if a < b then a else b
  }

  /** Row-wise means along a row first: from each core the next is its right neighbour, or the first
      of the next row; column-wise the same with the axes exchanged. */
  lemma NextCore(k: nat, sizeX: nat, sizeY: nat, rowWise: bool)
    requires k + 1 < sizeX * sizeY && sizeX > 0 && sizeY > 0
    ensures CoreAt(0, sizeX, sizeY, rowWise) == CoreCoord(0, 0)
    ensures var here, next := CoreAt(k, sizeX, sizeY, rowWise), CoreAt(k + 1, sizeX, sizeY, rowWise);
            if rowWise then
              next == if here.x + 1 < sizeX then CoreCoord(here.x + 1, here.y) else CoreCoord(0, here.y + 1)
            else
              next == if here.y + 1 < sizeY then CoreCoord(here.x, here.y + 1) else CoreCoord(here.x + 1, 0)
  {
    NextQuotient(k, if rowWise then sizeX else sizeY);
    QuotientUnique(0, 0, if rowWise then sizeX else sizeY);
  }

  lemma NextQuotient(k: nat, size: nat)
    requires size > 0
    ensures k / size >= 0 && 0 <= k % size < size
    ensures if k % size + 1 < size then (k + 1) / size == k / size && (k + 1) % size == k % size + 1
            else (k + 1) / size == k / size + 1 && (k + 1) % size == 0
  {
    var q, r := k / size, k % size;
    MulMonotone(q, -1, size);
    assert k == q * size + r;
    if r + 1 < size {
      QuotientUnique(q, r + 1, size);
    } else {
      assert (q + 1) * size == q * size + size;
      QuotientUnique(q + 1, 0, size);
    }
  }

  /** All of them are in the grid. */
  lemma CoreIsInGrid(k: nat, sizeX: nat, sizeY: nat, rowWise: bool)
    requires k < sizeX * sizeY && sizeX > 0 && sizeY > 0
    ensures CoreAt(k, sizeX, sizeY, rowWise).x < sizeX && CoreAt(k, sizeX, sizeY, rowWise).y < sizeY
  {
    assert sizeY * sizeX == sizeX * sizeY;
    if rowWise {
      QuotientBelow(k, sizeY, sizeX);
    } else {
      QuotientBelow(k, sizeX, sizeY);
    }
  }

  /** The nested append loops, stopping to append at `limit` cores. */
  method CoreList(sizeX: nat, sizeY: nat, rowWise: bool, limit: nat) returns (cores: seq<CoreCoord>)
    ensures ListsCores(cores, sizeX, sizeY, rowWise, Min(limit, sizeX * sizeY))
  {
    cores := [];
    var outer, inner := if rowWise then sizeY else sizeX, if rowWise then sizeX else sizeY;
    assert outer * inner == sizeX * sizeY;
    for i := 0 to outer
      invariant ListsCores(cores, sizeX, sizeY, rowWise, Min(limit, i * inner))
    {
      for j := 0 to inner
        invariant ListsCores(cores, sizeX, sizeY, rowWise, Min(limit, i * inner + j))
      {
        if |cores| < limit {
          QuotientUnique(i, j, inner);
          cores := cores + [if rowWise then CoreCoord(j, i) else CoreCoord(i, j)];
        }
      }
      assert i * inner + inner == (i + 1) * inner;
    }
  }

  /** As even a division of the units as there is, over the first `used` of `count` cores. */
  ghost predicate SplitsEvenly(s: Split, count: nat, units: nat) {
    && s.used == Min(count, units) == |s.group1| + |s.group2|
    && (|s.group1| * s.units1 + |s.group2| * s.units2 == units || s.used == 0)
    && (s.group2 != [] ==> s.units1 == s.units2 + 1 && s.units2 > 0)
    && (s.used > 0 ==> s.group1 != [] && s.units1 > 0)
  }

  lemma EvenSplit(used: nat, cores: seq<CoreCoord>, count: nat, units: nat)
    requires 0 < used == |cores| == Min(count, units)
    ensures var base, rest := units / used, units % used;
            && rest < used
            && (rest == 0 ==> SplitsEvenly(Split(used, cores, [], base, 0), count, units))
            && (rest > 0 ==> SplitsEvenly(Split(used, cores[..rest], cores[rest..], base + 1, base), count, units))
  {
    var base, rest := units / used, units % used;
    QuotientAtLeastOne(units, used);
    assert rest * (base + 1) + (used - rest) * base == used * base + rest;
  }

  /** `split_work_to_cores` on a grid, over its first cores in order. */
  method SplitWorkToCores(sizeX: nat, sizeY: nat, units: nat, rowWise: bool) returns (s: Split)
    ensures SplitsEvenly(s, sizeX * sizeY, units)
    ensures ListsCores(s.group1 + s.group2, sizeX, sizeY, rowWise, s.used)
  {
    var used := Min(sizeX * sizeY, units);
    if used == 0 {
      return Split(0, [], [], 0, 0);
    }
    var base, remainder := units / used, units % used;
    if remainder == 0 {
      var cores := CoreList(sizeX, sizeY, rowWise, used);
      EvenSplit(used, cores, sizeX * sizeY, units);
      assert cores + [] == cores;
      s := Split(used, cores, [], base, 0);
    } else {
      var cores := CoreList(sizeX, sizeY, rowWise, sizeX * sizeY);
      EvenSplit(used, cores[..used], sizeX * sizeY, units);
      var group1, group2 := cores[..remainder], cores[remainder..used];
      assert group1 == cores[..used][..remainder] && group2 == cores[..used][remainder..];
      assert group1 + group2 == cores[..used];
      s := Split(used, group1, group2, base + 1, base);
    }
  }

  // ----- Sets of core ranges -----

  function FromCorner(start: CoreCoord, k: nat, width: nat): CoreCoord
    requires width > 0
  {
    CoreCoord(start.x + k % width, start.y + k / width)
  }

  /** A rectangle of cores, both corners included. */
  datatype CoreRange = CoreRange(start: CoreCoord, end: CoreCoord) {
    function Width(): int { end.x - start.x + 1 }
    function Height(): int { end.y - start.y + 1 }
    function NumCores(): int { Width() * Height() }

    /** Its cores, a row after the other. */
    function Cores(): seq<CoreCoord> {
      if Width() <= 0 || Height() <= 0 then [] else
        assert NumCores() > 0 by { MulMonotone(1, Height(), Width()); }
        seq(NumCores(), (k: nat) => FromCorner(start, k, Width()))
    }
  }

  /** `num_cores` counts the cores of a range unless one side is turned inside out and the other
      is not empty. */
  lemma CountsItsCores(r: CoreRange)
    ensures |r.Cores()| == r.NumCores() <==>
              (r.Width() >= 0 && r.Height() >= 0) || r.Width() == 0 || r.Height() == 0
  {
    if r.Width() < 0 && r.Height() < 0 {
      assert r.NumCores() == (-r.Width()) * (-r.Height());
      MulMonotone(1, -r.Width(), -r.Height());
    } else if r.Width() < 0 && r.Height() > 0 {
      MulMonotone(r.Width(), -1, r.Height());
    } else if r.Width() > 0 && r.Height() < 0 {
      MulMonotone(r.Height(), -1, r.Width());
    }
  }

  function AllCores(ranges: seq<CoreRange>): seq<CoreCoord> {
    if ranges == [] then [] else AllCores(ranges[..|ranges| - 1]) + ranges[|ranges| - 1].Cores()
  }

  ghost predicate AllCounted(ranges: seq<CoreRange>) {
    forall i :: 0 <= i < |ranges| ==> |ranges[i].Cores()| == ranges[i].NumCores()
  }

  /** `num_cores` of a set. */
  method NumCores(ranges: seq<CoreRange>) returns (n: int)
    requires AllCounted(ranges)
    ensures n == |AllCores(ranges)|
  {
    n := 0;
    for i := 0 to |ranges|
      invariant n == |AllCores(ranges[..i])|
    {
      assert ranges[..i + 1][..i] == ranges[..i];
      n := n + ranges[i].NumCores();
    }
    assert ranges[..|ranges|] == ranges;
  }

  function Take(cores: seq<CoreCoord>, limit: nat): seq<CoreCoord> {
    if |cores| <= limit then cores else cores[..limit]
  }

  function Row(r: CoreRange, y: nat): seq<CoreCoord>
    requires r.Width() > 0
  {
    seq(r.Width(), (x: nat) => CoreCoord(r.start.x + x, r.start.y + y))
  }

  function FirstRows(r: CoreRange, n: nat): seq<CoreCoord>
    requires r.Width() > 0
  {
    if n == 0 then [] else FirstRows(r, n - 1) + Row(r, n - 1)
  }

  lemma RowIsSlice(r: CoreRange, y: nat, from: nat)
    requires r.Width() > 0 && y < r.Height() && from == y * r.Width()
    ensures from + r.Width() <= |r.Cores()| && r.Cores()[from..from + r.Width()] == Row(r, y)
  {
    var width, cores, row := r.Width(), r.Cores(), Row(r, y);
    MulMonotone(y + 1, r.Height(), width);
    forall x: nat | x < width
      ensures cores[from..from + width][x] == row[x]
    {
      QuotientUnique(y, x, width);
    }
  }

  lemma {:induction false} RowsAreCores(r: CoreRange, n: nat, size: nat)
    requires r.Width() > 0 && r.Height() > 0 && n <= r.Height() && size == n * r.Width()
    ensures |FirstRows(r, n)| == size <= |r.Cores()| && FirstRows(r, n) == r.Cores()[..size]
  {
    if n > 0 {
      assert size == (n - 1) * r.Width() + r.Width();
      MulMonotone(0, n - 1, r.Width());
      RowsAreCores(r, n - 1, size - r.Width());
      RowIsSlice(r, n - 1, size - r.Width());
    }
  }

  /** One row, appended up to the limit. */
  method AppendRow(cores: seq<CoreCoord>, r: CoreRange, y: nat, limit: nat, ghost all: seq<CoreCoord>)
    returns (more: seq<CoreCoord>)
    requires r.Width() > 0 && cores == Take(all, limit)
    ensures more == Take(all + Row(r, y), limit)
  {
    more := cores;
    var x := 0;
    ghost var row := Row(r, y);
    assert all + row[..0] == all;
    while x < r.Width()
      invariant 0 <= x <= |row| && more == Take(all + row[..x], limit)
    {
      assert all + row[..x + 1] == (all + row[..x]) + [row[x]];
      if |more| < limit {
        more := more + [CoreCoord(r.start.x + x, r.start.y + y)];
      }
      x := x + 1;
    }
    assert row[..|row|] == row;
  }

  /** The rows of one range. */
  method AppendRange(cores: seq<CoreCoord>, r: CoreRange, limit: nat, ghost all: seq<CoreCoord>)
    returns (more: seq<CoreCoord>)
    requires cores == Take(all, limit)
    ensures more == Take(all + r.Cores(), limit)
  {
    more := cores;
    if r.Width() <= 0 || r.Height() <= 0 {
      assert all + r.Cores() == all;
      return;
    }
    var y := 0;
    assert all + [] == all;
    while y < r.Height()
      invariant 0 <= y <= r.Height() && more == Take(all + FirstRows(r, y), limit)
    {
      more := AppendRow(more, r, y, limit, all + FirstRows(r, y));
      assert all + FirstRows(r, y) + Row(r, y) == all + FirstRows(r, y + 1);
      y := y + 1;
    }
    RowsAreCores(r, y, y * r.Width());
    assert r.Cores()[..|r.Cores()|] == r.Cores();
  }

  method RangeSetCores(ranges: seq<CoreRange>, limit: nat) returns (cores: seq<CoreCoord>)
    ensures cores == Take(AllCores(ranges), limit)
  {
    cores := [];
    for i := 0 to |ranges|
      invariant cores == Take(AllCores(ranges[..i]), limit)
    {
      assert ranges[..i + 1][..i] == ranges[..i];
      cores := AppendRange(cores, ranges[i], limit, AllCores(ranges[..i]));
    }
    assert ranges[..|ranges|] == ranges;
  }

  /** `split_work_to_cores` on a set of ranges: the cores in the order of the ranges, each a row
      after the other. */
  method SplitWorkToRanges(ranges: seq<CoreRange>, units: nat) returns (s: Split)
    requires AllCounted(ranges)
    ensures SplitsEvenly(s, |AllCores(ranges)|, units)
    ensures s.group1 + s.group2 == AllCores(ranges)[..s.used]
  {
    var count := NumCores(ranges);
    var used := Min(count, units);
    if used == 0 {
      return Split(0, [], [], 0, 0);
    }
    var base, remainder := units / used, units % used;
    EvenSplit(used, AllCores(ranges)[..used], count, units);
    if remainder == 0 {
      var cores := RangeSetCores(ranges, used);
      assert cores == AllCores(ranges)[..used] && cores + [] == cores;
      s := Split(used, cores, [], base, 0);
    } else {
      var cores := RangeSetCores(ranges, count);
      var group1, group2 := cores[..remainder], cores[remainder..used];
      assert group1 == cores[..used][..remainder] && group2 == cores[..used][remainder..];
      assert group1 + group2 == cores[..used];
      s := Split(used, group1, group2, base + 1, base);
    }
  }

  lemma QuotientAtLeastOne(n: nat, d: nat)
    requires 0 < d <= n
    ensures n / d >= 1 && d * (n / d) + n % d == n
  {
    MulMonotone(n / d, 0, d);
  }

  /** `get_tiles_per_core`. */
  function TilesPerCore(s: Split, core: nat): nat {
    if core < |s.group1| then s.units1
    else if core < |s.group1| + |s.group2| then s.units2
    else 0
  }

  /** `get_start_tile_id`. */
  function StartTileId(s: Split, core: nat): nat {
    if core < |s.group1| then core * s.units1
    else if core < |s.group1| + |s.group2| then |s.group1| * s.units1 + (core - |s.group1|) * s.units2
    else 0
  }

  /** The shares in closed form: the first cores, as many as are left over, have one unit more than
      the others, and each starts where so many units have been given out. */
  lemma ShareOfCore(s: Split, count: nat, units: nat, core: nat)
    requires SplitsEvenly(s, count, units) && core < s.used
    ensures var base, rest := units / s.used, units % s.used;
            && TilesPerCore(s, core) == base + (if core < rest then 1 else 0)
            && StartTileId(s, core) == core * base + Min(core, rest)
  {
    EvenQuotient(s, count, units);
    if s.group2 != [] {
      MixedSum(Min(core, |s.group1|), core, s.units2);
    }
  }

  /** The second group's share is the quotient and the first group's size the remainder. */
  lemma EvenQuotient(s: Split, count: nat, units: nat)
    requires SplitsEvenly(s, count, units) && s.used > 0
    ensures if s.group2 == [] then units / s.used == s.units1 && units % s.used == 0
            else units / s.used == s.units2 && units % s.used == |s.group1|
  {
    if s.group2 == [] {
      WholeQuotient(s.used, s.units1, units);
    } else {
      MixedQuotient(|s.group1|, s.used, s.units2, units);
    }
  }

  lemma WholeQuotient(n: nat, u: nat, units: nat)
    requires n > 0 && n * u == units
    ensures units / n == u && units % n == 0
  {
    QuotientUnique(u, 0, n);
    assert u * n == n * u;
  }

  lemma MixedQuotient(n1: nat, n: nat, u: nat, units: nat)
    requires n1 < n && n1 * (u + 1) + (n - n1) * u == units
    ensures units / n == u && units % n == n1
  {
    MixedSum(n1, n, u);
    QuotientUnique(u, n1, n);
    assert u * n == n * u;
  }

  lemma MixedSum(n1: int, n: int, u: int)
    ensures n1 * (u + 1) + (n - n1) * u == n * u + n1
  {
    assert n1 * (u + 1) == n1 * u + n1;
    assert (n - n1) * u == n * u - n1 * u;
  }

  predicate Owns(s: Split, core: nat, unit: int) {
    StartTileId(s, core) <= unit < StartTileId(s, core) + TilesPerCore(s, core)
  }

  ghost predicate HasOwner(s: Split, unit: int) {
    exists core: nat :: core < s.used && Owns(s, core, unit)
  }

  /** The cores' intervals follow one another from 0 to the number of units. */
  lemma IntervalsAreConsecutive(s: Split, units: nat, core: nat)
    requires s.used == |s.group1| + |s.group2| && core < s.used
    requires |s.group1| * s.units1 + |s.group2| * s.units2 == units
    ensures core == 0 ==> StartTileId(s, 0) == 0
    ensures StartTileId(s, core) + TilesPerCore(s, core)
            == if core + 1 < s.used then StartTileId(s, core + 1) else units
  {
    var n1 := |s.group1|;
    assert (core + 1) * s.units1 == core * s.units1 + s.units1;
    assert (core + 1 - n1) * s.units2 == (core - n1) * s.units2 + s.units2;
  }

  /** So every unit is owned by exactly one core. */
  lemma {:induction false} UnitsArePartitioned(s: Split, units: nat, unit: nat, upTo: nat)
    requires s.used == |s.group1| + |s.group2| && upTo < s.used
    requires |s.group1| * s.units1 + |s.group2| * s.units2 == units
    requires unit < StartTileId(s, upTo) + TilesPerCore(s, upTo)
    ensures HasOwner(s, unit)
    decreases upTo
  {
    IntervalsAreConsecutive(s, units, 0);
    if unit >= StartTileId(s, upTo) {
      assert Owns(s, upTo, unit);
    } else if upTo > 0 {
      IntervalsAreConsecutive(s, units, upTo - 1);
      UnitsArePartitioned(s, units, unit, upTo - 1);
    }
  }

  lemma {:induction false} StartsIncrease(s: Split, units: nat, a: nat, b: nat)
    requires s.used == |s.group1| + |s.group2| && a < b < s.used
    requires |s.group1| * s.units1 + |s.group2| * s.units2 == units
    ensures StartTileId(s, a) + TilesPerCore(s, a) <= StartTileId(s, b)
    decreases b
  {
    IntervalsAreConsecutive(s, units, b - 1);
    if a < b - 1 {
      StartsIncrease(s, units, a, b - 1);
    }
  }

  /** The shares partition the units; cores past the used ones own nothing. */
  lemma SharesPartitionUnits(s: Split, units: nat)
    requires s.used == |s.group1| + |s.group2| > 0
    requires |s.group1| * s.units1 + |s.group2| * s.units2 == units
    ensures forall unit: nat | unit < units :: HasOwner(s, unit)
    ensures forall core: nat, unit: nat :: Owns(s, core, unit) ==> core < s.used && unit < units
    ensures forall a: nat, b: nat, unit: nat :: Owns(s, a, unit) && Owns(s, b, unit) ==> a == b
  {
    var last: nat := s.used - 1;
    IntervalsAreConsecutive(s, units, last);
    forall unit: nat | unit < units
      ensures HasOwner(s, unit)
    {
      UnitsArePartitioned(s, units, unit, last);
    }
    forall a: nat, b: nat | a < b < s.used
      ensures StartTileId(s, a) + TilesPerCore(s, a) <= StartTileId(s, b)
    {
      StartsIncrease(s, units, a, b);
    }
  }
}
