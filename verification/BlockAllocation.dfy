/** `get_large_matmul_params` and `get_maximum_block_dim` (python/utils/block_allocation.py).  The
    prime factor lists are inputs. */
module BlockAllocation {
  import opened Divisors
  import opened MixedRadix
  import opened Subblocks

  const BUDGET := 400

  /** What the heuristic counts: twice the A and B blocks, and the C block. */
  predicate FitsBudget(h: int, b: int, w: nat) {
    2 * w * h + 2 * w * b + h * b <= BUDGET
  }

  /** `get_maximum_block_dim`; for a positive divisor Dafny's division is Python's. */
  function MaximumBlockDim(dim: int, w: nat): (other: int)
    requires dim > 0
    ensures other >= 0
  {
    var other := (BUDGET - 2 * w * dim) / (2 * w + dim);
    if other > 0 then other else 0
  }

  /** The maximum is exact. */
  lemma MaximumBlockDimIsExact(dim: int, w: nat, other: int)
    requires dim > 0 && other > 0
    ensures other <= MaximumBlockDim(dim, w) <==> 2 * w * dim + 2 * w * other + dim * other <= 400
    ensures other <= MaximumBlockDim(dim, w) <==> FitsBudget(dim, other, w)
    ensures FitsBudget(dim, other, w) <==> FitsBudget(other, dim, w)
  {
    var s := 2 * w + dim;
    var q := (BUDGET - 2 * w * dim) / s;
    MulMonotone(other, q, s);
    MulMonotone(q + 1, other, s);
    assert other * s == 2 * w * other + dim * other by {
      assert other * (2 * w) == 2 * w * other;
    }
    assert 2 * w * dim + 2 * w * other + dim * other == 2 * w * other + 2 * w * dim + other * dim;
  }

  datatype MatmulParams = MatmulParams(blockH: int, blockW: int, subblockH: int, subblockW: int)

  const NO_PARAMS := MatmulParams(0, 0, 0, 0)

  /** The subblock is the first choice that divides the block. */
  ghost predicate HasFirstSubblock(p: MatmulParams) {
    exists k: nat :: k < |SUBBLOCK_HW_CHOICES| && SUBBLOCK_HW_CHOICES[k] == (p.subblockH, p.subblockW) &&
                     SubblockFits(p.blockH, p.blockW, SUBBLOCK_HW_CHOICES[k]) &&
                     forall j: nat | j < k :: !SubblockFits(p.blockH, p.blockW, SUBBLOCK_HW_CHOICES[j])
  }

  /** Of the subblocks of at most eight tiles that divide the block it has the largest area, of those
      the one with the shortest longer side, of those the higher one. */
  ghost predicate HasBestSubblock(p: MatmulParams) {
    IsBestSubblock(p.blockH, p.blockW, p.subblockH, p.subblockW)
  }

  /** The search for a subblock, which never fails: the last choice divides everything. */
  method WithSubblock(h: int, w: int) returns (p: MatmulParams)
    requires h > 0 && w > 0
    ensures p.blockH == h && p.blockW == w && HasFirstSubblock(p) && HasBestSubblock(p)
  {
    var k := 0;
    while !(h % SUBBLOCK_HW_CHOICES[k].0 == 0 && w % SUBBLOCK_HW_CHOICES[k].1 == 0)
      invariant k < |SUBBLOCK_HW_CHOICES|
      invariant forall j: nat | j < k :: !SubblockFits(h, w, SUBBLOCK_HW_CHOICES[j])
      decreases |SUBBLOCK_HW_CHOICES| - k
    {
      assert k != 19;
      k := k + 1;
    }
    FirstIsBest(h, w, k);
    p := MatmulParams(h, w, SUBBLOCK_HW_CHOICES[k].0, SUBBLOCK_HW_CHOICES[k].1);
  }

  // ----- Large factors -----

  function Keep(factors: seq<int>, limit: nat, above: bool): seq<int> {
    if factors == [] then []
    else
      var k := |factors| - 1;
      Keep(factors[..k], limit, above) + if (factors[k] > limit) == above then [factors[k]] else []
  }

  lemma ProductAppend(s: seq<int>, x: int)
    ensures Product(s + [x]) == Product(s) * x && s + [] == s
  {
    assert (s + [x])[..|s|] == s;
  }

  lemma MulRearranges(a: int, b: int, f: int)
    ensures a * f * b == a * b * f && a * (b * f) == a * b * f
  {
  }

  lemma {:induction false} KeepPrime(factors: seq<int>, limit: nat, above: bool)
    requires AllPrime(factors)
    ensures AllPrime(Keep(factors, limit, above))
    decreases |factors|
  {
    if factors != [] {
      KeepPrime(factors[..|factors| - 1], limit, above);
    }
  }

  /** The two lists multiply to what all factors do. */
  ghost predicate Splits(a: seq<int>, b: seq<int>, factors: seq<int>) {
    Product(a) * Product(b) == Product(factors)
  }

  lemma {:induction false} KeepSplits(factors: seq<int>, limit: nat)
    ensures Splits(Keep(factors, limit, true), Keep(factors, limit, false), factors)
    decreases |factors|
  {
    if factors != [] {
      var k := |factors| - 1;
      KeepSplits(factors[..k], limit);
      SplitsStep(Keep(factors[..k], limit, true), Keep(factors[..k], limit, false), factors[..k], factors[k]);
      assert factors[..k] + [factors[k]] == factors;
    }
  }

  lemma SplitsStep(a: seq<int>, b: seq<int>, factors: seq<int>, f: int)
    requires Splits(a, b, factors)
    ensures Splits(a + [f], b + [], factors + [f]) && Splits(a + [], b + [f], factors + [f])
  {
    ProductAppend(a, f);
    ProductAppend(b, f);
    ProductAppend(factors, f);
    MulRearranges(Product(a), Product(b), f);
  }

  /** A prime divides a product of primes if and only if it is one of them. */
  lemma {:induction false} PrimeInProduct(factors: seq<int>, p: int)
    requires AllPrime(factors) && IsPrime(p)
    ensures Divides(p, Product(factors)) <==> p in factors
    decreases |factors|
  {
    if factors != [] {
      var k := |factors| - 1;
      var rest, f := Product(factors[..k]), factors[k];
      PrimeInProduct(factors[..k], p);
      assert factors == factors[..k] + [f];
      ProductPositive(factors[..k]);
      if p == f {
        DividesProduct(p, rest);
      } else {
        assert !Divides(p, f);
        if Divides(p, rest * f) && !Divides(p, rest) {
          Euclid(p, rest, f);
        } else if Divides(p, rest) {
          QuotientOf(p, rest);
          DividesProduct(p, rest / p * f);
          assert p * (rest / p * f) == rest * f;
        }
      }
    } else {
      assert Product(factors) == 1;
    }
  }

  lemma {:induction false} KeepMembers(factors: seq<int>, limit: nat, above: bool, f: int)
    ensures f in Keep(factors, limit, above) <==> f in factors && (f > limit) == above
    decreases |factors|
  {
    if factors != [] {
      var k := |factors| - 1;
      KeepMembers(factors[..k], limit, above, f);
      assert factors == factors[..k] + [factors[k]];
    }
  }

  /** The part of a tile count that a core must take, and the rest: the two multiply to the count,
      and a prime of it divides the first if and only if it exceeds the grid's size, else the
      second. */
  lemma LargePart(factors: seq<int>, limit: nat, p: int)
    requires AllPrime(factors) && IsPrime(p)
    ensures var large, rest := Product(Keep(factors, limit, true)), Product(Keep(factors, limit, false));
            && large * rest == Product(factors)
            && (Divides(p, large) <==> Divides(p, Product(factors)) && p > limit)
            && (Divides(p, rest) <==> Divides(p, Product(factors)) && p <= limit)
  {
    KeepSplits(factors, limit);
    PrimeInProduct(factors, p);
    forall above: bool
      ensures Divides(p, Product(Keep(factors, limit, above))) <==> p in factors && (p > limit) == above
    {
      KeepPrime(factors, limit, above);
      KeepMembers(factors, limit, above, p);
      PrimeInProduct(Keep(factors, limit, above), p);
    }
  }

  // ----- Choosing the free dimension -----

  /** The last choice not above the limit, or `current` when there is none. */
  function LastAtMost(choices: seq<int>, unit: int, limit: int, current: int): int {
    if choices == [] then current
    else
      var k := |choices| - 1;
      if choices[k] * unit <= limit then choices[k] * unit else LastAtMost(choices[..k], unit, limit, current)
  }

  /** r is the largest multiple of `unit` by a divisor of n within the limit. */
  ghost predicate IsLargest(r: int, n: int, unit: int, limit: int) {
    && r > 0 && Divides(unit, r) && Divides(r / unit, n) && r <= limit
    && forall e :: Divides(e, n) && e * unit <= limit ==> e * unit <= r
  }

  /** r is unit times a choice within the limit, and no such product is larger. */
  ghost predicate IsLastAtMost(r: int, choices: seq<int>, unit: int, limit: int) {
    && (exists e :: e in choices && e * unit == r) && r <= limit
    && forall e :: e in choices && e * unit <= limit ==> e * unit <= r
  }

  lemma {:induction false} LastAtMostIs(choices: seq<int>, unit: int, limit: int, current: int)
    requires Increasing(choices) && unit > 0
    ensures var r := LastAtMost(choices, unit, limit, current);
            if exists e :: e in choices && e * unit <= limit then IsLastAtMost(r, choices, unit, limit)
            else r == current
    decreases |choices|
  {
    if choices != [] {
      var k := |choices| - 1;
      var last := choices[k];
      assert forall e :: e in choices <==> e in choices[..k] || e == last by {
        assert choices == choices[..k] + [last];
      }
      if last * unit <= limit {
        forall e | e in choices
          ensures e * unit <= last * unit
        {
          MulMonotone(e, last, unit);
        }
        assert last in choices && last * unit == LastAtMost(choices, unit, limit, current);
      } else {
        LastAtMostIs(choices[..k], unit, limit, current);
      }
    }
  }

  /** For the divisors of n, the choice is the largest, and there is one when `unit` fits. */
  lemma LastAtMostIsLargest(choices: seq<int>, n: int, unit: int, limit: int, current: int)
    requires ListsDivisors(choices, n) && unit > 0
    ensures unit <= limit ==> IsLargest(LastAtMost(choices, unit, limit, current), n, unit, limit)
    ensures unit > limit ==> LastAtMost(choices, unit, limit, current) == current
  {
    LastAtMostIs(choices, unit, limit, current);
    assert Divides(1, n) && 1 in choices && 1 * unit == unit;
    forall e | e in choices
      ensures e > 0 && e * unit >= unit && (e * unit) % unit == 0 && e * unit / unit == e
    {
      assert Divides(e, n);
      MulMonotone(1, e, unit);
      QuotientUnique(e, 0, unit);
    }
  }

  // ----- The three cases -----

  /** Tile counts as prime lists, the core grid, and the inner block width. */
  datatype Problem = Problem(mFactors: seq<int>, nFactors: seq<int>, coresY: nat, coresX: nat, w: nat) {
    function Mt(): int { Product(mFactors) }
    function Nt(): int { Product(nFactors) }
    /** What a core must take at least: the product of the factors above the grid's size. */
    function MMin(): int { Product(Keep(mFactors, coresY, true)) }
    function NMin(): int { Product(Keep(nFactors, coresX, true)) }
    function MRest(): int { Product(Keep(mFactors, coresY, false)) }
    function NRest(): int { Product(Keep(nFactors, coresX, false)) }

    predicate Valid() {
      AllPrime(mFactors) && AllPrime(nFactors)
    }

    predicate FitsGrid(h: int, b: int)
      requires h > 0 && b > 0
    {
      Mt() / h <= coresY && Nt() / b <= coresX
    }
  }

  lemma ProblemSizes(q: Problem)
    requires q.Valid()
    ensures q.MMin() > 0 && q.NMin() > 0 && q.MRest() > 0 && q.NRest() > 0
    ensures q.MMin() * q.MRest() == q.Mt() && q.NMin() * q.NRest() == q.Nt()
    ensures q.Mt() > 0 && q.Nt() > 0
  {
    KeepSplits(q.mFactors, q.coresY);
    KeepSplits(q.nFactors, q.coresX);
    forall above: bool
      ensures AllPrime(Keep(q.mFactors, q.coresY, above)) && AllPrime(Keep(q.nFactors, q.coresX, above))
    {
      KeepPrime(q.mFactors, q.coresY, above);
      KeepPrime(q.nFactors, q.coresX, above);
    }
    ProductPositive(Keep(q.mFactors, q.coresY, true));
    ProductPositive(Keep(q.mFactors, q.coresY, false));
    ProductPositive(Keep(q.nFactors, q.coresX, true));
    ProductPositive(Keep(q.nFactors, q.coresX, false));
    ProductPositive(q.mFactors);
    ProductPositive(q.nFactors);
  }

  /** Blocks that divide the tile counts fit the grid if and only if the cores together hold all
      tiles. */
  lemma FitsGridIff(q: Problem, h: int, b: int)
    requires q.Valid() && Divides(h, q.Mt()) && Divides(b, q.Nt())
    ensures q.FitsGrid(h, b) <==> q.Mt() <= h * q.coresY && q.Nt() <= b * q.coresX
  {
    QuotientFits(q.Mt(), h, q.coresY);
    QuotientFits(q.Nt(), b, q.coresX);
  }

  lemma QuotientFits(n: int, d: int, count: nat)
    requires Divides(d, n)
    ensures n / d <= count <==> n <= d * count
  {
    QuotientOf(d, n);
    if n / d <= count {
      MulMonotone(n / d, count, d);
    } else {
      MulMonotone(count + 1, n / d, d);
    }
  }

  /** unit times a divisor of n. */
  ghost predicate IsCandidate(r: int, unit: int, n: int) {
    r > 0 && Divides(unit, r) && Divides(r / unit, n)
  }

  lemma CandidateDivides(r: int, unit: int, rest: int, n: int)
    requires unit > 0 && IsCandidate(r, unit, rest) && unit * rest == n
    ensures Divides(r, n) && r >= unit
  {
    QuotientOf(unit, r);
    var e := r / unit;
    QuotientOf(e, rest);
    assert n == r * (rest / e) by {
      assert unit * (e * (rest / e)) == unit * e * (rest / e);
    }
    DividesProduct(r, rest / e);
    MulMonotone(1, e, unit);
  }

  lemma QuotientShrinks(n: int, a: int, b: int)
    requires 0 < a <= b && 0 <= n
    ensures n / b <= n / a
  {
    MulMonotone(n / a + 1, n / b, a);
    MulMonotone(a, b, n / b);
  }

  /** The loop that stops at the first choice too large. */
  method PickLargest(choices: seq<int>, unit: int, limit: int, current: int) returns (r: int)
    requires Increasing(choices) && unit > 0
    ensures r == LastAtMost(choices, unit, limit, current)
  {
    r := current;
    for k := 0 to |choices|
      invariant r == LastAtMost(choices[..k], unit, limit, current)
    {
      assert choices[..k + 1][..k] == choices[..k];
      if choices[k] * unit <= limit {
        r := choices[k] * unit;
      } else {
        TooLargeStays(choices, unit, limit, current, k);
        return;
      }
    }
    assert choices[..|choices|] == choices;
  }

  lemma {:induction false} TooLargeStays(choices: seq<int>, unit: int, limit: int, current: int, k: nat)
    requires Increasing(choices) && unit > 0 && k < |choices| && choices[k] * unit > limit
    ensures LastAtMost(choices, unit, limit, current) == LastAtMost(choices[..k], unit, limit, current)
    decreases |choices|
  {
    var last := |choices| - 1;
    MulMonotone(choices[k], choices[last], unit);
    if k < last {
      TooLargeStays(choices[..last], unit, limit, current, k);
      assert choices[..last][..k] == choices[..k];
    }
  }

  ghost predicate IsValidResult(q: Problem, p: MatmulParams) {
    && Divides(p.blockH, q.Mt()) && Divides(p.blockW, q.Nt()) && HasBestSubblock(p)
    && q.FitsGrid(p.blockH, p.blockW)
  }

  /** Cases 1 and 2 fix one block dimension; `fixed` is its size, `unit` and `rest` the other
      dimension's parts.  The other dimension is the largest within the budget. */
  method PickFree(fixed: int, unit: int, restFactors: seq<int>, w: nat) returns (free: int)
    requires fixed > 0 && unit > 0 && AllPrime(restFactors) && unit <= MaximumBlockDim(fixed, w)
    ensures IsLargest(free, Product(restFactors), unit, MaximumBlockDim(fixed, w))
    ensures FitsBudget(fixed, free, w)
    ensures forall b :: IsCandidate(b, unit, Product(restFactors)) && FitsBudget(fixed, b, w) ==> b <= free
  {
    var choices := GetPossibleProducts(restFactors);
    var limit := MaximumBlockDim(fixed, w);
    free := PickLargest(choices, unit, limit, unit);
    LastAtMostIsLargest(choices, Product(restFactors), unit, limit, unit);
    LargestIsBest(free, Product(restFactors), unit, fixed, w);
  }

  lemma LargestIsBest(free: int, n: int, unit: int, fixed: int, w: nat)
    requires fixed > 0 && unit > 0 && IsLargest(free, n, unit, MaximumBlockDim(fixed, w))
    ensures FitsBudget(fixed, free, w)
    ensures forall b :: IsCandidate(b, unit, n) && FitsBudget(fixed, b, w) ==> b <= free
  {
    MaximumBlockDimIsExact(fixed, w, free);
    forall b | IsCandidate(b, unit, n) && FitsBudget(fixed, b, w)
      ensures b <= free
    {
      MaximumBlockDimIsExact(fixed, w, b);
      QuotientOf(unit, b);
      var e := b / unit;
      assert e * unit == b by {
        assert unit * (b / unit) == b;
      }
      assert Divides(e, n) && e * unit <= MaximumBlockDim(fixed, w);
    }
  }

  /** Nothing of the form unit times a divisor fits when unit does not. */
  lemma UnitTooLarge(fixed: int, unit: int, rest: int, n: int, w: nat)
    requires fixed > 0 && unit > MaximumBlockDim(fixed, w) && unit * rest == n && unit > 0
    ensures forall b :: IsCandidate(b, unit, rest) ==> !FitsBudget(fixed, b, w)
  {
    forall b | IsCandidate(b, unit, rest)
      ensures !FitsBudget(fixed, b, w)
    {
      CandidateDivides(b, unit, rest, n);
      MaximumBlockDimIsExact(fixed, w, b);
    }
  }

  /** Case 1: block_h is fixed by the large factors of Mt. */
  ghost predicate LargeMResult(q: Problem, p: MatmulParams)
    requires q.Valid()
  {
    ProblemSizes(q);
    if p == NO_PARAMS then
      forall b :: IsCandidate(b, q.NMin(), q.NRest()) && FitsBudget(q.MMin(), b, q.w) ==> !q.FitsGrid(q.MMin(), b)
    else
      && IsValidResult(q, p) && p.blockH == q.MMin() && FitsBudget(p.blockH, p.blockW, q.w)
      && IsLargest(p.blockW, q.NRest(), q.NMin(), MaximumBlockDim(q.MMin(), q.w))
  }

  /** Case 2: block_w is fixed by the large factors of Nt, and Mt has none. */
  ghost predicate LargeNResult(q: Problem, p: MatmulParams)
    requires q.Valid()
  {
    ProblemSizes(q);
    if p == NO_PARAMS then
      forall h :: IsCandidate(h, 1, q.MRest()) && FitsBudget(h, q.NMin(), q.w) ==> !q.FitsGrid(h, q.NMin())
    else
      && IsValidResult(q, p) && p.blockW == q.NMin() && FitsBudget(p.blockH, p.blockW, q.w)
      && IsLargest(p.blockH, q.MRest(), 1, MaximumBlockDim(q.NMin(), q.w))
  }

  method LargeM(q: Problem) returns (p: MatmulParams)
    requires q.Valid() && q.MMin() > 0 && q.NMin() <= MaximumBlockDim(q.MMin(), q.w)
    ensures LargeMResult(q, p)
  {
    ProblemSizes(q);
    KeepPrime(q.nFactors, q.coresX, false);
    var h := q.MMin();
    var b := PickFree(h, q.NMin(), Keep(q.nFactors, q.coresX, false), q.w);
    CandidateDivides(b, q.NMin(), q.NRest(), q.Nt());
    DividesProduct(h, q.MRest());
    if q.Mt() / h > q.coresY || q.Nt() / b > q.coresX {
      forall c | IsCandidate(c, q.NMin(), q.NRest()) && FitsBudget(h, c, q.w)
        ensures !q.FitsGrid(h, c)
      {
        QuotientShrinks(q.Nt(), c, b);
      }
      return NO_PARAMS;
    }
    p := WithSubblock(h, b);
  }

  method LargeN(q: Problem) returns (p: MatmulParams)
    requires q.Valid() && q.MMin() == 1 && q.NMin() > 0 && 1 <= MaximumBlockDim(q.NMin(), q.w)
    ensures LargeNResult(q, p)
  {
    ProblemSizes(q);
    KeepPrime(q.mFactors, q.coresY, false);
    var b := q.NMin();
    var h := PickFree(b, 1, Keep(q.mFactors, q.coresY, false), q.w);
    FitsBothWays(q, b);
    CandidateDivides(h, 1, q.MRest(), q.Mt());
    DividesProduct(b, q.NRest());
    if q.Mt() / h > q.coresY || q.Nt() / b > q.coresX {
      forall g | IsCandidate(g, 1, q.MRest()) && FitsBudget(g, b, q.w)
        ensures !q.FitsGrid(g, b)
      {
        QuotientShrinks(q.Mt(), g, h);
      }
      return NO_PARAMS;
    }
    p := WithSubblock(h, b);
  }

  lemma FitsBothWays(q: Problem, b: int)
    requires b > 0
    ensures forall h :: h > 0 ==> (FitsBudget(h, b, q.w) <==> FitsBudget(b, h, q.w))
  {
    forall h | h > 0
      ensures FitsBudget(h, b, q.w) <==> FitsBudget(b, h, q.w)
    {
      MaximumBlockDimIsExact(b, q.w, h);
    }
  }

  predicate AllAtLeastOne(s: seq<int>) {
    forall i :: 0 <= i < |s| ==> s[i] >= 1
  }

  /** Case 3's block_h at the i-th choice of block_w: it keeps its last value when nothing fits. */
  function BlockHAt(ms: seq<int>, ns: seq<int>, w: nat, i: nat): int
    requires i < |ns| && AllAtLeastOne(ns)
  {
    LastAtMost(ms, 1, MaximumBlockDim(ns[i], w), if i == 0 then 1 else BlockHAt(ms, ns, w, i - 1))
  }

  lemma DivisorsAtLeastOne(s: seq<int>, n: int)
    requires ListsDivisors(s, n)
    ensures AllAtLeastOne(s) && 1 in s
  {
    assert forall i :: 0 <= i < |s| ==> s[i] in s;
    assert Divides(1, n);
  }

  lemma {:induction false} BlockHAtIs(ms: seq<int>, m: int, ns: seq<int>, w: nat, i: nat)
    requires i < |ns| && AllAtLeastOne(ns) && ListsDivisors(ms, m)
    ensures Divides(BlockHAt(ms, ns, w, i), m)
    ensures MaximumBlockDim(ns[i], w) > 0 ==> IsLargest(BlockHAt(ms, ns, w, i), m, 1, MaximumBlockDim(ns[i], w))
    decreases i
  {
    if i > 0 {
      BlockHAtIs(ms, m, ns, w, i - 1);
    }
    var before := if i == 0 then 1 else BlockHAt(ms, ns, w, i - 1);
    LastAtMostIsLargest(ms, m, 1, MaximumBlockDim(ns[i], w), before);
  }

  ghost predicate FitsAt(q: Problem, ms: seq<int>, ns: seq<int>, i: nat)
    requires i < |ns| && AllAtLeastOne(ns)
  {
    BlockHAt(ms, ns, q.w, i) > 0 && q.FitsGrid(BlockHAt(ms, ns, q.w, i), ns[i])
  }

  /** p is the first choice of block_w that fits the grid with the block_h at that point. */
  ghost predicate IsFirstFit(q: Problem, ms: seq<int>, ns: seq<int>, p: MatmulParams)
    requires AllAtLeastOne(ns)
  {
    if p == NO_PARAMS then forall i: nat | i < |ns| :: !FitsAt(q, ms, ns, i)
    else exists i: nat :: i < |ns| && FitsAt(q, ms, ns, i) && (forall j: nat | j < i :: !FitsAt(q, ms, ns, j)) &&
                          p.blockH == BlockHAt(ms, ns, q.w, i) && p.blockW == ns[i] && HasBestSubblock(p)
  }

  /** The loops of case 3. */
  method FirstFit(q: Problem, ms: seq<int>, ns: seq<int>) returns (p: MatmulParams)
    requires AllAtLeastOne(ns) && ListsDivisors(ms, q.Mt())
    ensures IsFirstFit(q, ms, ns, p)
  {
    var h := 1;
    for i := 0 to |ns|
      invariant h == if i == 0 then 1 else BlockHAt(ms, ns, q.w, i - 1)
      invariant forall j: nat | j < i :: !FitsAt(q, ms, ns, j)
    {
      var limit := MaximumBlockDim(ns[i], q.w);
      ghost var before := h;
      for k := 0 to |ms|
        invariant h == LastAtMost(ms[..k], 1, limit, before)
      {
        assert ms[..k + 1][..k] == ms[..k];
        if ms[k] <= limit {
          h := ms[k];
        }
      }
      assert ms[..|ms|] == ms;
      BlockHAtIs(ms, q.Mt(), ns, q.w, i);
      if q.Mt() / h <= q.coresY && q.Nt() / ns[i] <= q.coresX {
        assert FitsAt(q, ms, ns, i);
        p := WithSubblock(h, ns[i]);
        return;
      }
    }
    p := NO_PARAMS;
  }

  /** Some block of divisors is within the budget and the grid. */
  ghost predicate HasAdmissible(q: Problem) {
    exists h, b :: Divides(h, q.Mt()) && Divides(b, q.Nt()) && FitsBudget(h, b, q.w) && q.FitsGrid(h, b)
  }

  /** p is the first fit over the divisors of Mt and Nt in increasing order. */
  ghost predicate IsFirstFitOfDivisors(q: Problem, p: MatmulParams) {
    exists ms, ns :: ListsDivisors(ms, q.Mt()) && ListsDivisors(ns, q.Nt()) && AllAtLeastOne(ns) &&
                     IsFirstFit(q, ms, ns, p)
  }

  /** Case 3: no factor is too large for the grid.  Something within grid and budget is found if
      there is any, and a result is within the budget exactly then. */
  ghost predicate SmallResult(q: Problem, p: MatmulParams)
    requires q.Valid()
  {
    ProblemSizes(q);
    && (FitsBudget(1, 1, q.w) ==> IsFirstFitOfDivisors(q, p))
    && (p == NO_PARAMS ==> !HasAdmissible(q))
    && (p != NO_PARAMS ==> IsValidResult(q, p) && (FitsBudget(p.blockH, p.blockW, q.w) <==> HasAdmissible(q)))
  }

  /** A pair within grid and budget makes the choice of block_w at its place fit. */
  lemma AdmissibleFits(q: Problem, ms: seq<int>, ns: seq<int>, h: int, b: int) returns (j: nat)
    requires q.Valid() && ListsDivisors(ms, q.Mt()) && ListsDivisors(ns, q.Nt()) && AllAtLeastOne(ns)
    requires Divides(h, q.Mt()) && Divides(b, q.Nt()) && FitsBudget(h, b, q.w) && q.FitsGrid(h, b)
    ensures j < |ns| && ns[j] == b && FitsAt(q, ms, ns, j)
  {
    ProblemSizes(q);
    assert b in ns;
    j :| j < |ns| && ns[j] == b;
    BlockHAtIs(ms, q.Mt(), ns, q.w, j);
    MaximumBlockDimIsExact(b, q.w, h);
    assert h * 1 == h;
    QuotientShrinks(q.Mt(), h, BlockHAt(ms, ns, q.w, j));
  }

  /** A first fit over the budget leaves nothing admissible: a narrower block would have come
      first, and a wider one needs more. */
  lemma OverBudgetMeansNone(q: Problem, ms: seq<int>, ns: seq<int>, p: MatmulParams, h: int, b: int)
    requires q.Valid() && ListsDivisors(ms, q.Mt()) && ListsDivisors(ns, q.Nt()) && AllAtLeastOne(ns)
    requires p != NO_PARAMS && IsFirstFit(q, ms, ns, p)
    requires Divides(h, q.Mt()) && Divides(b, q.Nt()) && FitsBudget(h, b, q.w) && q.FitsGrid(h, b)
    ensures FitsBudget(p.blockH, p.blockW, q.w)
  {
    var i: nat :| i < |ns| && FitsAt(q, ms, ns, i) && (forall j: nat | j < i :: !FitsAt(q, ms, ns, j)) &&
                  p.blockH == BlockHAt(ms, ns, q.w, i) && p.blockW == ns[i];
    BlockHAtIs(ms, q.Mt(), ns, q.w, i);
    MaximumBlockDimIsExact(ns[i], q.w, p.blockH);
    var j := AdmissibleFits(q, ms, ns, h, b);
    assert i <= j;
    BudgetMonotone(h, ns[i], h, b, q.w);
    MaximumBlockDimIsExact(ns[i], q.w, h);
  }

  lemma FirstFitIsSmallResult(q: Problem, ms: seq<int>, ns: seq<int>, p: MatmulParams)
    requires q.Valid() && ListsDivisors(ms, q.Mt()) && ListsDivisors(ns, q.Nt()) && AllAtLeastOne(ns)
    requires IsFirstFit(q, ms, ns, p)
    ensures SmallResult(q, p)
  {
    ProblemSizes(q);
    if HasAdmissible(q) {
      var h, b :| Divides(h, q.Mt()) && Divides(b, q.Nt()) && FitsBudget(h, b, q.w) && q.FitsGrid(h, b);
      var j := AdmissibleFits(q, ms, ns, h, b);
      if p != NO_PARAMS {
        OverBudgetMeansNone(q, ms, ns, p, h, b);
      }
    }
    if p != NO_PARAMS {
      var i: nat :| i < |ns| && FitsAt(q, ms, ns, i) && p.blockH == BlockHAt(ms, ns, q.w, i) && p.blockW == ns[i];
      BlockHAtIs(ms, q.Mt(), ns, q.w, i);
      assert ns[i] in ns;
      assert IsValidResult(q, p);
    }
  }

  method SmallFactors(q: Problem) returns (p: MatmulParams)
    requires q.Valid() && q.MMin() == 1 && q.NMin() == 1
    ensures SmallResult(q, p)
  {
    ProblemSizes(q);
    KeepPrime(q.mFactors, q.coresY, false);
    KeepPrime(q.nFactors, q.coresX, false);
    var ms := GetPossibleProducts(Keep(q.mFactors, q.coresY, false));
    var ns := GetPossibleProducts(Keep(q.nFactors, q.coresX, false));
    DivisorsAtLeastOne(ns, q.Nt());
    p := FirstFit(q, ms, ns);
    FirstFitIsSmallResult(q, ms, ns, p);
  }

  /** `get_large_matmul_params`. */
  method GetLargeMatmulParams(q: Problem) returns (p: MatmulParams)
    requires q.Valid()
    ensures p != MatmulParams(0, 0, 0, 0) ==> IsValidResult(q, p)
    ensures q.MMin() > 1 ==> LargeMResult(q, p)
    ensures q.MMin() == 1 && q.NMin() > 1 ==> LargeNResult(q, p)
    ensures q.MMin() == 1 && q.NMin() == 1 ==> SmallResult(q, p)
  {
    ProblemSizes(q);
    if q.NMin() > MaximumBlockDim(q.MMin(), q.w) {
      NothingFits(q);
      return NO_PARAMS;
    }
    if q.MMin() > 1 {
      p := LargeM(q);
    } else if q.NMin() > 1 {
      MaximumBlockDimIsExact(1, q.w, q.NMin());
      MaximumBlockDimIsExact(q.NMin(), q.w, 1);
      p := LargeN(q);
    } else {
      p := SmallFactors(q);
    }
  }

  lemma NothingFits(q: Problem)
    requires q.Valid() && q.MMin() > 0 && q.NMin() > MaximumBlockDim(q.MMin(), q.w)
    ensures LargeMResult(q, NO_PARAMS)
    ensures q.MMin() == 1 ==> LargeNResult(q, NO_PARAMS)
    ensures q.MMin() == 1 && q.NMin() == 1 ==> SmallResult(q, NO_PARAMS)
  {
    ProblemSizes(q);
    UnitTooLarge(q.MMin(), q.NMin(), q.NRest(), q.Nt(), q.w);
    MaximumBlockDimIsExact(q.MMin(), q.w, q.NMin());
    if q.MMin() == 1 {
      forall h, b | h >= 1 && b >= q.NMin()
        ensures !FitsBudget(h, b, q.w)
      {
        BudgetMonotone(1, q.NMin(), h, b, q.w);
      }
    }
  }

  lemma BudgetMonotone(h: int, b: int, h1: int, b1: int, w: nat)
    requires 0 < h <= h1 && 0 < b <= b1
    ensures FitsBudget(h1, b1, w) ==> FitsBudget(h, b, w)
  {
    MulMonotone(h, h1, 2 * w);
    MulMonotone(b, b1, 2 * w);
    MulMonotone(h, h1, b);
    MulMonotone(b, b1, h1);
  }

  /** A 1x4 product on a 1x2 grid with inner width 99. */
  const STALE := Problem([], [2, 2], 1, 2, 99)

  lemma StaleSizes()
    ensures STALE.Valid() && STALE.MMin() == 1 && STALE.NMin() == 1 && STALE.Mt() == 1 && STALE.Nt() == 4
  {
    var factors := [2, 2];
    assert factors[..1] == [2] && [2][..0] == [];
    assert Product([2]) == 2 && Product(factors) == 4;
    assert Keep([2], 2, true) == [] && Keep(factors, 2, true) == [];
  }

  lemma StaleDivisors()
    ensures ListsDivisors([1], STALE.Mt()) && ListsDivisors([1, 2, 4], STALE.Nt())
  {
    StaleSizes();
    forall d
      ensures Divides(d, 1) <==> d == 1
      ensures Divides(d, 4) <==> d in [1, 2, 4]
    {
      SmallDivisors(d);
    }
  }

  lemma SmallDivisors(d: int)
    ensures Divides(d, 1) <==> d == 1
    ensures Divides(d, 4) <==> d == 1 || d == 2 || d == 4
  {
    if d > 4 {
      QuotientUnique(0, 4, d);
    }
    if d > 1 {
      QuotientUnique(0, 1, d);
    }
    assert 4 % 1 == 0 && 4 % 2 == 0 && 4 % 3 == 1 && 4 % 4 == 0;
  }

  lemma StaleHeights()
    ensures BlockHAt([1], [1, 2, 4], 99, 0) == 1 && BlockHAt([1], [1, 2, 4], 99, 1) == 1
  {
    assert MaximumBlockDim(1, 99) == 1 && MaximumBlockDim(2, 99) == 0;
    assert LastAtMost([1], 1, 1, 1) == 1 && LastAtMost([1], 1, 0, 1) == 1;
  }

  lemma StaleFirstFit(p: MatmulParams)
    requires IsFirstFit(STALE, [1], [1, 2, 4], p)
    ensures p.blockH == 1 && p.blockW == 2
  {
    StaleSizes();
    StaleHeights();
    var ns := [1, 2, 4];
    assert ns[0] == 1 && ns[1] == 2;
    assert !FitsAt(STALE, [1], ns, 0) && FitsAt(STALE, [1], ns, 1);
  }

  /** The only result of case 3 there is over the budget: at block_w 2 nothing fits, and block_h 1
      is left over from block_w 1. */
  lemma StaleBlockExceedsBudget(p: MatmulParams)
    requires STALE.Valid() && SmallResult(STALE, p)
    ensures STALE.MMin() == 1 && STALE.NMin() == 1
    ensures p.blockH == 1 && p.blockW == 2 && !FitsBudget(p.blockH, p.blockW, STALE.w)
  {
    StaleSizes();
    StaleDivisors();
    assert FitsBudget(1, 1, 99);
    var ms, ns :| ListsDivisors(ms, STALE.Mt()) && ListsDivisors(ns, STALE.Nt()) && AllAtLeastOne(ns) &&
                  IsFirstFit(STALE, ms, ns, p);
    SameDivisors(ms, [1], STALE.Mt());
    SameDivisors(ns, [1, 2, 4], STALE.Nt());
    StaleFirstFit(p);
  }
}
