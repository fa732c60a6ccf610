/** The subblock choices of python/utils/block_allocation.py and what their order prefers. */
module Subblocks {
  import opened Divisors
  import opened MixedRadix

  type Positive = n: int | n > 0 witness 1

  const SUBBLOCK_HW_CHOICES: seq<(Positive, Positive)> :=
    [(4, 2), (2, 4), (8, 1), (1, 8), (7, 1), (1, 7), (3, 2), (2, 3), (6, 1), (1, 6),
     (5, 1), (1, 5), (2, 2), (4, 1), (1, 4), (3, 1), (1, 3), (2, 1), (1, 2), (1, 1)]

  predicate SubblockFits(h: int, w: int, choice: (Positive, Positive)) {
    Divides(choice.0, h) && Divides(choice.1, w)
  }

  function Longer(a: int, b: int): int {
    if a > b then a else b
  }

  /** Subblock a x b is at least as good as x x y: the larger area is better, then the shorter longer
      side, then the larger height. */
  predicate IsPreferred(a: int, b: int, x: int, y: int) {
    a * b > x * y ||
    (a * b == x * y && (Longer(a, b) < Longer(x, y) || (Longer(a, b) == Longer(x, y) && a >= x)))
  }

  /** The best subblock of at most eight tiles that divides an h x w block. */
  ghost predicate IsBestSubblock(h: int, w: int, a: int, b: int) {
    && Divides(a, h) && Divides(b, w) && a * b <= 8
    && forall x, y :: Divides(x, h) && Divides(y, w) && x * y <= 8 ==> IsPreferred(a, b, x, y)
  }

  /** There is only one. */
  lemma BestIsUnique(h: int, w: int, a: int, b: int, x: int, y: int)
    requires IsBestSubblock(h, w, a, b) && IsBestSubblock(h, w, x, y)
    ensures a == x && b == y
  {
    assert IsPreferred(a, b, x, y) && IsPreferred(x, y, a, b);
    assert a * b == x * y && a == x && b * a == y * a;
    Cancel(b, y, a);
  }

  lemma PreferenceIsTransitive(a: int, b: int, x: int, y: int, u: int, v: int)
    requires IsPreferred(a, b, x, y) && IsPreferred(x, y, u, v)
    ensures IsPreferred(a, b, u, v)
  {
  }

  lemma NextIsWorse(k: nat)
    requires k + 1 < |SUBBLOCK_HW_CHOICES|
    ensures var c, d := SUBBLOCK_HW_CHOICES[k], SUBBLOCK_HW_CHOICES[k + 1]; IsPreferred(c.0, c.1, d.0, d.1)
  {
    assert k == 0 || k == 1 || k == 2 || k == 3 || k == 4 || k == 5 || k == 6 || k == 7 || k == 8 || k == 9
           || k == 10 || k == 11 || k == 12 || k == 13 || k == 14 || k == 15 || k == 16 || k == 17 || k == 18;
  }

  /** The choices are in order of preference. */
  lemma {:induction false} ChoicesAreOrdered(k: nat, j: nat)
    requires k <= j < |SUBBLOCK_HW_CHOICES|
    ensures var c, d := SUBBLOCK_HW_CHOICES[k], SUBBLOCK_HW_CHOICES[j]; IsPreferred(c.0, c.1, d.0, d.1)
    decreases j
  {
    if k < j {
      ChoicesAreOrdered(k, j - 1);
      NextIsWorse(j - 1);
      var c, d, e := SUBBLOCK_HW_CHOICES[k], SUBBLOCK_HW_CHOICES[j - 1], SUBBLOCK_HW_CHOICES[j];
      PreferenceIsTransitive(c.0, c.1, d.0, d.1, e.0, e.1);
    }
  }

  function PlaceOf(x: int, y: int): nat {
    if x == 1 then
      match y case 8 => 3 case 7 => 5 case 6 => 9 case 5 => 11 case 4 => 14 case 3 => 16 case 2 => 18 case _ => 19
    else if x == 2 then
      match y case 4 => 1 case 3 => 7 case 2 => 12 case _ => 17
    else if x == 3 then if y == 2 then 6 else 15
    else if x == 4 then if y == 2 then 0 else 13
    else match x case 5 => 10 case 6 => 8 case 7 => 4 case _ => 2
  }

  /** Every pair of at most eight tiles is a choice. */
  lemma EveryPairIsListed(x: int, y: int)
    requires x > 0 && y > 0 && x * y <= 8
    ensures PlaceOf(x, y) < |SUBBLOCK_HW_CHOICES| && SUBBLOCK_HW_CHOICES[PlaceOf(x, y)] == (x, y)
  {
    MulMonotone(1, x, y);
    MulMonotone(1, y, x);
    assert x == 1 || x == 2 || x == 3 || x == 4 || x == 5 || x == 6 || x == 7 || x == 8;
  }

  lemma ChoiceIsSmall(k: nat)
    requires k < |SUBBLOCK_HW_CHOICES|
    ensures SUBBLOCK_HW_CHOICES[k].0 * SUBBLOCK_HW_CHOICES[k].1 <= 8
  {
    ChoicesAreOrdered(0, k);
  }

  /** So the first choice that divides the block is the best subblock. */
  lemma FirstIsBest(h: int, w: int, k: nat)
    requires k < |SUBBLOCK_HW_CHOICES| && SubblockFits(h, w, SUBBLOCK_HW_CHOICES[k])
    requires forall j: nat | j < k :: !SubblockFits(h, w, SUBBLOCK_HW_CHOICES[j])
    ensures IsBestSubblock(h, w, SUBBLOCK_HW_CHOICES[k].0, SUBBLOCK_HW_CHOICES[k].1)
  {
    var c := SUBBLOCK_HW_CHOICES[k];
    ChoiceIsSmall(k);
    forall x, y | Divides(x, h) && Divides(y, w) && x * y <= 8
      ensures IsPreferred(c.0, c.1, x, y)
    {
      EveryPairIsListed(x, y);
      var j := PlaceOf(x, y);
      assert SubblockFits(h, w, SUBBLOCK_HW_CHOICES[j]);
      ChoicesAreOrdered(k, j);
    }
  }
}
