/** Row-major numbering of the points of a box, as a mixed-radix number system. */
module MixedRadix {
  predicate AllPositive(s: seq<int>) {
    forall i :: 0 <= i < |s| ==> s[i] > 0
  }

  predicate IsShape(s: seq<int>) {
    s != [] && AllPositive(s)
  }

  predicate InBox(shape: seq<int>, coords: seq<int>) {
    |coords| == |shape| && forall i :: 0 <= i < |shape| ==> 0 <= coords[i] < shape[i]
  }

  function Product(s: seq<int>): int {
    if s == [] then 1 else Product(s[..|s| - 1]) * s[|s| - 1]
  }

  /** Mixed-radix digits of a number, most significant first. */
  function Digits(shape: seq<int>, n: int): seq<int>
    requires AllPositive(shape)
  {
    if shape == [] then []
    else
      var k := |shape| - 1;
      Digits(shape[..k], n / shape[k]) + [n % shape[k]]
  }

  /** The number that coordinates stand for; the first size is not used. */
  function Flatten(shape: seq<int>, coords: seq<int>): int
    requires 0 < |coords| <= |shape|
  {
    var k := |coords| - 1;
    if k == 0 then coords[0] else Flatten(shape, coords[..k]) * shape[k] + coords[k]
  }

  lemma MulMonotone(a: int, b: int, s: int)
    requires s >= 0
    ensures a <= b ==> a * s <= b * s
  {
  }

  lemma QuotientBelow(n: int, p: int, s: int)
    requires 0 <= n < p * s && s > 0
    ensures 0 <= n / s < p && 0 <= n % s < s && n / s * s + n % s == n
  {
    MulMonotone(p, n / s, s);
  }

  lemma QuotientUnique(q: int, r: int, s: int)
    requires 0 <= r < s
    ensures (q * s + r) / s == q && (q * s + r) % s == r
  {
    var a := q * s + r;
    var d := a / s - q;
    assert d * s == r - a % s;
    MulMonotone(1, d, s);
    MulMonotone(d, -1, s);
  }

  lemma {:induction false} ProductPositive(s: seq<int>)
    requires AllPositive(s)
    ensures Product(s) > 0
    decreases |s|
  {
    if s != [] {
      ProductPositive(s[..|s| - 1]);
    }
  }

  lemma {:induction false} DigitsInBox(shape: seq<int>, n: int)
    requires AllPositive(shape)
    ensures InBox(shape, Digits(shape, n))
    decreases |shape|
  {
    if shape != [] {
      DigitsInBox(shape[..|shape| - 1], n / shape[|shape| - 1]);
    }
  }

  lemma {:induction false} FlattenPrefix(a: seq<int>, b: seq<int>, coords: seq<int>)
    requires 0 < |coords| <= |a| <= |b| && a == b[..|a|]
    ensures Flatten(a, coords) == Flatten(b, coords)
    decreases |coords|
  {
    if |coords| > 1 {
      FlattenPrefix(a, b, coords[..|coords| - 1]);
    }
  }

  /** Flattening inverts taking digits ... */
  lemma {:induction false} FlattenDigits(shape: seq<int>, n: int)
    requires IsShape(shape) && 0 <= n < Product(shape)
    ensures |Digits(shape, n)| == |shape| && Flatten(shape, Digits(shape, n)) == n
    decreases |shape|
  {
    var k := |shape| - 1;
    DigitsInBox(shape, n);
    QuotientBelow(n, Product(shape[..k]), shape[k]);
    if k == 0 {
      assert Digits(shape[..0], n / shape[0]) == [];
    } else {
      FlattenDigits(shape[..k], n / shape[k]);
      var digits := Digits(shape[..k], n / shape[k]);
      FlattenPrefix(shape[..k], shape, digits);
      assert Digits(shape, n)[..k] == digits;
    }
  }

  lemma LastDigit(shape: seq<int>, high: int, low: int, n: int)
    requires IsShape(shape)
    requires var k := |shape| - 1;
             0 <= high < Product(shape[..k]) && 0 <= low < shape[k] && n == high * shape[k] + low
    ensures 0 <= n < Product(shape)
    ensures var k := |shape| - 1; Digits(shape, n) == Digits(shape[..k], high) + [low]
  {
    var k := |shape| - 1;
    QuotientUnique(high, low, shape[k]);
    MulMonotone(0, high, shape[k]);
    MulMonotone(high + 1, Product(shape[..k]), shape[k]);
  }

  /** ... and taking digits inverts flattening: with FlattenDigits, a bijection between the numbers
      below the product and the box. */
  lemma {:induction false} DigitsFlatten(shape: seq<int>, coords: seq<int>)
    requires IsShape(shape) && InBox(shape, coords)
    ensures 0 <= Flatten(shape, coords) < Product(shape)
    ensures Digits(shape, Flatten(shape, coords)) == coords
    decreases |shape|
  {
    var k := |shape| - 1;
    if k == 0 {
      assert Product(shape) == shape[0] by {
        assert Product(shape[..0]) == 1;
      }
      QuotientUnique(0, coords[0], shape[0]);
      assert Digits(shape[..0], coords[0] / shape[0]) == [];
    } else {
      var high := Flatten(shape[..k], coords[..k]);
      DigitsFlatten(shape[..k], coords[..k]);
      FlattenPrefix(shape[..k], shape, coords[..k]);
      LastDigit(shape, high, coords[k], Flatten(shape, coords));
      assert coords == coords[..k] + [coords[k]];
    }
  }
}
