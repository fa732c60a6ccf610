/** `get_possible_products` (python/utils/block_allocation.py): the divisors of a number from its
    prime factors. */
module Divisors {
  import opened MixedRadix

  predicate IsPrime(p: int) {
    p > 1 && forall d :: 1 < d < p ==> p % d != 0
  }

  predicate AllPrime(factors: seq<int>) {
    forall i :: 0 <= i < |factors| ==> IsPrime(factors[i])
  }

  predicate Divides(d: int, n: int) {
    d > 0 && n % d == 0
  }

  lemma DividesProduct(d: int, q: int)
    requires d > 0
    ensures Divides(d, d * q) && Divides(d, q * d)
  {
    QuotientUnique(q, 0, d);
  }

  lemma QuotientOf(d: int, n: int)
    requires Divides(d, n)
    ensures n == d * (n / d) && (n > 0 ==> n / d > 0)
  {
    MulMonotone(n / d, 0, d);
  }

  lemma DividesLinear(p: int, a: int, b: int, k: int)
    requires Divides(p, a) && Divides(p, b)
    ensures Divides(p, a - k * b)
  {
    var x, y := a / p, b / p;
    QuotientOf(p, a);
    QuotientOf(p, b);
    assert a - k * b == p * (x - k * y) by {
      Distributes(p, x, k, y);
    }
    DividesProduct(p, x - k * y);
  }

  lemma Distributes(p: int, x: int, k: int, y: int)
    ensures p * x - k * (p * y) == p * (x - k * y)
  {
    assert k * (p * y) == p * (k * y);
  }

  /** Euclid's lemma, for a factor below the prime first. */
  lemma {:induction false} EuclidBelow(p: int, a: int, b: int)
    requires IsPrime(p) && 0 < a < p && Divides(p, a * b)
    ensures Divides(p, b)
    decreases a
  {
    if a > 1 {
      var q, r := p / a, p % a;
      assert p == q * a + r;
      DividesProduct(p, b);
      DividesLinear(p, p * b, a * b, q);
      assert r * b == p * b - q * (a * b) by {
        assert (q * a + r) * b == q * a * b + r * b;
        assert q * a * b == q * (a * b);
      }
      EuclidBelow(p, r, b);
    }
  }

  lemma Euclid(p: int, a: int, b: int)
    requires IsPrime(p) && Divides(p, a * b) && !Divides(p, a)
    ensures Divides(p, b)
  {
    var q, r := a / p, a % p;
    DividesProduct(p, q * b);
    DividesLinear(p, a * b, p * (q * b), 1);
    assert r * b == a * b - 1 * (p * (q * b)) by {
      assert (p * q + r) * b == p * q * b + r * b;
      assert p * q * b == p * (q * b);
    }
    EuclidBelow(p, r, b);
  }

  /** A divisor of m * p divides m, or is p times a divisor of m. */
  lemma DivisorOfTimesPrime(d: int, m: int, p: int)
    requires IsPrime(p) && m > 0 && d > 0
    ensures Divides(d, m * p) <==> Divides(d, m) || (Divides(p, d) && Divides(d / p, m))
  {
    if Divides(d, m) {
      QuotientOf(d, m);
      assert m * p == d * (m / d * p) by {
        assert d * (m / d) * p == d * (m / d * p);
      }
      DividesProduct(d, m / d * p);
    }
    if Divides(p, d) {
      PrimeInDivisor(d, m, p, d / p);
    } else if Divides(d, m * p) {
      PrimeOutsideDivisor(d, m, p);
    }
  }

  lemma PrimeInDivisor(d: int, m: int, p: int, e: int)
    requires IsPrime(p) && m > 0 && d > 0 && Divides(p, d) && e == d / p
    ensures Divides(d, m * p) <==> Divides(e, m)
  {
    QuotientOf(p, d);
    if Divides(e, m) {
      QuotientOf(e, m);
      var k := m / e;
      assert m * p == d * k by {
        assert e * k * p == p * e * k;
      }
      DividesProduct(d, k);
    }
    if Divides(d, m * p) {
      QuotientOf(d, m * p);
      var k := m * p / d;
      Cancel(m, e * k, p) by {
        assert p * e * k == e * k * p;
      }
      DividesProduct(e, k);
    }
  }

  lemma Cancel(x: int, y: int, p: int)
    requires p > 0 && x * p == y * p
    ensures x == y
  {
    MulMonotone(x + 1, y, p);
    MulMonotone(y + 1, x, p);
  }

  lemma PrimeOutsideDivisor(d: int, m: int, p: int)
    requires IsPrime(p) && m > 0 && Divides(d, m * p) && !Divides(p, d)
    ensures Divides(d, m)
  {
    QuotientOf(d, m * p);
    var k := m * p / d;
    DividesProduct(p, m);
    Euclid(p, d, k);
    QuotientOf(p, k);
    var j := k / p;
    Cancel(m, d * j, p) by {
      assert d * (p * j) == d * j * p;
    }
    DividesProduct(d, j);
  }

  predicate Increasing(s: seq<int>) {
    forall i, j :: 0 <= i < j < |s| ==> s[i] < s[j]
  }

  /** Exactly the divisors of n, strictly increasing. */
  ghost predicate ListsDivisors(s: seq<int>, n: int) {
    Increasing(s) && forall d :: d in s <==> Divides(d, n)
  }

  ghost predicate SameElements(a: seq<int>, b: seq<int>) {
    forall x :: x in a <==> x in b
  }

  lemma SameEmpty(a: seq<int>, b: seq<int>)
    requires SameElements(a, b)
    ensures a == [] <==> b == []
  {
    if a != [] {
      var x := a[0];
      assert x in a && x in b;
    }
    if b != [] {
      var x := b[0];
      assert x in b && x in a;
    }
  }

  /** The last of an increasing list is its largest element, and no other is. */
  lemma WithoutLast(s: seq<int>)
    requires Increasing(s) && s != []
    ensures var k := |s| - 1;
            forall x :: x in s[..k] <==> x in s && x < s[k]
  {
    var k := |s| - 1;
    assert s == s[..k] + [s[k]];
  }

  lemma {:induction false} IncreasingUnique(a: seq<int>, b: seq<int>)
    requires Increasing(a) && Increasing(b) && SameElements(a, b)
    ensures a == b
    decreases |a|
  {
    SameEmpty(a, b);
    if a != [] {
      var k, l := |a| - 1, |b| - 1;
      assert a[k] in b && b[l] in a;
      WithoutLast(a);
      WithoutLast(b);
      assert a[k] == b[l];
      IncreasingUnique(a[..k], b[..l]);
      assert a == a[..k] + [a[k]] && b == b[..l] + [b[l]];
    }
  }

  /** A number's divisors have one increasing list. */
  lemma SameDivisors(a: seq<int>, b: seq<int>, n: int)
    requires ListsDivisors(a, n) && ListsDivisors(b, n)
    ensures a == b
  {
    IncreasingUnique(a, b);
  }

  /** `sorted` of a set of numbers from 1 to a bound. */
  method SortedList(s: set<int>, bound: int) returns (r: seq<int>)
    requires forall x :: x in s ==> 0 < x <= bound
    ensures Increasing(r) && forall x :: x in r <==> x in s
  {
    r := [];
    var next := 1;
    while next <= bound
      invariant Increasing(r)
      invariant forall x :: x in r <==> x in s && x < next
    {
      assert forall i :: 0 <= i < |r| ==> r[i] in r;
      if next in s {
        r := r + [next];
      }
      next := next + 1;
    }
  }

  lemma DivisorAtMost(d: int, n: int)
    requires n > 0 && Divides(d, n)
    ensures d <= n
  {
    QuotientOf(d, n);
    MulMonotone(1, n / d, d);
  }

  lemma TimesPrime(unique: set<int>, times: set<int>, m: int, p: int, d: int)
    requires IsPrime(p) && m > 0 && forall x :: x in unique <==> Divides(x, m)
    requires forall x :: x in times <==> Divides(p, x) && x / p in unique
    ensures d in unique || d in times <==> Divides(d, m * p)
  {
    if d > 0 {
      DivisorOfTimesPrime(d, m, p);
    } else if Divides(p, d) {
      QuotientOf(p, d);
      MulMonotone(1, d / p, p);
    }
  }

  lemma Multiples(unique: set<int>, p: int, d: int)
    requires p > 0
    ensures d in (set q | q in unique :: q * p) <==> Divides(p, d) && d / p in unique
  {
    if d in (set q | q in unique :: q * p) {
      var q :| q in unique && d == q * p;
      QuotientUnique(q, 0, p);
    }
    if Divides(p, d) {
      QuotientOf(p, d);
      assert d / p * p == d;
    }
  }

  lemma ProductsGrow(unique: set<int>, times: set<int>, m: int, p: int)
    requires IsPrime(p) && m > 0 && forall d :: d in unique <==> Divides(d, m)
    requires times == set q | q in unique :: q * p
    ensures forall d :: d in unique + times <==> Divides(d, m * p)
  {
    forall d
      ensures d in times <==> Divides(p, d) && d / p in unique
    {
      Multiples(unique, p, d);
    }
    forall d
      ensures d in unique + times <==> Divides(d, m * p)
    {
      TimesPrime(unique, times, m, p, d);
    }
  }

  /** `get_possible_products` of the prime factors of n = Product(factors). */
  method GetPossibleProducts(factors: seq<int>) returns (products: seq<int>)
    requires AllPrime(factors)
    ensures ListsDivisors(products, Product(factors))
  {
    var unique := {1};
    for i := 0 to |factors|
      invariant forall d :: d in unique <==> Divides(d, Product(factors[..i]))
    {
      ProductPositive(factors[..i]);
      assert factors[..i + 1][..i] == factors[..i];
      var newProducts := set q | q in unique :: q * factors[i];
      ProductsGrow(unique, newProducts, Product(factors[..i]), factors[i]);
      unique := unique + newProducts;
    }
    assert factors[..|factors|] == factors;
    ProductPositive(factors);
    forall d | d in unique
      ensures d <= Product(factors)
    {
      DivisorAtMost(d, Product(factors));
    }
    products := SortedList(unique, Product(factors));
  }
}
