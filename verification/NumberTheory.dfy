// Divisibility and congruence facts behind the binary extended Euclidean algorithm.

module NumberTheory {
  import opened Powers

  predicate Divides(d: nat, a: int)
    requires d > 0
  {
    a % d == 0
  }

  lemma ProductSign(t: int, d: nat)
    requires d > 0
    ensures t >= 1 ==> t * d >= d
    ensures t <= -1 ==> t * d + d <= 0
  {
    if t >= 1 {
      MulAtLeast(t, d);
    }
    if t <= -1 {
      MulAtLeast(-t, d);
      assert t * d == -(-t * d);
    }
  }

  lemma MultipleDivides(d: nat, k: int)
    requires d > 0
    ensures Divides(d, k * d)
  {
    IntDivUnique(k * d, d, k, 0);
  }

  lemma Factor(d: nat, a: int) returns (k: int)
    requires d > 0 && Divides(d, a)
    ensures a == k * d
  {
    k := a / d;
    assert a == d * (a / d) + a % d;
  }

  lemma DividesSum(d: nat, a: int, b: int)
    requires d > 0 && Divides(d, a) && Divides(d, b)
    ensures Divides(d, a + b) && Divides(d, a - b)
  {
    var i := Factor(d, a);
    var j := Factor(d, b);
    assert a + b == (i + j) * d && a - b == (i - j) * d;
    MultipleDivides(d, i + j);
    MultipleDivides(d, i - j);
  }

  lemma DividesTimes(d: nat, a: int, k: int)
    requires d > 0 && Divides(d, a)
    ensures Divides(d, k * a)
  {
    var i := Factor(d, a);
    assert k * a == (k * i) * d;
    MultipleDivides(d, k * i);
  }

  // An odd number that divides twice a number divides the number.
  lemma OddDividesHalf(d: nat, a: int)
    requires d % 2 == 1 && Divides(d, 2 * a)
    ensures Divides(d, a)
  {
    var k := Factor(d, 2 * a);
    var e := d / 2;
    OddProduct(k, e);
    assert k % 2 == 0;
    var h := k / 2;
    OddProduct(h, e);
    assert a == h * d;
    MultipleDivides(d, h);
  }

  lemma OddProduct(k: int, e: int)
    ensures k * (2 * e + 1) == 2 * (k * e) + k
    ensures (2 * k) * e == 2 * (k * e)
  {
  }

  lemma DivisorOfOddIsOdd(d: nat, a: nat)
    requires d > 0 && a % 2 == 1 && Divides(d, a)
    ensures d % 2 == 1
  {
    var k := Factor(d, a);
    assert k * d == 2 * (k * (d / 2)) + k * (d % 2);
  }

  // g is the greatest common divisor: its divisors are the common divisors.
  ghost predicate IsGcd(g: nat, a: nat, b: nat) {
    g > 0 && forall d: nat :: d > 0 ==> (Divides(d, g) <==> Divides(d, a) && Divides(d, b))
  }

  ghost predicate Coprime(a: nat, b: nat) {
    forall d: nat :: d > 1 ==> !(Divides(d, a) && Divides(d, b))
  }

  ghost predicate Prime(p: nat) {
    p > 1 && forall d: nat :: 1 < d < p ==> !Divides(d, p)
  }

  lemma DivisorAtMost(d: nat, a: nat)
    requires d > 0 && a > 0 && Divides(d, a)
    ensures d <= a
  {
    var k := Factor(d, a);
    assert k == 0 ==> k * d == 0;
    ProductSign(k, d);
  }

  lemma GcdIsOne(g: nat, a: nat, b: nat)
    requires IsGcd(g, a, b)
    ensures Coprime(a, b) <==> g == 1
  {
    if g > 1 {
      MultipleDivides(g, 1);
    }
    if g == 1 {
      forall d: nat | d > 1
        ensures !(Divides(d, a) && Divides(d, b))
      {
        if Divides(d, 1) {
          DivisorAtMost(d, 1);
        }
      }
    }
  }

  lemma PrimeIsCoprime(p: nat, x: nat)
    requires Prime(p) && 0 < x < p
    ensures Coprime(x, p)
  {
    forall d: nat | d > 1
      ensures !(Divides(d, x) && Divides(d, p))
    {
      if Divides(d, x) {
        DivisorAtMost(d, x);
      }
    }
  }

  lemma CongruentResidues(a: int, b: nat, m: nat)
    requires m > 0 && Divides(m, a - b)
    ensures a % m == b % m
  {
    var k := Factor(m, a - b);
    var q := b / m;
    assert b == m * q + b % m;
    assert a == (k + q) * m + b % m;
    IntDivUnique(a, m, k + q, b % m);
  }

  lemma IntDivUnique(a: int, m: nat, k: int, r: nat)
    requires m > 0 && a == k * m + r && r < m
    ensures a % m == r
  {
    var q := a / m;
    assert a == m * q + a % m;
    assert r - a % m == (q - k) * m;
    ProductSign(q - k, m);
  }

  // ---- The state of the algorithm ----

  // a and r are the multipliers of x that give u and v modulo m; u and v keep the common divisors of x and m.
  ghost predicate Bezout(a: nat, r: nat, u: nat, v: nat, x: nat, m: nat) {
    && a < m && r < m
    && Divides(m, a * x - u) && Divides(m, r * x - v)
    && forall d: nat :: d > 0 ==> (Divides(d, u) && Divides(d, v) <==> Divides(d, x) && Divides(d, m))
  }

  function Half(a: nat, m: nat): nat {
    if a % 2 == 0 then a / 2 else (a + m) / 2
  }

  lemma TimesSum(a: int, b: int, x: int)
    ensures (a + b) * x == a * x + b * x
    ensures (a - b) * x == a * x - b * x
  {
  }

  lemma HalfMultiplier(a: nat, u: nat, x: nat, m: nat)
    requires m % 2 == 1 && a < m && u % 2 == 0 && Divides(m, a * x - u)
    ensures Half(a, m) < m && Divides(m, Half(a, m) * x - u / 2)
  {
    var h, w := Half(a, m), u / 2;
    TimesSum(h, h, x);
    if a % 2 == 0 {
      assert h + h == a;
      assert 2 * (h * x - w) == a * x - u;
    } else {
      assert h + h == a + m;
      TimesSum(a, m, x);
      MultipleDivides(m, x);
      DividesSum(m, a * x - u, x * m);
      assert 2 * (h * x - w) == a * x - u + x * m;
    }
    OddDividesHalf(m, h * x - w);
  }

  lemma HalveStep(a: nat, r: nat, u: nat, v: nat, x: nat, m: nat)
    requires m % 2 == 1 && Bezout(a, r, u, v, x, m) && u % 2 == 0 && v % 2 == 1
    ensures Bezout(Half(a, m), r, u / 2, v, x, m)
  {
    HalfMultiplier(a, u, x, m);
    forall d: nat | d > 0
      ensures Divides(d, u / 2) && Divides(d, v) <==> Divides(d, u) && Divides(d, v)
    {
      if Divides(d, u / 2) {
        DividesTimes(d, u / 2, 2);
      }
      if Divides(d, u) && Divides(d, v) {
        DivisorOfOddIsOdd(d, v);
        OddDividesHalf(d, u / 2);
      }
    }
  }

  function Difference(a: nat, r: nat, m: nat): int {
    if a >= r then a - r else a - r + m
  }

  lemma DifferenceMultiplier(a: nat, r: nat, u: nat, v: nat, x: nat, m: nat)
    requires m > 0 && Divides(m, a * x - u) && Divides(m, r * x - v)
    ensures Divides(m, Difference(a, r, m) * x - (u - v))
  {
    var e := (a * x - u) - (r * x - v);
    DividesSum(m, a * x - u, r * x - v);
    TimesSum(a, r, x);
    if a < r {
      MultipleDivides(m, x);
      DividesSum(m, e, x * m);
      TimesSum(a - r, m, x);
      assert Difference(a, r, m) * x - (u - v) == e + x * m;
    } else {
      assert Difference(a, r, m) * x - (u - v) == e;
    }
  }

  lemma SubtractStep(a: nat, r: nat, u: nat, v: nat, x: nat, m: nat)
    requires Bezout(a, r, u, v, x, m) && u >= v
    ensures Bezout(Difference(a, r, m), r, u - v, v, x, m)
  {
    DifferenceMultiplier(a, r, u, v, x, m);
    forall d: nat | d > 0
      ensures Divides(d, u - v) && Divides(d, v) <==> Divides(d, u) && Divides(d, v)
    {
      SameDivisors(d, u, v);
    }
  }

  lemma SameDivisors(d: nat, u: nat, v: nat)
    requires d > 0
    ensures Divides(d, u - v) && Divides(d, v) <==> Divides(d, u) && Divides(d, v)
  {
    if Divides(d, u - v) && Divides(d, v) {
      DividesSum(d, u - v, v);
    }
    if Divides(d, u) && Divides(d, v) {
      DividesSum(d, u, v);
    }
  }

  lemma BezoutSwap(a: nat, r: nat, u: nat, v: nat, x: nat, m: nat)
    requires Bezout(a, r, u, v, x, m)
    ensures Bezout(r, a, v, u, x, m)
  {
  }

  lemma BezoutStart(x: nat, m: nat)
    requires m > 1
    ensures Bezout(1, 0, x, m, x, m)
  {
    MultipleDivides(m, 0);
    MultipleDivides(m, -1);
  }

  lemma BezoutEnd(a: nat, r: nat, v: nat, x: nat, m: nat)
    requires m > 0 && v > 0 && Bezout(a, r, 0, v, x, m)
    ensures IsGcd(v, x, m) && r * x % m == v % m
  {
    CongruentResidues(r * x, v, m);
    forall d: nat | d > 0
      ensures Divides(d, v) <==> Divides(d, x) && Divides(d, m)
    {
      MultipleDivides(d, 0);
    }
  }

  // A multiplier that reaches the greatest common divisor is an inverse exactly for coprime numbers.
  lemma InverseIffCoprime(p: nat, x: nat, m: nat, g: nat)
    requires m > 1 && IsGcd(g, x, m) && p == g % m
    ensures p == 1 <==> Coprime(x, m)
    ensures Prime(m) && 0 < x < m ==> p == 1
  {
    GcdIsOne(g, x, m);
    GcdAtMost(g, x, m);
    DivUnique(g, m, if g == m then 1 else 0);
    if Prime(m) && 0 < x < m {
      PrimeIsCoprime(m, x);
    }
  }

  lemma GcdAtMost(g: nat, x: nat, m: nat)
    requires m > 0 && IsGcd(g, x, m)
    ensures g <= m
  {
    MultipleDivides(g, 1);
    DivisorAtMost(g, m);
  }
}
