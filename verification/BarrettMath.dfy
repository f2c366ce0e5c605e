// Why Barrett's quotient estimate is at most two too small.

module BarrettMath {

  // x = 2^32^(k-1), y = 2^32^(k+1), m the modulus, u the precomputed reciprocal, a the number to reduce.
  lemma EstimateIsClose(a: nat, m: nat, x: nat, y: nat, u: nat, q1: nat, q: nat)
    requires 0 < x <= m && 0 < y && a < x * y
    requires u * m <= x * y < u * m + m
    requires q1 * x <= a < q1 * x + x
    requires q * y <= q1 * u < q * y + y
    ensures q * m <= a < q * m + 3 * m
  {
    EstimateIsLow(a, m, x, y, u, q1, q);
    EstimateIsHigh(a, m, x, y, u, q1, q);
  }

  lemma EstimateIsLow(a: nat, m: nat, x: nat, y: nat, u: nat, q1: nat, q: nat)
    requires 0 < x && 0 < y
    requires u * m <= x * y && q1 * x <= a && q * y <= q1 * u
    ensures q * m <= a
  {
    calc <= {
      q * m * y;
    == { Swap(q, m, y); }
      q * y * m;
    <= { MulMono(q * y, q1 * u, m); }
      q1 * u * m;
    == { Assoc(q1, u, m); }
      q1 * (u * m);
    <= { MulMono(u * m, x * y, q1); }
      q1 * (x * y);
    == { Assoc(q1, x, y); }
      q1 * x * y;
    <= { MulMono(q1 * x, a, y); }
      a * y;
    }
    MulCancel(q * m, a, y);
  }

  lemma EstimateIsHigh(a: nat, m: nat, x: nat, y: nat, u: nat, q1: nat, q: nat)
    requires 0 < x <= m && 0 < y && a < x * y
    requires x * y < u * m + m && a < q1 * x + x && q1 * x <= a && q1 * u < q * y + y
    ensures a < q * m + 3 * m
  {
    assert q1 < y by {
      assert q1 * x < y * x;
      MulCancelLess(q1, y, x);
    }
    calc < {
      a * y;
    <  { MulMonoLess(a, q1 * x + x, y); }
      (q1 * x + x) * y;
    == { Spread(q1, x, y); }
      q1 * (x * y) + x * y;
    <= { MulMono(x * y, u * m + m, q1); }
      q1 * (u * m + m) + x * y;
    == { Spread2(q1, u, m); }
      q1 * u * m + q1 * m + x * y;
    <= { MulMono(q1, y, m); MulMono(x, m, y); assert y * m == m * y; }
      q1 * u * m + y * m + y * m;
    <= { MulMono(q1 * u, q * y + y, m); }
      (q * y + y) * m + y * m + y * m;
    == { Collect(q, y, m); }
      (q * m + 3 * m) * y;
    }
    MulCancelLess(a, q * m + 3 * m, y);
  }

  lemma Swap(a: int, b: int, c: int)
    ensures a * b * c == a * c * b
  {
  }

  lemma Assoc(a: int, b: int, c: int)
    ensures a * b * c == a * (b * c)
  {
  }

  lemma Spread(a: int, b: int, c: int)
    ensures (a * b + b) * c == a * (b * c) + b * c
  {
  }

  lemma Spread2(a: int, b: int, c: int)
    ensures a * (b * c + c) == a * b * c + a * c
  {
  }

  lemma Collect(q: int, y: int, m: int)
    ensures (q * y + y) * m + y * m + y * m == (q * m + 3 * m) * y
  {
  }

  lemma MulMono(a: int, b: int, c: nat)
    requires a <= b
    ensures a * c <= b * c && c * a <= c * b
  {
    assert (b - a) * c >= 0;
    assert (b - a) * c == b * c - a * c;
  }

  lemma MulMonoLess(a: int, b: int, c: nat)
    requires a < b && c > 0
    ensures a * c < b * c
  {
    MulMono(a + 1, b, c);
    assert (a + 1) * c == a * c + c;
  }

  lemma MulCancel(a: int, b: int, c: nat)
    requires c > 0 && a * c <= b * c
    ensures a <= b
  {
    if a > b {
      MulMonoLess(b, a, c);
    }
  }

  lemma MulCancelLess(a: int, b: int, c: nat)
    requires c > 0 && a * c < b * c
    ensures a < b
  {
    if a >= b {
      MulMono(b, a, c);
    }
  }
}
