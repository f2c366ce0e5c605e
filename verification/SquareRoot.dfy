// The integer square root, digit by digit, on unsigned words of any even width.

module SquareRoots {
  import opened Powers

  // While a digit of weight h is to come: S is the root so far, and the root is in S .. S + 2h.
  ghost predicate Rooted(X: nat, S: nat, h: nat, x: nat, res: nat, one: nat) {
    && X == x + S * S && one == h * h && res == 2 * S * h
    && x < 2 * res + 4 * one
  }

  lemma DigitFits(X: nat, S: nat, h: nat, x: nat, res: nat, one: nat)
    requires Rooted(X, S, h, x, res, one) && x >= res + one
    ensures X == x - (res + one) + (S + h) * (S + h) && res + 2 * one == 2 * (S + h) * h
    ensures x - (res + one) < res + 3 * one
  {
    assert (S + h) * (S + h) == S * S + 2 * S * h + h * h;
    assert 2 * (S + h) * h == 2 * S * h + 2 * (h * h);
  }

  // The words stay in range: S + 2h is at most the bound b of roots, and 2h too.
  lemma InRange(S: nat, h: nat, res: nat, one: nat, b: nat)
    requires h > 0 && one == h * h && res == 2 * S * h && S + 2 * h <= b
    ensures res + one <= res + 2 * one < b * b
  {
    assert 2 * S * h + 2 * (h * h) == (S + h) * (2 * h);
    Times(S + h, 2 * h, b);
    Times(b, S + h, b);
    assert (S + h) * b == b * (S + h);
  }

  lemma Times(a: nat, x: nat, y: nat)
    ensures x <= y ==> a * x <= a * y
    ensures x < y && a > 0 ==> a * x < a * y
  {
    if x <= y {
      assert a * y == a * x + a * (y - x);
    }
    if x < y && a > 0 {
      assert a * (y - x) > 0;
    }
  }

  // The next digit has half the weight.
  lemma HalfWeight(S: nat, k: nat)
    requires k > 0
    ensures Pow2(k) * Pow2(k) / 4 == Pow2(k - 1) * Pow2(k - 1)
    ensures 2 * S * Pow2(k) / 2 == 2 * S * Pow2(k - 1)
    ensures Pow2(k) * Pow2(k) == 4 * (Pow2(k - 1) * Pow2(k - 1))
  {
    var g := Pow2(k - 1);
    assert Pow2(k) == 2 * g;
    assert (2 * g) * (2 * g) == 4 * (g * g);
    assert 2 * S * (2 * g) == 2 * (2 * S * g);
  }

  // The largest r whose square is at most x.
  method Sqrt(x0: nat, half: nat) returns (r: nat)
    requires half > 0 && x0 < Pow2(half) * Pow2(half)
    ensures r * r <= x0 < (r + 1) * (r + 1)
  {
    var x, res := x0, 0;
    var one: nat, k := FirstWeight(x, half);
    ghost var S: nat := 0;
    while one != 0
      invariant one > 0 ==> Rooted(x0, S, Pow2(k), x, res, one) && S + 2 * Pow2(k) <= Pow2(half)
      invariant one == 0 ==> res == S && S * S <= x0 < (S + 1) * (S + 1)
      decreases one
    {
      x, res, one, k, S := Digit(x, res, one, x0, k, S, Pow2(half));
    }
    r := res;
  }

  // The highest power of four that is at most x; zero for zero.
  method FirstWeight(x: nat, half: nat) returns (one: nat, ghost k: nat)
    requires half > 0 && x < Pow2(half) * Pow2(half)
    ensures one > 0 ==> one == Pow2(k) * Pow2(k) <= x < 4 * one && 2 * Pow2(k) <= Pow2(half)
    ensures one == 0 ==> x == 0
  {
    one, k := Pow2(half - 1) * Pow2(half - 1), half - 1;
    HalfWeight(0, half);
    while one > x
      invariant one > 0 ==> k < half && one == Pow2(k) * Pow2(k) && x < 4 * one
      invariant one == 0 ==> x == 0
      decreases one
    {
      one, k := Quarter(one, k);
    }
    if one > 0 {
      Pow2Monotone(k + 1, half);
    }
  }

  method Quarter(one: nat, ghost k: nat) returns (quarter: nat, ghost l: nat)
    requires one > 0 && one == Pow2(k) * Pow2(k)
    ensures quarter == one / 4 && l <= k
    ensures one / 4 > 0 ==> quarter == Pow2(l) * Pow2(l) && one == 4 * quarter
    ensures one / 4 == 0 ==> one == 1
  {
    quarter, l := one / 4, if k > 0 then k - 1 else 0;
    if k > 0 {
      HalfWeight(0, k);
      assert Pow2(l) * Pow2(l) > 0;
    }
  }

  // One digit. Nothing leaves the range of the word.
  method Digit(x: nat, res: nat, one: nat, ghost X: nat, ghost k: nat, ghost S: nat, ghost b: nat)
    returns (y: nat, next: nat, weight: nat, ghost l: nat, ghost T: nat)
    requires one > 0 && Rooted(X, S, Pow2(k), x, res, one) && S + 2 * Pow2(k) <= b
    ensures weight < one && l <= k
    ensures weight > 0 ==> Rooted(X, T, Pow2(l), y, next, weight) && T + 2 * Pow2(l) <= b
    ensures weight == 0 ==> next == T && T * T <= X < (T + 1) * (T + 1)
  {
    InRange(S, Pow2(k), res, one, b);
    y, next, T := x, res, S;
    assert res + one < b * b;
    if y >= next + one {
      DigitFits(X, S, Pow2(k), x, res, one);
      y := y - (next + one);
      next := next + 2 * one;
      T := S + Pow2(k);
    }
    assert next < b * b;
    Settled(X, T, k, y, next, one);
    next := next / 2;
    weight := one / 4;
    l := if k > 0 then k - 1 else 0;
  }

  // After its digit a weight is done: the next one takes over, or the root is complete.
  lemma Settled(X: nat, T: nat, k: nat, y: nat, next: nat, one: nat)
    requires X == y + T * T && one == Pow2(k) * Pow2(k) && next == 2 * T * Pow2(k) && y < next + one
    ensures k > 0 ==> Rooted(X, T, Pow2(k - 1), y, next / 2, one / 4) && one / 4 > 0
    ensures k == 0 ==> one == 1 && next / 2 == T && T * T <= X < (T + 1) * (T + 1)
  {
    if k > 0 {
      HalfWeight(T, k);
      assert Pow2(k - 1) * Pow2(k - 1) > 0;
    } else {
      assert Pow2(0) == 1;
      assert (T + 1) * (T + 1) == T * T + 2 * T + 1;
    }
  }

  // The root is determined by its bounds.
  lemma RootUnique(x: nat, r: nat, s: nat)
    requires r * r <= x < (r + 1) * (r + 1) && s * s <= x < (s + 1) * (s + 1)
    ensures r == s
  {
    RootAtMost(x, r, s);
    RootAtMost(x, s, r);
  }

  lemma RootAtMost(x: nat, r: nat, s: nat)
    requires s * s <= x < (r + 1) * (r + 1)
    ensures s <= r
  {
    Squares(r + 1, s);
  }

  lemma Squares(a: nat, b: nat)
    ensures a <= b ==> a * a <= b * b
  {
    Times(a, a, b);
    Times(b, a, b);
  }
}
