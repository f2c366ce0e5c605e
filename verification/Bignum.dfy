// Multi-digit arithmetic, the prime-field operators built on it, and Barrett reduction.

module Bignums {
  import opened Powers
  import opened Digits
  import opened BarrettMath

  // ---- Digit-array routines ----

  // 1 when a is greater, -1 when b is, 0 when they are equal.
  method Compare(a: array<Digit>, b: array<Digit>, size: nat) returns (r: int)
    requires size <= a.Length && size <= b.Length
    ensures r == if Val(a[..size]) > Val(b[..size]) then 1 else if Val(a[..size]) < Val(b[..size]) then -1 else 0
    ensures r == 0 <==> a[..size] == b[..size]
  {
    var i := size - 1;
    while i >= 0
      invariant -1 <= i < size
      invariant forall k :: i < k < size ==> a[k] == b[k]
    {
      if a[i] > b[i] {
        Decides(a[..size], b[..size], i);
        return 1;
      } else if a[i] < b[i] {
        Decides(b[..size], a[..size], i);
        return -1;
      }
      i := i - 1;
    }
    assert a[..size] == b[..size];
    return 0;
  }

  function Bit(b: bool): Digit {
    if b then 1 else 0
  }

  lemma {:induction false} SumTerms(c: nat, a: nat, b: nat, d: nat, e: nat, i: nat)
    requires c + a + b == d + BASE * e
    ensures Term(c, i) + Term(a, i) + Term(b, i) == Term(d, i) + Term(e, i + 1)
  {
    if i > 0 {
      SumTerms(c, a, b, d, e, i - 1);
    }
  }

  // v and the carry c are the sum of the first |v| digits.
  ghost predicate Added(v: seq<Digit>, c: bool, x: seq<Digit>, y: seq<Digit>)
    requires |v| <= |x| && |v| <= |y|
  {
    Val(v) + Term(Bit(c), |v|) == Val(x[..|v|]) + Val(y[..|v|])
  }

  lemma AddDigit(v: seq<Digit>, c: bool, x: seq<Digit>, y: seq<Digit>, d: Digit, e: bool)
    requires |v| < |x| && |v| < |y| && Added(v, c, x, y)
    requires Bit(c) + x[|v|] as nat + y[|v|] as nat == d + BASE * Bit(e)
    ensures Added(v + [d], e, x, y)
  {
    var i := |v|;
    ValPrefix(x, i);
    ValPrefix(y, i);
    ValAppend(v, d);
    SumTerms(Bit(c), x[i], y[i], d, Bit(e), i);
  }

  // res := a + b, digit by digit, and the carry out of the last one; res may be a or b.
  method SimpleAdd(res: array<Digit>, a: array<Digit>, b: array<Digit>, size: nat) returns (carry: bool)
    requires size <= res.Length && size <= a.Length && size <= b.Length
    modifies res
    ensures Val(res[..size]) + Term(Bit(carry), size) == old(Val(a[..size])) + old(Val(b[..size]))
    ensures forall k :: size <= k < res.Length ==> res[k] == old(res[k])
  {
    carry := false;
    ghost var x, y, done := a[..size], b[..size], [];
    var i := 0;
    while i < size
      invariant 0 <= i <= size && |done| == i
      invariant Added(done, carry, x, y)
      invariant forall k :: 0 <= k < i ==> res[k] == done[k]
      invariant forall k :: i <= k < res.Length ==> res[k] == old(res[k])
      invariant forall k :: i <= k < size ==> a[k] == x[k]
      invariant forall k :: i <= k < size ==> b[k] == y[k]
    {
      var tmp: DoubleDigit := Bit(carry) + a[i] as nat + b[i] as nat;
      var digit: Digit, out := tmp % BASE, tmp / BASE != 0;
      assert tmp == digit + BASE * Bit(out);
      AddDigit(done, carry, x, y, digit, out);
      done := done + [digit];
      res[i] := digit;
      carry := out;
      i := i + 1;
    }
    assert x[..size] == x && y[..size] == y && res[..size] == done;
  }

  // v and the borrow c are the difference of the first |v| digits.
  ghost predicate Subtracted(v: seq<Digit>, c: bool, x: seq<Digit>, y: seq<Digit>)
    requires |v| <= |x| && |v| <= |y|
  {
    Val(v) + Val(y[..|v|]) == Val(x[..|v|]) + Term(Bit(c), |v|)
  }

  lemma SubDigit(v: seq<Digit>, c: bool, x: seq<Digit>, y: seq<Digit>, d: Digit, e: bool)
    requires |v| < |x| && |v| < |y| && Subtracted(v, c, x, y)
    requires Bit(c) + d as nat + y[|v|] as nat == x[|v|] + BASE * Bit(e)
    ensures Subtracted(v + [d], e, x, y)
  {
    var i := |v|;
    ValPrefix(x, i);
    ValPrefix(y, i);
    ValAppend(v, d);
    SumTerms(Bit(c), d, y[i], x[i], Bit(e), i);
  }

  // res := a - b, digit by digit, and the borrow out of the last one; res may be a or b.
  method SimpleSub(res: array<Digit>, a: array<Digit>, b: array<Digit>, size: nat) returns (borrow: bool)
    requires size <= res.Length && size <= a.Length && size <= b.Length
    modifies res
    ensures Val(res[..size]) + old(Val(b[..size])) == old(Val(a[..size])) + Term(Bit(borrow), size)
    ensures forall k :: size <= k < res.Length ==> res[k] == old(res[k])
  {
    borrow := false;
    ghost var x, y, done := a[..size], b[..size], [];
    var i := 0;
    while i < size
      invariant 0 <= i <= size && |done| == i
      invariant Subtracted(done, borrow, x, y)
      invariant forall k :: 0 <= k < i ==> res[k] == done[k]
      invariant forall k :: i <= k < res.Length ==> res[k] == old(res[k])
      invariant forall k :: i <= k < size ==> a[k] == x[k]
      invariant forall k :: i <= k < size ==> b[k] == y[k]
    {
      var anow: DoubleDigit := a[i];
      var bnow: DoubleDigit := b[i] as nat + Bit(borrow);
      var out := anow < bnow;
      var digit: Digit := if out then BASE - bnow + anow else anow - bnow;
      SubDigit(done, borrow, x, y, digit, out);
      done := done + [digit];
      res[i] := digit;
      borrow := out;
      i := i + 1;
    }
    assert x[..size] == x && y[..size] == y && res[..size] == done;
  }

  // The value of the three-digit column accumulator.
  function Acc(r0: nat, r1: nat, r2: nat): nat {
    r0 + BASE * (r1 + BASE * r2)
  }

  // The inner loop of the multiplications: adds every product of column i to the accumulator, without losing a
  // carry. The operands are only read, and never overlap the result.
  method AccumulateColumn(x: seq<Digit>, y: seq<Digit>, i: nat, c0: Digit, c1: Digit)
    returns (r0: Digit, r1: Digit, r2: Digit)
    requires |x| < BASE
    ensures Acc(r0, r1, r2) == Acc(c0, c1, 0) + Column(x, y, i, |x|)
    ensures r2 <= |x|
  {
    var s0: DoubleDigit, s1: DoubleDigit, s2: DoubleDigit := c0, c1, 0;
    var j := 0;
    while j < |x| && j <= i
      invariant 0 <= j <= |x| && j <= i + 1
      invariant Acc(s0, s1, s2) == Acc(c0, c1, 0) + Column(x, y, i, j)
      invariant s0 < BASE && s1 < BASE && s2 <= j
    {
      var k := i - j;
      if k < |y| {
        DigitProduct(x[j], y[k]);
        var prod: DoubleDigit := x[j] as nat * y[k] as nat;
        s0 := s0 + prod % BASE;
        s1 := s1 + prod / BASE + s0 / BASE;
        s0 := s0 % BASE;
        s2 := s2 + s1 / BASE;
        s1 := s1 % BASE;
      }
      j := j + 1;
    }
    if j < |x| {
      ColumnStops(x, y, i, |x|);
    }
    r0, r1, r2 := s0, s1, s2;
  }

  lemma DigitProduct(d: Digit, e: Digit)
    ensures 0 <= d as nat * e as nat <= (BASE - 1) * (BASE - 1)
  {
    ProductAtMost(d, e, BASE - 1);
  }

  lemma ProductAtMost(x: nat, y: nat, b: nat)
    requires x <= b && y <= b
    ensures 0 <= x * y <= b * b
  {
    MulMono(0, x, y);
    MulMono(x, b, y);
    MulMono(y, b, b);
  }

  // One column done: its lowest digit is final, the rest is carried on.
  lemma ColumnStep(v: seq<Digit>, x: seq<Digit>, y: seq<Digit>, i: nat, c: nat, d: Digit, e: nat)
    requires |v| == i && Val(v) + Term(c, i) == Columns(x, y, i)
    requires c + Column(x, y, i, |x|) == d + BASE * e
    ensures Val(v + [d]) + Term(e, i + 1) == Columns(x, y, i + 1)
  {
    ValAppend(v, d);
    SumTerms(0, c, Column(x, y, i, |x|), d, e, i);
    TermIs(0, i);
  }

  lemma ProductBound(x: seq<Digit>, y: seq<Digit>)
    ensures Val(x) * Val(y) < Power(|x| + |y|)
  {
    ValBound(x);
    ValBound(y);
    PowerSum(|x|, |y|);
    MulMono(Val(x), Power(|x|), Val(y));
    MulMonoLess(Val(y), Power(|y|), Power(|x|));
    Commute(Power(|x|), Val(y));
    Commute(Power(|x|), Power(|y|));
  }

  // The carry left after all columns but the last digit is that digit.
  lemma LastCarry(v: seq<Digit>, c: nat, n: nat)
    requires |v| == n && Val(v) + Term(c, n) < Power(n + 1)
    ensures c < BASE
  {
    TermTerm(1, 1, n);
    if c >= BASE {
      TermMonotone(BASE, c, n);
    }
  }

  // The columns below i are summed up: done holds their digits, c is carried on.
  ghost predicate Summed(done: seq<Digit>, x: seq<Digit>, y: seq<Digit>, i: nat, c: nat) {
    |done| == i && Val(done) + Term(c, i) == Columns(x, y, i)
  }

  lemma SummedNone(x: seq<Digit>, y: seq<Digit>)
    ensures Summed([], x, y, 0, 0)
  {
    TermIs(0, 0);
  }

  // The next column: its digit, and what is carried on.
  method NextColumn(x: seq<Digit>, y: seq<Digit>, i: nat, c0: Digit, c1: Digit, ghost done: seq<Digit>)
    returns (d: Digit, r0: Digit, r1: Digit)
    requires |x| < BASE && Summed(done, x, y, i, c0 + BASE * c1)
    ensures Summed(done + [d], x, y, i + 1, r0 + BASE * r1)
  {
    d, r0, r1 := AccumulateColumn(x, y, i, c0, c1);
    ColumnStep(done, x, y, i, c0 + BASE * c1, d, r0 + BASE * r1);
  }

  // After all columns but the last digit, the carry is that digit.
  lemma LastDigit(done: seq<Digit>, x: seq<Digit>, y: seq<Digit>, r0: Digit, r1: Digit)
    requires 0 < |x| == |y| && Summed(done, x, y, 2 * |x| - 1, r0 + BASE * r1)
    ensures Val(done + [r0]) == Val(x) * Val(y)
  {
    var n := 2 * |x| - 1;
    ColumnsAreProduct(x, y, n);
    ProductBound(x, y);
    LastCarry(done, r0 + BASE * r1, n);
    ValAppend(done, r0);
  }

  // res := a * b, column by column.
  method SimpleMult(res: array<Digit>, a: seq<Digit>, b: seq<Digit>)
    requires 0 < |a| == |b| < BASE && res.Length == 2 * |a|
    modifies res
    ensures Val(res[..]) == Val(a) * Val(b)
  {
    var size := |a|;
    var r0: Digit, r1: Digit := 0, 0;
    ghost var done := [];
    var i := 0;
    SummedNone(a, b);
    while i < 2 * size - 1
      invariant 0 <= i <= 2 * size - 1 && res[..i] == done
      invariant Summed(done, a, b, i, r0 + BASE * r1)
    {
      var d;
      d, r0, r1 := NextColumn(a, b, i, r0, r1, done);
      res[i] := d;
      assert res[..i + 1] == res[..i] + [d];
      done := done + [d];
      i := i + 1;
    }
    LastDigit(done, a, b, r0, r1);
    res[i] := r0;
    assert res[..] == res[..i] + [r0];
  }

  // The quotient estimate: the high half of (a / BASE^(size-1)) * u.
  method BarrettQuotient(a: seq<Digit>, u: seq<Digit>, size: nat) returns (q: array<Digit>)
    requires 0 < size && size + 1 < BASE && |a| == 2 * size && |u| == size + 1
    ensures fresh(q) && q.Length == size + 1
    ensures Power(size + 1) > 0 && Val(q[..]) == Val(a[size - 1..]) * Val(u) / Power(size + 1)
  {
    q := new Digit[size + 1];
    var r0: Digit, r1: Digit := 0, 0;
    ghost var done := [];
    var i := 0;
    SummedNone(a[size - 1..], u);
    while i < 2 * (size + 1) - 1
      invariant 0 <= i <= 2 * (size + 1) - 1 && |done| == i
      invariant forall k :: size + 1 <= k < i ==> q[k - (size + 1)] == done[k]
      invariant Summed(done, a[size - 1..], u, i, r0 + BASE * r1)
    {
      var d;
      d, r0, r1 := NextColumn(a[size - 1..], u, i, r0, r1, done);
      done := done + [d];
      if i >= size + 1 {
        q[i - (size + 1)] := d;
      }
      i := i + 1;
    }
    LastDigit(done, a[size - 1..], u, r0, r1);
    q[i - (size + 1)] := r0;
    done := done + [r0];
    ValShift(done, size + 1);
    assert q[..] == done[size + 1..];
  }

  // (q * mod) % BASE^(size+1)
  method LowProduct(q: seq<Digit>, mod: seq<Digit>, size: nat) returns (r: array<Digit>)
    requires size + 1 < BASE && |q| == size + 1 && |mod| == size
    ensures fresh(r) && r.Length == size + 1
    ensures Power(size + 1) > 0 && Val(r[..]) == Val(q) * Val(mod) % Power(size + 1)
  {
    r := new Digit[size + 1];
    var r0: Digit, r1: Digit := 0, 0;
    ghost var done := [];
    var i := 0;
    SummedNone(q, mod + [0]);
    while i < size + 1
      invariant 0 <= i <= size + 1 && r[..i] == done
      invariant Summed(done, q, mod + [0], i, r0 + BASE * r1)
    {
      // The modulus reads as zero one digit past its end.
      var d;
      d, r0, r1 := NextColumn(q, mod + [0], i, r0, r1, done);
      r[i] := d;
      assert r[..i + 1] == r[..i] + [d];
      done := done + [d];
      i := i + 1;
    }
    assert r[..] == done;
    LowDigits(done, q, mod, r0 + BASE * r1);
  }

  lemma LowDigits(v: seq<Digit>, q: seq<Digit>, mod: seq<Digit>, c: nat)
    requires Val(v) + Term(c, |v|) == Columns(q, mod + [0], |v|)
    ensures Power(|v|) > 0 && Val(v) == Val(q) * Val(mod) % Power(|v|)
  {
    var n, product := |v|, Val(q) * Val(mod);
    ZeroAbove(mod);
    var k := ColumnsModPower(q, mod + [0], n);
    TermAdd(c, k, n);
    ValBound(v);
    assert product == Val(v) + Term(c + k, n);
    TermRemainder(product, Val(v), c + k, n);
  }

  lemma ZeroAbove(s: seq<Digit>)
    ensures Val(s + [0]) == Val(s)
  {
    ValAppend(s, 0);
    TermIs(0, |s|);
  }

  lemma TermRemainder(total: nat, v: nat, t: nat, n: nat)
    requires total == v + Term(t, n) && v < Power(n)
    ensures Power(n) > 0 && total % Power(n) == v
  {
    TermIs(t, n);
    RemainderIs(total, v, t, Power(n));
  }

  lemma RemainderIs(total: nat, v: nat, t: nat, p: nat)
    requires total == v + t * p && v < p
    ensures total % p == v
  {
    DivUnique(total, p, t);
  }

  // A difference known modulo y, and known to be below y, is known.
  lemma ResidueDifference(a: nat, w: nat, y: nat, v: nat, b: nat)
    requires y > 0 && v < y && w <= a < w + y
    requires v + w % y == a % y + b * y
    ensures v == a - w
  {
    var s, t := a / y, w / y;
    assert a == s * y + a % y && w == t * y + w % y;
    var k := b - s + t;
    assert k * y == b * y - s * y + t * y;
    assert v - (a - w) == k * y;
    if k > 0 {
      MulMono(1, k, y);
    } else if k < 0 {
      MulMono(k, -1, y);
    }
  }

  // One subtraction of the modulus from size + 1 digits.
  method SubtractModulus(r: array<Digit>, mod: array<Digit>, size: nat)
    requires r.Length == size + 1 && size <= mod.Length && r != mod
    requires Val(r[..]) >= Val(mod[..size])
    modifies r
    ensures Val(r[..]) == old(Val(r[..])) - Val(mod[..size])
  {
    ghost var before := r[..];
    TopSplit(before, size);
    assert r[..size] == before[..size];
    var borrow := SimpleSub(r, r, mod, size);
    assert r[size] == before[size];
    NoBorrowFromNothing(r[..size], Val(before[..size]), Val(mod[..size]), size, before[size], borrow);
    ghost var low := r[..size];
    if borrow {
      r[size] := r[size] - 1;
    }
    TopSplit(r[..], size);
    assert r[..][..size] == low;
  }

  lemma TopSplit(r: seq<Digit>, size: nat)
    requires |r| == size + 1
    ensures Val(r) == Val(r[..size]) + Term(r[size], size)
  {
    assert r == r[..size] + [r[size]];
    ValAppend(r[..size], r[size]);
  }

  lemma NoBorrowFromNothing(low: seq<Digit>, was: nat, m: nat, size: nat, top: Digit, borrow: bool)
    requires |low| == size && Val(low) + m == was + Term(Bit(borrow), size)
    requires was + Term(top, size) >= m
    ensures borrow ==> top > 0 && Term(top, size) == Term(top - 1, size) + Power(size)
    ensures !borrow ==> Term(Bit(borrow), size) == 0
  {
    ValBound(low);
    TermIs(0, size);
    if borrow {
      if top > 0 {
        TermAdd(top - 1, 1, size);
      }
    }
  }

  // u is floor(BASE^(2 * size) / mod), and mod uses its top digit.
  ghost predicate Reciprocal(u: seq<Digit>, mod: seq<Digit>, size: nat) {
    && size > 0 && |mod| == size && |u| == size + 1
    && Power(size - 1) <= Val(mod)
    && Val(u) * Val(mod) <= Power(2 * size) < Val(u) * Val(mod) + Val(mod)
  }

  // The estimated quotient is at most two below the exact one.
  lemma EstimateBounds(a: seq<Digit>, mod: seq<Digit>, u: seq<Digit>, size: nat, q: nat)
    requires Reciprocal(u, mod, size) && |a| == 2 * size
    requires Power(size + 1) > 0 && q == Val(a[size - 1..]) * Val(u) / Power(size + 1)
    ensures 0 < Val(mod) && q * Val(mod) <= Val(a) < q * Val(mod) + 3 * Val(mod) && 3 * Val(mod) <= Power(size + 1)
  {
    var x, y, q1, m := Power(size - 1), Power(size + 1), Val(a[size - 1..]), Val(mod);
    PowerPositive(size - 1);
    PowerSum(size - 1, size + 1);
    ValBound(a);
    ValShift(a, size - 1);
    FloorOf(Val(a), x, q1);
    FloorOf(q1 * Val(u), y, q);
    EstimateIsClose(Val(a), m, x, y, Val(u), q1, q);
    ValBound(mod);
    TermTerm(1, 1, size);
    TermMonotone(3, BASE, size);
    TermIs(3, size);
  }

  lemma FloorOf(n: nat, d: nat, q: nat)
    requires d > 0 && q == n / d
    ensures q * d <= n < q * d + d
  {
    assert n == d * (n / d) + n % d;
    Commute(d, q);
  }

  lemma AtLeastModulus(r: seq<Digit>, size: nat, mod: seq<Digit>)
    requires |r| == size + 1 && |mod| == size
    requires r[size] > 0 || Val(r[..size]) >= Val(mod)
    ensures Val(r) >= Val(mod)
  {
    assert r == r[..size] + [r[size]];
    ValAppend(r[..size], r[size]);
    ValBound(mod);
    if r[size] > 0 {
      TermMonotone(1, r[size], size);
    }
  }

  lemma LeadingZero(r: seq<Digit>, size: nat)
    requires |r| == size + 1 && r[size] == 0
    ensures Val(r) == Val(r[..size])
  {
    assert r == r[..size] + [r[size]];
    ValAppend(r[..size], 0);
    TermIs(0, size);
  }

  // The difference left for the final loop.
  lemma Remaining(r: seq<Digit>, a: seq<Digit>, w: nat, size: nat, borrow: bool)
    requires |r| == size + 1 <= |a|
    requires Power(size + 1) > 0 && w <= Val(a) < w + Power(size + 1)
    requires Val(r) + w % Power(size + 1) == Val(a[..size + 1]) + Term(Bit(borrow), size + 1)
    ensures Val(r) == Val(a) - w
  {
    ValShift(a, size + 1);
    ValBound(r);
    TermIs(Bit(borrow), size + 1);
    ResidueDifference(Val(a), w, Power(size + 1), Val(r), Bit(borrow));
  }

  // n * m by repeated addition.
  ghost function Multiple(n: nat, m: nat): nat {
    if n == 0 then 0 else Multiple(n - 1, m) + m
  }

  lemma {:induction false} MultipleIs(n: nat, m: nat)
    ensures Multiple(n, m) == n * m
  {
    if n > 0 {
      MultipleIs(n - 1, m);
      Distribute(m, n - 1, 1);
    }
  }

  // d has x's remainder and is less than three moduli.
  ghost predicate PartlyReduced(d: nat, x: nat, m: nat) {
    m > 0 && d < 3 * m && d % m == x % m
  }

  lemma PartRemainder(d: nat, x: nat, m: nat, q: nat)
    requires m > 0 && q * m <= x < q * m + 3 * m && d == x - q * m
    ensures PartlyReduced(d, x, m)
  {
    var k := d / m;
    assert d == k * m + d % m;
    assert (q + k) * m == q * m + k * m;
    DivUnique(x, m, q + k);
  }

  // The low digits of a minus the low digits of the estimate's multiple of the modulus.
  lemma ReductionStep(x: seq<Digit>, mod: seq<Digit>, u: seq<Digit>, size: nat, q: nat, low: nat, d: seq<Digit>, b: bool)
    requires Reciprocal(u, mod, size) && |x| == 2 * size && |d| == size + 1
    requires Power(size + 1) > 0 && q == Val(x[size - 1..]) * Val(u) / Power(size + 1)
    requires low == q * Val(mod) % Power(size + 1)
    requires Val(d) + low == Val(x[..size + 1]) + Term(Bit(b), size + 1)
    ensures PartlyReduced(Val(d), Val(x), Val(mod))
  {
    EstimateBounds(x, mod, u, size, q);
    Remaining(d, x, q * Val(mod), size, b);
    PartRemainder(Val(d), Val(x), Val(mod), q);
  }

  lemma FinalRemainder(d: nat, x: nat, m: nat, n: nat, v: nat)
    requires PartlyReduced(d, x, m) && v < m && v + Multiple(n, m) == d
    ensures v == x % m && n <= 2
  {
    MultipleIs(n, m);
    DivUnique(d, m, n);
    if n > 2 {
      MulMono(3, n, m);
    }
  }

  // r, of one digit more than the modulus, is brought below it.
  method SubtractWhileLarge(r: array<Digit>, mod: array<Digit>, size: nat) returns (ghost n: nat)
    requires r.Length == size + 1 && size == mod.Length && r != mod && Val(mod[..]) > 0
    modifies r
    ensures Val(r[..size]) < Val(mod[..])
    ensures Val(r[..size]) + Multiple(n, Val(mod[..])) == old(Val(r[..]))
  {
    n := 0;
    ghost var m, start := Val(mod[..]), Val(r[..]);
    assert mod[..size] == mod[..];
    var c := Compare(r, mod, size);
    while r[size] > 0 || c >= 0
      invariant Val(r[..]) + Multiple(n, m) == start
      invariant c == if Val(r[..size]) > m then 1 else if Val(r[..size]) < m then -1 else 0
      decreases Val(r[..])
    {
      assert r[..][..size] == r[..size];
      AtLeastModulus(r[..], size, mod[..]);
      SubtractModulus(r, mod, size);
      n := n + 1;
      c := Compare(r, mod, size);
    }
    assert r[..][..size] == r[..size];
    LeadingZero(r[..], size);
  }

  method CopyDigits(res: array<Digit>, r: array<Digit>)
    requires res.Length <= r.Length
    modifies res
    ensures res[..] == old(r[..res.Length])
  {
    var i := 0;
    while i < res.Length
      invariant 0 <= i <= res.Length
      invariant forall k :: 0 <= k < i ==> res[k] == old(r[k])
      invariant forall k :: i <= k < r.Length ==> r[k] == old(r[k])
    {
      res[i] := r[i];
      i := i + 1;
    }
  }

  // a, of twice the modulus' size, is reduced into res.
  method BarrettReduction(res: array<Digit>, a: array<Digit>, mod: array<Digit>, u: seq<Digit>, size: nat)
      returns (ghost subtractions: nat)
    requires 0 < size && 2 * size + 1 < BASE && a.Length == 2 * size && res.Length == size == mod.Length
    requires res != mod && Reciprocal(u, mod[..], size)
    modifies res
    ensures Val(mod[..]) > 0 && Val(res[..]) == old(Val(a[..])) % Val(mod[..])
    ensures subtractions <= 2
  {
    ghost var m, x := mod[..], a[..];
    var q := BarrettQuotient(a[..], u, size);
    var r := LowProduct(q[..], mod[..], size);
    ghost var e, low := Val(q[..]), Val(r[..]);
    PowerPositive(size + 1);
    assert a[..size + 1] == x[..size + 1] && r[..size + 1] == r[..];
    var borrow := SimpleSub(r, a, r, size + 1);
    ghost var d := r[..];
    assert r[..size + 1] == d;
    ReductionStep(x, m, u, size, e, low, d, borrow);
    subtractions := SubtractWhileLarge(r, mod, size);
    FinalRemainder(Val(d), Val(x), Val(m), subtractions, Val(r[..size]));
    CopyDigits(res, r);
  }
}
