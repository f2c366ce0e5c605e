// Little-endian numbers in base 2^32, and the column sums of a schoolbook product.

module Digits {
  import opened Powers

  const BASE: nat := 0x1_0000_0000

  type Digit = d: nat | d < BASE

  // An unsigned 64-bit integer.
  type DoubleDigit = d: nat | d < 0x1_0000_0000_0000_0000

  // d * BASE^n
  function Term(d: nat, n: nat): nat {
    if n == 0 then d else BASE * Term(d, n - 1)
  }

  function Power(n: nat): nat {
    Term(1, n)
  }

  function Val(s: seq<Digit>): nat {
    if s == [] then 0 else Val(s[..|s| - 1]) + Term(s[|s| - 1], |s| - 1)
  }

  // ---- Terms ----

  lemma {:induction false} TermIs(d: nat, n: nat)
    ensures Term(d, n) == d * Power(n)
  {
    if n > 0 {
      TermIs(d, n - 1);
    }
  }

  lemma {:induction false} TermAdd(d: nat, e: nat, n: nat)
    ensures Term(d + e, n) == Term(d, n) + Term(e, n)
  {
    if n > 0 {
      TermAdd(d, e, n - 1);
    }
  }

  lemma {:induction false} TermTerm(d: nat, i: nat, j: nat)
    ensures Term(Term(d, i), j) == Term(d, i + j)
  {
    if j > 0 {
      TermTerm(d, i, j - 1);
    }
  }

  lemma TermTimes(k: nat, d: nat, n: nat)
    ensures Term(k * d, n) == k * Term(d, n)
  {
    TermIs(d, n);
    TermIs(k * d, n);
    Associate(k, d, Power(n));
  }

  lemma {:induction false} TermMonotone(d: nat, e: nat, n: nat)
    requires d <= e
    ensures Term(d, n) <= Term(e, n)
    ensures d < e ==> Term(d, n) + Power(n) <= Term(e, n)
  {
    if n > 0 {
      TermMonotone(d, e, n - 1);
    }
  }

  lemma {:induction false} PowerPositive(n: nat)
    ensures Power(n) > 0
  {
    if n > 0 {
      PowerPositive(n - 1);
    }
  }

  lemma PowerSum(i: nat, j: nat)
    ensures Power(i + j) == Power(i) * Power(j)
  {
    TermTerm(1, i, j);
    TermIs(Power(i), j);
  }

  lemma Associate(x: int, y: int, z: int)
    ensures x * y * z == x * (y * z)
  {
  }

  lemma Distribute(x: int, y: int, z: int)
    ensures x * (y + z) == x * y + x * z
  {
  }

  lemma TermScale(d: nat, low: nat, high: nat, i: nat, c: nat)
    ensures Term(d * (low + Term(high, i)), c) == Term(d * low, c) + Term(d * high, i + c)
  {
    var t := Term(high, i);
    Distribute(d, low, t);
    TermTimes(d, high, i);
    TermAdd(d * low, d * t, c);
    TermTerm(d * high, i, c);
  }

  lemma ScaleTerm(low: nat, d: nat, n: nat, v: nat)
    ensures (low + Term(d, n)) * v == low * v + Term(d * v, n)
  {
    var t := Term(d, n);
    Distribute(v, low, t);
    TermTimes(v, d, n);
    Commute(v, d);
    Commute(v, t);
    Commute(v, low);
    Commute(v, low + t);
  }

  lemma Commute(x: int, y: int)
    ensures x * y == y * x
  {
  }

  // ---- Values ----

  lemma ValAppend(s: seq<Digit>, d: Digit)
    ensures Val(s + [d]) == Val(s) + Term(d, |s|)
  {
    assert (s + [d])[..|s|] == s;
  }

  lemma ValPrefix(s: seq<Digit>, i: nat)
    requires i < |s|
    ensures Val(s[..i + 1]) == Val(s[..i]) + Term(s[i], i)
  {
    assert s[..i + 1] == s[..i] + [s[i]];
    ValAppend(s[..i], s[i]);
  }

  lemma {:induction false} ValBound(s: seq<Digit>)
    ensures Val(s) < Power(|s|)
  {
    if s != [] {
      var n := |s| - 1;
      ValBound(s[..n]);
      TermMonotone(s[n], BASE - 1, n);
      TermAdd(BASE - 1, 1, n);
      TermTerm(1, 1, n);
    }
  }

  lemma {:induction false} ValSplit(s: seq<Digit>, c: nat)
    requires c <= |s|
    ensures Val(s) == Val(s[..c]) + Term(Val(s[c..]), c)
    decreases |s|
  {
    if c == |s| {
      assert s[..c] == s && s[c..] == [];
      TermIs(0, c);
    } else {
      var n := |s| - 1;
      ValSplit(s[..n], c);
      assert s[..n][..c] == s[..c];
      var t := s[c..];
      assert t[..|t| - 1] == s[..n][c..];
      TermAdd(Val(s[..n][c..]), Term(s[n], n - c), c);
      TermTerm(s[n], n - c, c);
    }
  }

  // Dividing by a power of the base drops low digits; the remainder is the dropped digits.
  lemma ValShift(s: seq<Digit>, c: nat)
    requires c <= |s|
    ensures Power(c) > 0
    ensures Val(s) / Power(c) == Val(s[c..]) && Val(s) % Power(c) == Val(s[..c])
  {
    ValSplit(s, c);
    ValBound(s[..c]);
    TermIs(Val(s[c..]), c);
    DivUnique(Val(s), Power(c), Val(s[c..]));
  }

  lemma TopDecides(s: seq<Digit>, t: seq<Digit>)
    requires |s| == |t| > 0 && s[|s| - 1] > t[|s| - 1]
    ensures Val(s) > Val(t)
  {
    var n := |s| - 1;
    ValBound(t[..n]);
    TermMonotone(t[n], s[n], n);
  }

  // The most significant difference decides.
  lemma {:induction false} Decides(s: seq<Digit>, t: seq<Digit>, i: nat)
    requires |s| == |t| && i < |s| && s[i] > t[i]
    requires forall k :: i < k < |s| ==> s[k] == t[k]
    ensures Val(s) > Val(t)
    decreases |s|
  {
    var n := |s| - 1;
    if i == n {
      TopDecides(s, t);
    } else {
      Decides(s[..n], t[..n], i);
    }
  }

  // ---- Column sums ----

  // What the first j digits of x put in column i of the product with y.
  function Column(x: seq<Digit>, y: seq<Digit>, i: nat, j: nat): nat
    requires j <= |x|
  {
    if j == 0 then 0
    else Column(x, y, i, j - 1) + (if j - 1 <= i && i - (j - 1) < |y| then x[j - 1] as nat * y[i - (j - 1)] as nat else 0)
  }

  // The value of the first n columns.
  function Columns(x: seq<Digit>, y: seq<Digit>, n: nat): nat {
    if n == 0 then 0 else Columns(x, y, n - 1) + Term(Column(x, y, n - 1, |x|), n - 1)
  }

  lemma {:induction false} ColumnPrefix(x: seq<Digit>, y: seq<Digit>, i: nat, j: nat, d: Digit)
    requires j <= |x|
    ensures Column(x + [d], y, i, j) == Column(x, y, i, j)
  {
    if j > 0 {
      ColumnPrefix(x, y, i, j - 1, d);
    }
  }

  lemma {:induction false} ColumnStops(x: seq<Digit>, y: seq<Digit>, i: nat, j: nat)
    requires i < j <= |x|
    ensures Column(x, y, i, j) == Column(x, y, i, i + 1)
  {
    if j > i + 1 {
      ColumnStops(x, y, i, j - 1);
    }
  }

  // The digits of y that reach the first n columns when shifted by c.
  function Reach(y: seq<Digit>, c: nat, n: nat): seq<Digit> {
    if n <= c then [] else if n - c >= |y| then y else y[..n - c]
  }

  // The digit of y that lands in column i when shifted by c.
  function Landing(y: seq<Digit>, c: nat, i: nat): Digit {
    if c <= i < c + |y| then y[i - c] else 0
  }

  // One more column reaches one more digit of y, or none.
  lemma ReachNext(y: seq<Digit>, c: nat, i: nat)
    ensures i >= c ==> Val(Reach(y, c, i + 1)) == Val(Reach(y, c, i)) + Term(Landing(y, c, i), i - c)
    ensures i < c ==> Val(Reach(y, c, i + 1)) == Val(Reach(y, c, i)) == 0
  {
    if c <= i < c + |y| {
      ValPrefix(y, i - c);
      assert Reach(y, c, i + 1) == y[..i - c + 1] && Reach(y, c, i) == y[..i - c];
    } else if c <= i {
      TermIs(0, i - c);
    }
  }

  lemma ReachTerm(y: seq<Digit>, c: nat, i: nat, d: Digit)
    ensures Term(d * Val(Reach(y, c, i + 1)), c)
         == Term(d * Val(Reach(y, c, i)), c) + Term(d as nat * Landing(y, c, i) as nat, i)
  {
    ReachNext(y, c, i);
    if i < c {
      TermIs(0, i);
    } else {
      TermScale(d, Val(Reach(y, c, i)), Landing(y, c, i), i - c, c);
    }
  }

  lemma {:induction false} ColumnsAppend(x: seq<Digit>, y: seq<Digit>, n: nat, d: Digit)
    ensures Columns(x + [d], y, n) == Columns(x, y, n) + Term(d * Val(Reach(y, |x|, n)), |x|)
  {
    if n == 0 {
      TermIs(0, |x|);
    } else {
      var c, i := |x|, n - 1;
      ColumnsAppend(x, y, i, d);
      ColumnPrefix(x, y, i, c, d);
      ReachTerm(y, c, i, d);
      TermAdd(Column(x, y, i, c), d as nat * Landing(y, c, i) as nat, i);
    }
  }

  // All columns together are the product.
  lemma {:induction false} ColumnsAreProduct(x: seq<Digit>, y: seq<Digit>, n: nat)
    requires n + 1 >= |x| + |y|
    ensures Columns(x, y, n) == Val(x) * Val(y)
    decreases |x|
  {
    if x == [] {
      NoColumns(y, n);
    } else {
      var c := |x| - 1;
      ColumnsAreProduct(x[..c], y, n);
      assert x == x[..c] + [x[c]];
      ColumnsAppend(x[..c], y, n, x[c]);
      assert Val(Reach(y, c, n)) == Val(y);
      ProductAppend(x[..c], x[c], Val(y));
    }
  }

  lemma ProductAppend(x: seq<Digit>, d: Digit, v: nat)
    ensures Val(x + [d]) * v == Val(x) * v + Term(d * v, |x|)
  {
    ValAppend(x, d);
    ScaleTerm(Val(x), d, |x|, v);
  }

  lemma {:induction false} NoColumns(y: seq<Digit>, n: nat)
    ensures Columns([], y, n) == 0
  {
    if n > 0 {
      NoColumns(y, n - 1);
      TermIs(0, n - 1);
    }
  }

  // The first n columns are the product up to a multiple of BASE^n.
  lemma {:induction false} ColumnsModPower(x: seq<Digit>, y: seq<Digit>, n: nat) returns (k: nat)
    ensures Columns(x, y, n) + Term(k, n) == Val(x) * Val(y)
    decreases |x|
  {
    if x == [] {
      NoColumns(y, n);
      TermIs(0, n);
      k := 0;
    } else {
      var c := |x| - 1;
      var k0 := ColumnsModPower(x[..c], y, n);
      assert x == x[..c] + [x[c]];
      ColumnsAppend(x[..c], y, n, x[c]);
      ProductAppend(x[..c], x[c], Val(y));
      var k1 := Missing(y, c, n, x[c]);
      TermAdd(k0, k1, n);
      k := k0 + k1;
    }
  }

  // What the columns beyond the first n miss of a digit's multiple of y.
  lemma Missing(y: seq<Digit>, c: nat, n: nat, d: Digit) returns (k: nat)
    ensures Term(d * Val(Reach(y, c, n)), c) + Term(k, n) == Term(d * Val(y), c)
  {
    if n <= c {
      TermTerm(d * Val(y), c - n, n);
      TermIs(0, c);
      k := Term(d * Val(y), c - n);
    } else if n - c >= |y| {
      TermIs(0, n);
      k := 0;
    } else {
      var high := Val(y[n - c..]);
      ValSplit(y, n - c);
      TermScale(d, Val(Reach(y, c, n)), high, n - c, c);
      k := Times(d, high);
    }
  }

  function Times(x: nat, y: nat): nat {
    x * y
  }
}
