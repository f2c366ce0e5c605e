// The most-significant-bit-first scan of a scalar that drives the point multiplication.

module ScalarScan {
  import opened Powers
  import opened Digits
  import opened FieldElements
  import opened Options

  // The double-and-add sequence that reaches n times p: one doubling a bit, and an addition for each one bit.
  ghost function DoubleAndAdd<P>(n: nat, p: P, dbl: P -> P, add: (P, P) -> P): P
    requires n > 0
  {
    if n == 1 then p
    else
      var d := dbl(DoubleAndAdd(n / 2, p, dbl, add));
      if n % 2 == 1 then add(d, p) else d
  }

  // n times p, by repeated addition.
  ghost function Times<P>(n: nat, p: P, add: (P, P) -> P): P
    requires n > 0
  {
    if n == 1 then p else add(Times(n - 1, p, add), p)
  }

  // The law of the group, as far as the scan needs it.
  ghost predicate GroupLaw<P(!new)>(dbl: P -> P, add: (P, P) -> P) {
    && (forall x, y, z :: add(add(x, y), z) == add(x, add(y, z)))
    && (forall x :: dbl(x) == add(x, x))
  }

  lemma {:induction false} TimesSum<P(!new)>(i: nat, j: nat, p: P, dbl: P -> P, add: (P, P) -> P)
    requires i > 0 && j > 0 && GroupLaw(dbl, add)
    ensures add(Times(i, p, add), Times(j, p, add)) == Times(i + j, p, add)
  {
    if j > 1 {
      TimesSum(i, j - 1, p, dbl, add);
      var x, y := Times(i, p, add), Times(j - 1, p, add);
      assert add(add(x, y), p) == add(x, add(y, p));
    }
  }

  // In a group, the sequence reaches the multiple.
  lemma {:induction false} DoubleAndAddReaches<P(!new)>(n: nat, p: P, dbl: P -> P, add: (P, P) -> P)
    requires n > 0 && GroupLaw(dbl, add)
    ensures DoubleAndAdd(n, p, dbl, add) == Times(n, p, add)
  {
    if n > 1 {
      DoubleAndAddReaches(n / 2, p, dbl, add);
      TimesSum(n / 2, n / 2, p, dbl, add);
      assert n % 2 == 0 ==> n / 2 + n / 2 == n;
    }
  }

  // n shifted right, and left, by k bits.
  function ShiftRight(n: nat, k: nat): nat {
    if k == 0 then n else ShiftRight(n, k - 1) / 2
  }

  function ShiftLeft(n: nat, k: nat): nat {
    if k == 0 then n else 2 * ShiftLeft(n, k - 1)
  }

  lemma {:induction false} ShiftRightBound(n: nat, k: nat, w: nat)
    requires n < Pow2(w) && k <= w
    ensures ShiftRight(n, k) < Pow2(w - k)
  {
    if k > 0 {
      ShiftRightBound(n, k - 1, w);
    }
  }

  lemma {:induction false} ShiftLeftTwice(n: nat, i: nat, j: nat)
    ensures ShiftLeft(ShiftLeft(n, i), j) == ShiftLeft(n, i + j)
  {
    if j > 0 {
      ShiftLeftTwice(n, i, j - 1);
    }
  }

  lemma ShiftLeft8(n: nat)
    ensures ShiftLeft(n, 8) == 256 * n
  {
    assert ShiftLeft(n, 1) == 2 * n;
    assert ShiftLeft(n, 2) == 4 * n;
    assert ShiftLeft(n, 3) == 8 * n;
    assert ShiftLeft(n, 4) == 16 * n;
    assert ShiftLeft(n, 5) == 32 * n;
    assert ShiftLeft(n, 6) == 64 * n;
    assert ShiftLeft(n, 7) == 128 * n;
  }

  lemma ShiftLeft32(n: nat)
    ensures ShiftLeft(n, 32) == BASE * n
  {
    ShiftLeft8(n);
    ShiftLeft8(256 * n);
    ShiftLeft8(0x1_0000 * n);
    ShiftLeft8(0x100_0000 * n);
    ShiftLeftTwice(n, 8, 8);
    ShiftLeftTwice(n, 16, 8);
    ShiftLeftTwice(n, 24, 8);
  }

  lemma {:induction false} Pow2IsShift(k: nat)
    ensures Pow2(k) == ShiftLeft(1, k)
  {
    if k > 0 {
      Pow2IsShift(k - 1);
    }
  }

  // The highest c bits of d, and the bit below them.
  function Top(d: Digit, c: nat): nat
    requires c <= 32
  {
    ShiftRight(d, 32 - c)
  }

  function TopBit(d: Digit, c: nat): bool
    requires c < 32
  {
    ShiftRight(d, 31 - c) % 2 == 1
  }

  lemma TopNext(d: Digit, c: nat)
    requires c < 32
    ensures Top(d, c + 1) == 2 * Top(d, c) + (if TopBit(d, c) then 1 else 0)
  {
    assert ShiftRight(d, 32 - c) == ShiftRight(d, 31 - c) / 2;
  }

  lemma TopEnds(d: Digit)
    ensures Top(d, 0) == 0 && Top(d, 32) == d
  {
    Pow2IsShift(32);
    ShiftLeft32(1);
    ShiftRightBound(d, 32, 32);
  }

  lemma {:induction false} NoTopBits(d: Digit, c: nat)
    requires c <= 32 && forall k :: 0 <= k < c ==> !TopBit(d, k)
    ensures Top(d, c) == 0
  {
    if c == 0 {
      TopEnds(d);
    } else {
      NoTopBits(d, c - 1);
      TopNext(d, c - 1);
    }
  }

  // The bits of the digit, most significant first, and the position after the first one bit.
  method Unpack(bin: array<bool>, digit: Digit) returns (first: nat)
    requires bin.Length == 32
    modifies bin
    ensures forall k :: 0 <= k < 32 ==> bin[k] == TopBit(digit, k)
    ensures digit > 0 ==> 1 <= first <= 32 && Top(digit, first) == 1
  {
    first := 32;
    var now := digit;
    var i: int := 31;
    TopEnds(digit);
    while i >= 0
      invariant -1 <= i <= 31 && 1 <= first <= 32
      invariant now == Top(digit, i + 1)
      invariant forall k :: i < k < 32 ==> bin[k] == TopBit(digit, k)
      invariant forall k :: i < k < first - 1 ==> !TopBit(digit, k)
      invariant first == 32 || i < first - 1
      invariant TopBit(digit, first - 1) || (first == 32 && forall k :: i < k < 32 ==> !TopBit(digit, k))
    {
      TopNext(digit, i);
      if now % 2 == 1 {
        first := i + 1;
      }
      bin[i] := now % 2 == 1;
      now := now / 2;
      i := i - 1;
    }
    NoTopBits(digit, first - 1);
    TopNext(digit, first - 1);
  }

  lemma HighDigits(b: seq<Digit>, i: nat)
    requires i < |b|
    ensures Val(b[i..]) == b[i] + BASE * Val(b[i + 1..])
  {
    assert b[i..] == [b[i]] + b[i + 1..];
    ValCons(b[i], b[i + 1..]);
  }

  // The number scanned after c bits of the digit d; high is the value of the digits above it.
  function Scanned(high: nat, d: Digit, c: nat): nat
    requires c <= 32
  {
    ShiftLeft(high, c) + Top(d, c)
  }

  // One bit of the scan.
  lemma BitStep<P>(high: nat, d: Digit, c: nat, p: P, dbl: P -> P, add: (P, P) -> P)
    requires c < 32 && Scanned(high, d, c) > 0
    ensures Scanned(high, d, c + 1) > 0
    ensures DoubleAndAdd(Scanned(high, d, c + 1), p, dbl, add)
         == var q := dbl(DoubleAndAdd(Scanned(high, d, c), p, dbl, add)); if TopBit(d, c) then add(q, p) else q
  {
    TopNext(d, c);
  }

  ghost predicate Reached<P(!new)>(point: P, n: nat, p: P, dbl: P -> P, add: (P, P) -> P) {
    n > 0 && point == DoubleAndAdd(n, p, dbl, add)
  }

  // The bits from position c on of one digit.
  method ScanDigit<P(!new)>(bin: array<bool>, c: nat, point: P, p: P, dbl: P -> P, add: (P, P) -> P, ghost high: nat,
                            ghost d: Digit) returns (r: P)
    requires bin.Length == 32 && c <= 32 && forall k :: 0 <= k < 32 ==> bin[k] == TopBit(d, k)
    requires Reached(point, Scanned(high, d, c), p, dbl, add)
    ensures Reached(r, d + BASE * high, p, dbl, add)
  {
    r := point;
    var bit := c;
    while bit < 32
      invariant c <= bit <= 32
      invariant Reached(r, Scanned(high, d, bit), p, dbl, add)
    {
      BitStep(high, d, bit, p, dbl, add);
      r := dbl(r);
      if bin[bit] {
        r := add(r, p);
      }
      bit := bit + 1;
    }
    TopEnds(d);
    ShiftLeft32(high);
  }

  // The top digit: the scan starts at p, after the first one bit.
  method ScanTopDigit<P(!new)>(bin: array<bool>, d: Digit, p: P, dbl: P -> P, add: (P, P) -> P) returns (point: P)
    requires bin.Length == 32 && d > 0
    modifies bin
    ensures Reached(point, d, p, dbl, add)
  {
    var bit := Unpack(bin, d);
    ZeroShift(bit);
    assert Reached(p, 1, p, dbl, add);
    point := ScanDigit(bin, bit, p, p, dbl, add, 0, d);
  }

  // A further digit: all its bits are scanned.
  method ScanNextDigit<P(!new)>(bin: array<bool>, d: Digit, point: P, p: P, dbl: P -> P, add: (P, P) -> P,
                                ghost high: nat) returns (r: P)
    requires bin.Length == 32 && Reached(point, high, p, dbl, add)
    modifies bin
    ensures Reached(r, d + BASE * high, p, dbl, add)
  {
    var _ := Unpack(bin, d);
    TopEnds(d);
    r := ScanDigit(bin, 0, point, p, dbl, add, high, d);
  }

  // The loop over the digits, from the top one down.
  method ScanFromTop<P(!new)>(b: seq<Digit>, p: P, dbl: P -> P, add: (P, P) -> P) returns (point: P)
    requires |b| > 0 && b[|b| - 1] > 0
    ensures Reached(point, Val(b), p, dbl, add)
  {
    var bin := new bool[32];
    var i := |b| - 1;
    point := ScanTopDigit(bin, b[i], p, dbl, add);
    HighDigits(b, i);
    while i > 0
      invariant 0 <= i < |b|
      invariant Reached(point, Val(b[i..]), p, dbl, add)
    {
      HighDigits(b, i - 1);
      point := ScanNextDigit(bin, b[i - 1], point, p, dbl, add, Val(b[i..]));
      i := i - 1;
    }
    assert b[0..] == b;
  }

  // The point multiplication up to its final change of coordinates; None stands for the all-zero point.
  method Multiply<P(!new)>(b: seq<Digit>, p: P, dbl: P -> P, add: (P, P) -> P) returns (r: Option<P>)
    requires |b| > 0
    ensures Val(b) == 0 ==> r == None
    ensures Val(b) > 0 ==> r == Some(DoubleAndAdd(Val(b), p, dbl, add))
  {
    var len := |b|;
    while len > 1 && b[len - 1] == 0
      invariant 1 <= len <= |b| && forall k :: len <= k < |b| ==> b[k] == 0
    {
      len := len - 1;
    }
    LeadingZeros(b, len);
    if b[len - 1] == 0 {
      return None;
    }
    var point := ScanFromTop(b[..len], p, dbl, add);
    return Some(point);
  }

  lemma {:induction false} ZeroShift(k: nat)
    ensures ShiftLeft(0, k) == 0
  {
    if k > 0 {
      ZeroShift(k - 1);
    }
  }

  lemma LeadingZeros(b: seq<Digit>, len: nat)
    requires 1 <= len <= |b| && forall k :: len <= k < |b| ==> b[k] == 0
    ensures Val(b) == Val(b[..len])
    ensures b[len - 1] > 0 ==> Val(b) > 0
    ensures len == 1 && b[0] == 0 ==> Val(b) == 0
  {
    ValSplit(b, len);
    ZerosVanish(b[len..]);
    TermIs(0, len);
    ValPrefix(b, len - 1);
    PowerPositive(len - 1);
    if b[len - 1] > 0 {
      TermMonotone(1, b[len - 1], len - 1);
    }
    assert b[..0] == [];
  }
}
