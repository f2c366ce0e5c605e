// The Poly1305 authenticator: Horner's rule over the 17-byte field numbers.

module Poly1305s {
  import opened Powers
  import opened Digits
  import opened Bignums
  import opened FieldElements
  import opened FieldConstants

  type Byte = b: nat | b < 256

  // ---- Bytes and digits, least significant first ----

  function ByteVal(s: seq<Byte>): nat {
    if s == [] then 0 else s[0] + 256 * ByteVal(s[1..])
  }

  function Power256(n: nat): nat {
    if n == 0 then 1 else 256 * Power256(n - 1)
  }

  lemma {:induction false} ByteValAppend(s: seq<Byte>, b: Byte)
    ensures ByteVal(s + [b]) == ByteVal(s) + b * Power256(|s|)
  {
    if s != [] {
      ByteValAppend(s[1..], b);
      assert (s + [b])[1..] == s[1..] + [b];
      Associate(b, 256, Power256(|s| - 1));
      Commute(b, 256);
      Associate(256, b, Power256(|s| - 1));
    }
  }

  lemma {:induction false} ByteValBound(s: seq<Byte>)
    ensures ByteVal(s) < Power256(|s|)
  {
    if s != [] {
      ByteValBound(s[1..]);
    }
  }

  // The bytes of the i-th digit; short or empty at the end.
  function DigitBytes(s: seq<Byte>, i: nat): seq<Byte> {
    if 4 * i >= |s| then [] else if 4 * i + 4 >= |s| then s[4 * i..] else s[4 * i..4 * i + 4]
  }

  lemma {:induction false} ByteValSplit(s: seq<Byte>, c: nat)
    requires c <= |s|
    ensures ByteVal(s) == ByteVal(s[..c]) + Power256(c) * ByteVal(s[c..])
  {
    if c > 0 {
      var low, high := s[..c], s[c..];
      ByteValSplit(s[1..], c - 1);
      assert s[1..][..c - 1] == low[1..] && s[1..][c - 1..] == high;
      ConsSplit(s[0], ByteVal(low[1..]), Power256(c - 1), ByteVal(high));
    } else {
      assert s[0..] == s;
    }
  }

  lemma ConsSplit(b: nat, low: nat, p: nat, high: nat)
    ensures b + 256 * (low + p * high) == (b + 256 * low) + (256 * p) * high
  {
    Associate(256, p, high);
  }

  lemma FourBytes(s: seq<Byte>)
    requires |s| >= 4
    ensures ByteVal(s) == ByteVal(s[..4]) + BASE * ByteVal(s[4..])
  {
    ByteValSplit(s, 4);
    SmallPowers();
  }

  lemma SmallPowers()
    ensures Power256(1) == 256 && Power256(2) == 0x1_0000 && Power256(3) == 0x100_0000 && Power256(4) == BASE
  {
  }

  lemma DigitBytesBound(s: seq<Byte>, i: nat)
    ensures |DigitBytes(s, i)| <= 4 && ByteVal(DigitBytes(s, i)) < BASE
  {
    ByteValBound(DigitBytes(s, i));
    SmallPowers();
  }

  function AfterDigit(s: seq<Byte>): seq<Byte> {
    if |s| >= 4 then s[4..] else []
  }

  lemma NextDigitBytes(s: seq<Byte>, i: nat)
    ensures DigitBytes(AfterDigit(s), i) == DigitBytes(s, i + 1)
  {
  }

  lemma FirstDigit(s: seq<Byte>)
    ensures ByteVal(s) == ByteVal(DigitBytes(s, 0)) + BASE * ByteVal(AfterDigit(s))
  {
    if |s| >= 4 {
      FourBytes(s);
      assert DigitBytes(s, 0) == s[..4];
    } else {
      assert DigitBytes(s, 0) == s;
    }
  }

  lemma {:induction false} DigitsOfBytes(ds: seq<Digit>, s: seq<Byte>)
    requires |s| <= 4 * |ds|
    requires forall i :: 0 <= i < |ds| ==> ds[i] == ByteVal(DigitBytes(s, i))
    ensures Val(ds) == ByteVal(s)
    decreases |ds|
  {
    if ds != [] {
      forall i | 0 <= i < |ds| - 1
        ensures ds[1..][i] == ByteVal(DigitBytes(AfterDigit(s), i))
      {
        NextDigitBytes(s, i);
      }
      DigitsOfBytes(ds[1..], AfterDigit(s));
      assert ds == [ds[0]] + ds[1..];
      ValCons(ds[0], ds[1..]);
      FirstDigit(s);
    }
  }

  // The digit made of the bytes from 4 * i on.
  method LoadDigit(bytes: seq<Byte>, i: nat, from: nat) returns (d: Digit, j: nat)
    requires from == if 4 * i < |bytes| then 4 * i else |bytes|
    ensures d == ByteVal(DigitBytes(bytes, i))
    ensures j == if 4 * (i + 1) < |bytes| then 4 * (i + 1) else |bytes|
  {
    ghost var s := DigitBytes(bytes, i);
    var k, sum, shift := 0, 0, 1;
    while k < 4 && from + k < |bytes|
      invariant 0 <= k <= |s|
      invariant sum == ByteVal(s[..k]) && shift == Power256(k)
      decreases 4 - k
    {
      assert s[..k + 1] == s[..k] + [bytes[from + k]];
      ByteValAppend(s[..k], bytes[from + k]);
      sum := sum + bytes[from + k] as nat * shift;
      shift := shift * 256;
      k := k + 1;
    }
    assert s[..k] == s;
    DigitBytesBound(bytes, i);
    d, j := sum, from + k;
  }

  // n := the little-endian number of the bytes, zero-extended.
  method LoadBytes(n: Bignum, bytes: seq<Byte>)
    requires n.Valid() && |bytes| <= 4 * n.field.size
    modifies n.data
    ensures n.Valid() && n.Value() == ByteVal(bytes)
    ensures forall k :: 0 <= k < n.field.size ==> n.data[k] == ByteVal(DigitBytes(bytes, k))
  {
    var i, j := 0, 0;
    while i < n.field.size
      invariant 0 <= i <= n.field.size == n.data.Length
      invariant j == if 4 * i < |bytes| then 4 * i else |bytes|
      invariant forall k :: 0 <= k < i ==> n.data[k] == ByteVal(DigitBytes(bytes, k))
    {
      var d;
      d, j := LoadDigit(bytes, i, j);
      n.data[i] := d;
      i := i + 1;
    }
    DigitsOfBytes(n.data[..], bytes);
  }

  // ---- The polynomial ----

  function Pow(r: nat, n: nat): nat {
    if n == 0 then 1 else r * Pow(r, n - 1)
  }

  // c[0] * r^q + c[1] * r^(q-1) + ... + c[q-1] * r
  function Polynomial(c: seq<nat>, r: nat): nat {
    if c == [] then 0 else c[0] * Pow(r, |c|) + Polynomial(c[1..], r)
  }

  // Horner's rule: appending a coefficient adds it and multiplies by r.
  lemma {:induction false} HornerStep(c: seq<nat>, d: nat, r: nat)
    ensures Polynomial(c + [d], r) == (Polynomial(c, r) + d) * r
  {
    if c == [] {
      assert [d][1..] == [] && c + [d] == [d];
      assert Polynomial([d], r) == d * Pow(r, 1) + Polynomial([], r);
      assert Pow(r, 1) == r * Pow(r, 0);
    } else {
      HornerStep(c[1..], d, r);
      assert (c + [d])[1..] == c[1..] + [d];
      HornerTerm(c[0], Pow(r, |c|), r, Polynomial(c[1..], r) + d);
    }
  }

  lemma HornerTerm(c: nat, p: nat, r: nat, rest: nat)
    ensures c * (r * p) + rest * r == (c * p + rest) * r
  {
  }

  // A message block: the little-endian number of its bytes and a byte 1 behind them.
  function BlockVal(block: seq<Byte>): nat {
    ByteVal(block + [1])
  }

  lemma OneAbove(block: seq<Byte>)
    ensures BlockVal(block) == ByteVal(block) + Power256(|block|)
  {
    ByteValAppend(block, 1);
  }

  function Blocks(message: seq<Byte>): seq<nat> {
    if message == [] then []
    else if |message| <= 16 then [BlockVal(message)]
    else [BlockVal(message[..16])] + Blocks(message[16..])
  }

  // The tag: the polynomial modulo 2^130 - 5, plus the pad, modulo 2^128.
  function Tag(message: seq<Byte>, r: nat, pad: nat): nat {
    (Polynomial(Blocks(message), r) % 0x3_ffffffff_ffffffff_ffffffff_fffffffb + pad)
      % 0x1_00000000_00000000_00000000_00000000
  }

  // ---- The byte put above a block ----

  // Digit d with its k-th byte replaced.
  function WithByte(d: Digit, k: nat, b: Byte): int
    requires k < 4
  {
    var p := Power256(k);
    assert p > 0 by { SmallPowers(); }
    d - d / p % 256 * p + b * p
  }

  lemma ByteAboveFits(d: Digit, k: nat)
    requires k < 4 && d < Power256(k)
    ensures WithByte(d, k, 1) == d + Power256(k) < BASE
  {
    SmallPowers();
    DivUnique(d, Power256(k), 0);
  }

  lemma {:induction false} Power256Term(k: nat, i: nat)
    ensures Power256(4 * i + k) == Term(Power256(k), i)
  {
    if i > 0 {
      Power256Term(k, i - 1);
      var n := 4 * (i - 1) + k;
      assert Power256(n + 4) == 256 * Power256(n + 3);
      assert Power256(n + 3) == 256 * Power256(n + 2);
      assert Power256(n + 2) == 256 * Power256(n + 1);
    }
  }

  lemma {:induction false} ValUpdate(s: seq<Digit>, i: nat, d: Digit)
    requires i < |s|
    ensures Val(s[i := d]) + Term(s[i], i) == Val(s) + Term(d, i)
    decreases |s|
  {
    var n := |s| - 1;
    if i == n {
      assert s[i := d][..n] == s[..n];
    } else {
      assert s[i := d][..n] == s[..n][i := d];
      ValUpdate(s[..n], i, d);
    }
  }

  // Sets the byte just above the block to one.
  method SetByteAbove(c: Bignum, block: seq<Byte>)
    requires c.Valid() && |block| < 4 * c.field.size && c.Value() == ByteVal(block)
    requires forall k :: 0 <= k < c.field.size ==> c.data[k] == ByteVal(DigitBytes(block, k))
    modifies c.data
    ensures c.Valid() && c.Value() == BlockVal(block)
  {
    var i, k := |block| / 4, |block| % 4;
    ghost var before := c.data[..];
    assert |DigitBytes(block, i)| == k;
    ByteValBound(DigitBytes(block, i));
    ByteAbove(before, block, i, k);
    c.data[i] := WithByte(c.data[i], k, 1);
    assert c.data[..] == before[i := c.data[i]];
  }

  lemma ByteAbove(s: seq<Digit>, block: seq<Byte>, i: nat, k: nat)
    requires i < |s| && |block| == 4 * i + k && k < 4
    requires s[i] < Power256(k) && Val(s) == ByteVal(block)
    ensures 0 <= WithByte(s[i], k, 1) < BASE
    ensures Val(s[i := WithByte(s[i], k, 1)]) == BlockVal(block)
  {
    ByteAboveFits(s[i], k);
    var d: Digit := s[i] + Power256(k);
    assert WithByte(s[i], k, 1) == d;
    assert Val(s[i := d]) == BlockVal(block) by {
      OneAbove(block);
      ValUpdate(s, i, d);
      TermAdd(s[i], Power256(k), i);
      Power256Term(k, i);
    }
  }

  // ---- Clamping ----

  const MASK: seq<Byte> :=
    [0xff, 0xff, 0xff, 0x0f, 0xfc, 0xff, 0xff, 0x0f, 0xfc, 0xff, 0xff, 0x0f, 0xfc, 0xff, 0xff, 0x0f]

  // The bitwise and.
  function And(a: nat, b: nat): (r: nat)
    ensures r <= a && r <= b
  {
    if a == 0 || b == 0 then 0 else 2 * And(a / 2, b / 2) + (if a % 2 == 1 && b % 2 == 1 then 1 else 0)
  }

  // Bit k of a, the lowest first.
  function BitAt(a: nat, k: nat): nat {
    if k == 0 then a % 2 else BitAt(a / 2, k - 1)
  }

  // Bit k of the and is set where both bits are.
  lemma {:induction false} AndBits(a: nat, b: nat, k: nat)
    ensures BitAt(And(a, b), k) == 1 <==> BitAt(a, k) == 1 && BitAt(b, k) == 1
  {
    AndParts(a, b);
    if k > 0 {
      AndBits(a / 2, b / 2, k - 1);
    }
  }

  lemma AndParts(a: nat, b: nat)
    ensures And(a, b) / 2 == And(a / 2, b / 2)
    ensures And(a, b) % 2 == 1 <==> a % 2 == 1 && b % 2 == 1
  {
    AndHalves(a, b);
  }

  lemma HalfParts(a: nat, p: nat)
    requires p > 0
    ensures a / (2 * p) == a / 2 / p && a % (2 * p) == 2 * (a / 2 % p) + a % 2
  {
    var q, t := a / 2 / p, a / 2 % p;
    assert a / 2 == q * p + t;
    Commute(q, 2 * p);
    Associate(2, p, q);
    Commute(p, q);
    assert a == q * (2 * p) + (2 * t + a % 2);
    DivUnique(a, 2 * p, q);
  }

  lemma AndHalves(a: nat, b: nat)
    ensures And(a, b) == 2 * And(a / 2, b / 2) + (if a % 2 == 1 && b % 2 == 1 then 1 else 0)
  {
  }

  // A mask of k ones leaves the remainder.
  lemma {:induction false} AndOnes(b: nat, k: nat)
    ensures And(b, Pow2(k) - 1) == b % Pow2(k)
  {
    if k > 0 {
      AndOnes(b / 2, k - 1);
      OneMore(b, Pow2(k - 1), 2 * Pow2(k - 1) - 1);
    }
  }

  lemma OneMore(b: nat, p: nat, m: nat)
    requires p > 0 && m == 2 * p - 1 && And(b / 2, p - 1) == b / 2 % p
    ensures And(b, m) == b % (2 * p)
  {
    AndHalves(b, m);
    assert m == 2 * (p - 1) + 1;
    HalfParts(b, p);
  }

  lemma AndDouble(a: nat, n: nat, m: nat)
    requires n == 2 * m
    ensures And(a, n) == 2 * And(a / 2, m)
  {
    AndHalves(a, n);
  }

  lemma AndLow(b: nat, k: nat, mask: nat)
    requires mask + 1 == Pow2(k)
    ensures And(b, mask) == b % Pow2(k)
  {
    AndOnes(b, k);
  }

  lemma MaskPowers()
    ensures Pow2(4) == 16 && Pow2(6) == 64 && Pow2(8) == 256
  {
    var two, four, six := Pow2(2), Pow2(4), Pow2(6);
    assert two == 4 && four == 4 * two && six == 4 * four && Pow2(8) == 4 * six;
  }

  lemma AndHigh(b: Byte, mask: nat, m: nat)
    requires mask == 4 * m && m == 63
    ensures And(b, mask) == b - b % 4
  {
    var h := b / 2;
    AndDouble(b, mask, 2 * m);
    AndDouble(h, 2 * m, m);
    MaskPowers();
    AndLow(h / 2, 6, m);
    HighBits(b);
  }

  lemma HighBits(b: Byte)
    ensures 2 * (2 * (b / 2 / 2 % 64)) == b - b % 4
  {
  }

  // The multiplier's bytes under the mask: four bits less at the top of every word, two less at the
  // bottom of every word but the first.
  function ClampedBytes(s: seq<Byte>): (r: seq<Byte>)
    requires |s| == 16
    ensures |r| == 16
    ensures forall i :: 0 <= i < 16 ==>
              r[i] == And(s[i], [0xff, 0xff, 0xff, 0x0f, 0xfc, 0xff, 0xff, 0x0f,
                                 0xfc, 0xff, 0xff, 0x0f, 0xfc, 0xff, 0xff, 0x0f][i])
  {
    seq(16, i requires 0 <= i < 16 => And(s[i], MASK[i]))
  }

  // b & mask, for the two masks in use.
  function Masked(b: Byte, mask: Byte): Byte
    requires mask == 15 || mask == 252
  {
    if mask == 15 then b % 16 else b - b % 4
  }

  // Which bytes are masked.
  lemma ClampedAt(s: seq<Byte>, i: nat)
    requires |s| == 16 && i < 16
    ensures ClampedBytes(s)[i]
            == if i % 4 == 3 then Masked(s[i], 15) else if i % 4 == 0 && i > 0 then Masked(s[i], 252) else s[i]
  {
    var b, mask := s[i], MASK[i];
    MaskAt(i);
    MaskingIs(b, mask);
    assert ClampedBytes(s)[i] == And(b, mask);
  }

  lemma MaskAt(i: nat)
    requires i < 16
    ensures MASK[i] == if i % 4 == 3 then 15 else if i % 4 == 0 && i > 0 then 252 else 255
  {
  }

  lemma MaskFull(b: Byte, mask: nat)
    requires mask == 255
    ensures And(b, mask) == b
  {
    assert mask + 1 == Pow2(8) by { MaskPowers(); }
    AndLow(b, 8, mask);
  }

  lemma MaskLow(b: Byte, mask: nat)
    requires mask == 15
    ensures And(b, mask) == b % 16
  {
    assert mask + 1 == Pow2(4) by { MaskPowers(); }
    AndLow(b, 4, mask);
  }

  lemma MaskingIs(b: Byte, mask: Byte)
    requires mask == 15 || mask == 252 || mask == 255
    ensures And(b, mask) == if mask == 255 then b else Masked(b, mask)
  {
    if mask == 255 {
      MaskFull(b, mask);
    } else if mask == 15 {
      MaskLow(b, mask);
    } else {
      AndHigh(b, mask, 63);
    }
  }

  lemma Clamped(s: seq<Byte>, t: seq<Byte>)
    requires |s| == |t| == 16
    requires forall i :: 0 <= i < 16 ==>
               t[i] == if i % 4 == 3 then Masked(s[i], 15) else if i % 4 == 0 && i > 0 then Masked(s[i], 252) else s[i]
    ensures t == ClampedBytes(s)
  {
    forall i | 0 <= i < 16
      ensures t[i] == ClampedBytes(s)[i]
    {
      ClampedAt(s, i);
    }
  }

  function ByteAt(d: Digit, k: nat): Byte
    requires k < 4
  {
    var p := Power256(k);
    assert p > 0 by { SmallPowers(); }
    d / p % 256
  }

  lemma FourByteDigit(b0: Byte, b1: Byte, b2: Byte, b3: Byte)
    ensures ByteVal([b0, b1, b2, b3]) == b0 + 0x100 * b1 + 0x1_0000 * b2 + 0x100_0000 * b3
  {
    assert [b0, b1, b2, b3][1..] == [b1, b2, b3] && [b1, b2, b3][1..] == [b2, b3] && [b2, b3][1..] == [b3];
    assert ByteVal([b3]) == b3;
    assert ByteVal([b2, b3]) == b2 + 256 * ByteVal([b3]);
    assert ByteVal([b1, b2, b3]) == b1 + 256 * ByteVal([b2, b3]);
  }

  // Reading and replacing a byte of a digit, for the bytes that clamping touches.
  lemma EditByte(s: seq<Byte>, k: nat, b: Byte)
    requires |s| == 4 && (k == 0 || k == 3)
    ensures ByteVal(s) < BASE && ByteAt(ByteVal(s), k) == s[k]
    ensures WithByte(ByteVal(s), k, b) == ByteVal(s[k := b]) < BASE
  {
    SmallPowers();
    FourByteDigit(s[0], s[1], s[2], s[3]);
    assert s == [s[0], s[1], s[2], s[3]];
    if k == 3 {
      FourByteDigit(s[0], s[1], s[2], b);
      assert s[3 := b] == [s[0], s[1], s[2], b];
      DivUnique(ByteVal(s), 0x100_0000, s[3]);
    } else {
      FourByteDigit(b, s[1], s[2], s[3]);
      assert s[0 := b] == [b, s[1], s[2], s[3]];
      DivUnique(ByteVal(s), 256, s[1] + 0x100 * s[2] as nat + 0x1_0000 * s[3] as nat);
      assert Power256(0) == 1 && ByteVal(s) / 1 == ByteVal(s);
    }
  }

  // The number's first 16 bytes are s, the others are zero.
  ghost predicate HoldsBytes(n: Bignum, s: seq<Byte>)
    reads n.data
  {
    && |s| == 16 && n.data.Length == 5 && n.data[4] == 0
    && forall i :: 0 <= i < 4 ==> n.data[i] == ByteVal(s[4 * i..4 * i + 4])
  }

  method AndByte(n: Bignum, p: nat, mask: Byte, ghost s: seq<Byte>)
    requires HoldsBytes(n, s) && p < 16 && (p % 4 == 0 || p % 4 == 3) && (mask == 15 || mask == 252)
    modifies n.data
    ensures HoldsBytes(n, s[p := Masked(s[p], mask)])
  {
    var i, k := p / 4, p % 4;
    ghost var q := s[4 * i..4 * i + 4];
    var b := Masked(ByteAt(n.data[i], k), mask);
    EditByte(q, k, b);
    n.data[i] := WithByte(n.data[i], k, b);
    ghost var t := s[p := b];
    assert t[4 * i..4 * i + 4] == q[k := b];
    assert forall j :: 0 <= j < 4 && j != i ==> t[4 * j..4 * j + 4] == s[4 * j..4 * j + 4];
  }

  method Clamp(n: Bignum, ghost s: seq<Byte>)
    requires n.Valid() && HoldsBytes(n, s)
    modifies n.data
    ensures n.Valid() && n.Value() == ByteVal(ClampedBytes(s))
  {
    ghost var t := ClampTops(n, s);
    t := ClampBottoms(n, t);
    Clamped(s, t);
    HeldDigits(t);
    DigitsOfBytes(n.data[..], t);
  }

  // The last byte of every word.
  method ClampTops(n: Bignum, ghost s: seq<Byte>) returns (ghost t: seq<Byte>)
    requires HoldsBytes(n, s)
    modifies n.data
    ensures HoldsBytes(n, t) && forall i :: 0 <= i < 16 ==> t[i] == if i % 4 == 3 then Masked(s[i], 15) else s[i]
  {
    AndByte(n, 3, 15, s);
    t := s[3 := Masked(s[3], 15)];
    AndByte(n, 7, 15, t);
    t := t[7 := Masked(t[7], 15)];
    AndByte(n, 11, 15, t);
    t := t[11 := Masked(t[11], 15)];
    AndByte(n, 15, 15, t);
    t := t[15 := Masked(t[15], 15)];
  }

  // The first byte of every word but the first.
  method ClampBottoms(n: Bignum, ghost s: seq<Byte>) returns (ghost t: seq<Byte>)
    requires HoldsBytes(n, s)
    modifies n.data
    ensures HoldsBytes(n, t) && forall i :: 0 <= i < 16 ==> t[i] == if i % 4 == 0 && i > 0 then Masked(s[i], 252) else s[i]
  {
    AndByte(n, 4, 252, s);
    t := s[4 := Masked(s[4], 252)];
    AndByte(n, 8, 252, t);
    t := t[8 := Masked(t[8], 252)];
    AndByte(n, 12, 252, t);
    t := t[12 := Masked(t[12], 252)];
  }

  lemma HeldDigits(s: seq<Byte>)
    requires |s| == 16
    ensures forall i :: 0 <= i < 4 ==> DigitBytes(s, i) == s[4 * i..4 * i + 4]
    ensures ByteVal(DigitBytes(s, 4)) == 0
  {
  }

  // ---- The authenticator ----

  lemma ReducedFactor(x: nat, r: nat, m: nat)
    requires m > 0
    ensures x % m * r % m == x * r % m
  {
    var q, y := x / m, x % m;
    SplitProduct(m, q, y, r);
    assert x == m * q + y;
    SameRemainder(y * r, q * r, m, x * r);
  }

  lemma SplitProduct(m: nat, q: nat, y: nat, r: nat)
    ensures (m * q + y) * r == (q * r) * m + y * r
  {
    Distribute(r, m * q, y);
    Associate(m, q, r);
    Commute(m, q * r);
  }

  lemma SameRemainder(t: nat, k: nat, m: nat, s: nat)
    requires m > 0 && s == k * m + t
    ensures t % m == s % m
  {
    assert t == m * (t / m) + t % m;
    assert s == (k + t / m) * m + t % m;
    DivUnique(s, m, k + t / m);
  }

  lemma ReducedSum(x: nat, y: nat, m: nat)
    requires m > 0
    ensures (x % m + y) % m == (x + y) % m
  {
    var q, z := x / m, x % m;
    assert x == m * q + z;
    Commute(m, q);
    SameRemainder(z + y, q, m, x + y);
  }

  // One block absorbed by the accumulator.
  lemma AbsorbStep(c: seq<nat>, d: nat, r: nat, m: nat, h: nat)
    requires m > 0 && h == Polynomial(c, r) % m
    ensures (h + d) % m * r % m == Polynomial(c + [d], r) % m
  {
    HornerStep(c, d, r);
    ReducedSum(Polynomial(c, r), d, m);
    ReducedFactor(Polynomial(c, r) + d, r, m);
  }

  lemma BlockIsSmall(block: seq<Byte>)
    requires |block| <= 16
    ensures BlockVal(block) < 0x2_00000000_00000000_00000000_00000001
  {
    OneAbove(block);
    ByteValBound(block);
    Power256Term(0, 4);
    FieldConstants.Powers();
    Power256Monotone(|block|, 16);
  }

  lemma {:induction false} Power256Monotone(i: nat, j: nat)
    requires i <= j
    ensures Power256(i) <= Power256(j)
    decreases j
  {
    if i < j {
      Power256Monotone(i, j - 1);
    }
  }

  // The accumulator after the coefficients c.
  ghost predicate Accumulated(h: nat, c: seq<nat>, r: nat) {
    h == Polynomial(c, r) % Val(MOD17) < Val(MOD17)
  }

  // The cipher encrypts a 16-byte nonce under a 16-byte key.
  type Cipher = (seq<Byte>, seq<Byte>) -> seq<Byte>

  // Byte k of four.
  lemma ByteOf(q: seq<Byte>, k: nat)
    requires |q| == 4 && k < 4
    ensures ByteVal(q) < BASE && ByteAt(ByteVal(q), k) == q[k]
  {
    SmallPowers();
    assert q == [q[0], q[1], q[2], q[3]];
    FourByteDigit(q[0], q[1], q[2], q[3]);
    FourBytesApart(q[0], q[1], q[2], q[3]);
    assert Power256(0) == 1 && ByteVal(q) / 1 == ByteVal(q);
  }

  lemma FourBytesApart(a: Byte, b: Byte, c: Byte, d: Byte)
    ensures var v := a + 0x100 * b + 0x1_0000 * c + 0x100_0000 * d;
            v < BASE && v % 256 == a && v / 256 % 256 == b && v / 0x1_0000 % 256 == c && v / 0x100_0000 % 256 == d
  {
    var v := a as nat + 0x100 * b as nat + 0x1_0000 * c as nat + 0x100_0000 * d as nat;
    DivUnique(v, 256, b as nat + 0x100 * c as nat + 0x1_0000 * d as nat);
    DivUnique(b as nat + 0x100 * c as nat + 0x1_0000 * d as nat, 256, c as nat + 0x100 * d as nat);
    DivUnique(v, 0x1_0000, c as nat + 0x100 * d as nat);
    DivUnique(c as nat + 0x100 * d as nat, 256, d);
    DivUnique(v, 0x100_0000, d);
  }

  // The number's digits read as bytes.
  method BytesOf(n: Bignum, ghost s: seq<Byte>) returns (bytes: seq<Byte>)
    requires HoldsBytes(n, s)
    ensures bytes == s
  {
    bytes := [];
    for i := 0 to 16
      invariant bytes == s[..i]
    {
      ghost var q := s[4 * (i / 4)..4 * (i / 4) + 4];
      ByteOf(q, i % 4);
      assert q[i % 4] == s[i];
      bytes := bytes + [ByteAt(n.data[i / 4], i % 4)];
    }
  }

  // Sixteen bytes read as digits.
  method DigitsOf(bytes: seq<Byte>) returns (a: array<Digit>)
    requires |bytes| == 16
    ensures fresh(a) && a.Length == 4 && Val(a[..]) == ByteVal(bytes)
  {
    a := new Digit[4];
    var i, j := 0, 0;
    while i < 4
      invariant 0 <= i <= 4 && j == 4 * i
      invariant forall k :: 0 <= k < i ==> a[k] == ByteVal(DigitBytes(bytes, k))
    {
      var d;
      d, j := LoadDigit(bytes, i, j);
      a[i] := d;
      i := i + 1;
    }
    DigitsOfBytes(a[..], bytes);
  }

  class Poly1305 {
    const k: Bignum
    const r: Bignum
    ghost const key: seq<Byte>

    ghost predicate Valid()
      reads k.data, r.data, r.field.mod
    {
      r.Valid() && r.field.mod[..] == MOD17 && HoldsBytes(k, key) && k.data != r.data
    }

    // The cipher's key is kept; the multiplier is clamped: a few bits of it are cleared.
    constructor (field: Field, key: seq<Byte>, multiplier: seq<Byte>)
      requires field.Valid() && field.mod[..] == MOD17 && |key| == 16 && |multiplier| == 16
      ensures Valid() && fresh(k) && fresh(k.data) && fresh(r) && fresh(r.data) && r.field == field && this.key == key
      ensures r.Value() == ByteVal(ClampedBytes(multiplier))
    {
      k := new Bignum(field, 0);
      r := new Bignum(field, 0);
      this.key := key;
      new;
      LoadBytes(k, key);
      HeldDigits(key);
      LoadBytes(r, multiplier);
      HeldDigits(multiplier);
      Clamp(r, multiplier);
    }

    // cr := (cr + block) * r
    method Absorb(cr: Bignum, block: seq<Byte>, ghost c: seq<nat>)
      requires Valid() && cr.Valid() && cr.field == r.field && cr.data != r.data && cr.data != k.data && 0 < |block| <= 16
      requires Accumulated(cr.Value(), c, r.Value())
      modifies cr.data
      ensures Valid() && cr.Valid()
      ensures Accumulated(cr.Value(), c + [BlockVal(block)], r.Value())
    {
      var number := BlockNumber(r.field, block);
      Step(cr, number, r);
      Reciprocal17();
      AbsorbStep(c, BlockVal(block), r.Value(), Val(MOD17), old(cr.Value()));
    }

    // The block with a one above it.
    static method BlockNumber(field: Field, block: seq<Byte>) returns (number: Bignum)
      requires field.Valid() && field.size == 5 && 0 < |block| <= 16
      ensures number.Valid() && number.field == field && fresh(number) && fresh(number.data)
      ensures number.Value() == BlockVal(block) < 0x2_00000000_00000000_00000000_00000001
    {
      number := new Bignum(field, 0);
      LoadBytes(number, block);
      SetByteAbove(number, block);
      BlockIsSmall(block);
    }

    // cr := (cr + number) * r modulo 2^130 - 5
    static method Step(cr: Bignum, number: Bignum, r: Bignum)
      requires cr.Valid() && number.Valid() && r.Valid() && cr.field == number.field == r.field
      requires cr.data != r.data && number.data != cr.data && r.field.mod[..] == MOD17
      requires cr.Value() < Val(MOD17) && number.Value() < 0x2_00000000_00000000_00000000_00000001
      modifies cr.data
      ensures cr.Valid() && Val(MOD17) > 0 && cr.Value() < Val(MOD17)
      ensures cr.Value() == (old(cr.Value()) + old(number.Value())) % Val(MOD17) * r.Value() % Val(MOD17)
    {
      Reciprocal17();
      assert number.field.Modulus() == Val(MOD17);
      cr.Add(number);
      cr.Multiply(r);
    }

    // The loop over the message.
    method Accumulate(message: seq<Byte>) returns (cr: Bignum)
      requires Valid()
      ensures Valid() && cr.Valid() && cr.field == r.field && fresh(cr) && fresh(cr.data)
      ensures Accumulated(cr.Value(), Blocks(message), r.Value())
    {
      Reciprocal17();
      cr := new Bignum(r.field, 0);
      var from := 0;
      ghost var c: seq<nat> := [];
      assert message[0..] == message && c + Blocks(message) == Blocks(message);
      while from < |message|
        invariant 0 <= from <= |message|
        invariant cr.Valid() && cr.field == r.field && fresh(cr.data) && Valid()
        invariant c + Blocks(message[from..]) == Blocks(message)
        invariant Accumulated(cr.Value(), c, r.Value())
      {
        var len := if |message| - from < 16 then |message| - from else 16;
        var block := message[from..from + len];
        NextBlock(message, from, len, c);
        Absorb(cr, block, c);
        c := c + [BlockVal(block)];
        from := from + len;
      }
      assert message[from..] == [] && c + [] == c;
    }

    // out := the tag of the message; the message length is a 32-bit signed integer.
    method Stamp(out: array<Digit>, nonce: seq<Byte>, message: seq<Byte>, encrypt: Cipher)
      requires Valid() && out.Length == 4 && out != r.data && out != r.field.mod && out != k.data
      requires |message| < 0x8000_0000 && |nonce| == 16 && forall n, c :: |encrypt(n, c)| == 16
      modifies out
      ensures Valid() && Val(out[..]) == Tag(message, r.Value(), ByteVal(encrypt(nonce, key)))
    {
      Reciprocal17();
      var cr := Accumulate(message);
      var secret := BytesOf(k, key);
      var pad := DigitsOf(encrypt(nonce, secret));
      AddPad(out, pad, cr.data);
    }
  }

  lemma NextBlock(message: seq<Byte>, from: nat, len: nat, c: seq<nat>)
    requires from < |message| && len == if |message| - from < 16 then |message| - from else 16
    ensures c + [BlockVal(message[from..from + len])] + Blocks(message[from + len..]) == c + Blocks(message[from..])
  {
    var rest := message[from..];
    assert rest[..len] == message[from..from + len] && rest[len..] == message[from + len..];
    if |rest| <= 16 {
      assert rest[..len] == rest && rest[len..] == [];
    }
  }

  // The low four digits of the sum.
  method AddPad(out: array<Digit>, pad: array<Digit>, h: array<Digit>)
    requires out.Length == 4 && pad.Length == 4 && h.Length == 5 && out != h
    modifies out
    ensures Val(out[..]) == (Val(h[..]) + old(Val(pad[..]))) % 0x1_00000000_00000000_00000000_00000000
  {
    ghost var p := pad[..];
    assert pad[..4] == p && h[..4] == h[..][..4];
    var carry := SimpleAdd(out, pad, h, 4);
    assert out[..4] == out[..];
    FieldConstants.Powers();
    ValBound(out[..]);
    ValShift(h[..], 4);
    TermIs(Bit(carry), 4);
    RemainderIs(Val(h[..][..4]) + Val(p), Val(out[..]), Bit(carry), Power(4));
    ReducedSum(Val(h[..]), Val(p), Power(4));
  }
}
