// The prime-field number: digits overwritten in place by +=, -=, *= and halving.

module FieldElements {
  import opened Powers
  import opened Digits
  import opened Bignums
  import opened NumberTheory

  // The modulus and its precomputed reciprocal; neither ever changes.
  class Field {
    const size: nat
    const mod: array<Digit>
    const barrett: seq<Digit>

    ghost predicate Valid()
      reads mod
    {
      size > 0 && 2 * size + 1 < BASE && mod.Length == size && Reciprocal(barrett, mod[..], size)
    }

    ghost function Modulus(): nat
      reads mod
    {
      Val(mod[..])
    }

    constructor (m: seq<Digit>, u: seq<Digit>)
      requires 0 < |m| && 2 * |m| + 1 < BASE && Reciprocal(u, m, |m|)
      ensures Valid() && fresh(mod) && mod[..] == m && barrett == u
    {
      size, barrett := |m|, u;
      mod := new Digit[|m|](i requires 0 <= i < |m| => m[i]);
      new;
      assert mod[..] == m;
    }

    lemma ModulusBounds()
      requires Valid()
      ensures 0 < Modulus() < Power(size)
    {
      PowerPositive(size - 1);
      ValBound(mod[..]);
    }
  }

  class Bignum {
    const field: Field
    const data: array<Digit>

    ghost predicate Valid()
      reads data, field.mod
    {
      field.Valid() && data.Length == field.size && data != field.mod
    }

    ghost function Value(): nat
      reads data
    {
      Val(data[..])
    }

    constructor (field: Field, n: Digit)
      requires field.Valid()
      ensures Valid() && this.field == field && fresh(data) && Value() == n
    {
      this.field := field;
      data := new Digit[field.size](i => if i == 0 then n else 0);
      new;
      DigitAndZeros(data[..], n);
    }

    method IsEven() returns (r: bool)
      requires Valid()
      ensures r <==> Value() % 2 == 0
    {
      assert data[..] == [data[0]] + data[1..];
      ValCons(data[0], data[1..]);
      r := data[0] % 2 == 0;
    }

    // this == n
    method EqualsDigit(n: Digit) returns (r: bool)
      requires Valid()
      ensures r <==> Value() == n
    {
      var other := new Bignum(field, n);
      var c := CompareWhole(data, other.data);
      r := c == 0;
    }

    // this >= b
    method AtLeast(b: Bignum) returns (r: bool)
      requires Valid() && b.Valid() && b.field == field
      ensures r <==> Value() >= b.Value()
    {
      var c := CompareWhole(data, b.data);
      r := c >= 0;
    }

    // this := this + b, reduced; b may be this.
    method Add(b: Bignum)
      requires Valid() && b.Valid() && b.field == field
      requires Value() + b.Value() < 2 * field.Modulus()
      modifies data
      ensures Valid() && Value() < field.Modulus()
      ensures Value() == (old(Value()) + old(b.Value())) % field.Modulus()
    {
      field.ModulusBounds();
      ghost var total := Value() + b.Value();
      var carry := AddWhole(data, b.data);
      if carry {
        var _ := SubWhole(data, field.mod);
      }
      var c := CompareWhole(data, field.mod);
      if c >= 0 {
        var _ := SubWhole(data, field.mod);
      }
      OneWrap(total, field.Modulus(), Value());
    }

    // this := this - b, plus the modulus when that is negative; b may be this.
    method Subtract(b: Bignum)
      requires Valid() && b.Valid() && b.field == field
      requires b.Value() <= Value() + field.Modulus()
      modifies data
      ensures Valid()
      ensures Value() == if old(Value()) >= old(b.Value()) then old(Value()) - old(b.Value())
                         else old(Value()) - old(b.Value()) + field.Modulus()
    {
      field.ModulusBounds();
      var borrow := SubWhole(data, b.data);
      if borrow {
        var _ := AddWhole(data, field.mod);
      }
    }

    // this := this * b, reduced; b may be this. Multiplying by one leaves this as it is, reduced or not.
    method Multiply(b: Bignum)
      requires Valid() && b.Valid() && b.field == field
      modifies data
      ensures Valid() && field.Modulus() > 0
      ensures old(b.Value()) == 1 ==> Value() == old(Value())
      ensures Value() == old(Value()) * old(b.Value()) % field.Modulus()
         <==> old(b.Value()) != 1 || old(Value()) < field.Modulus()
      ensures old(b.Value()) != 1 || old(Value()) < field.Modulus() ==> Value() < field.Modulus()
    {
      field.ModulusBounds();
      var one := b.EqualsDigit(1);
      if one {
        OnceIsReduced(Value(), field.Modulus());
        return;
      }
      MultiplyAndReduce(b);
    }

    method MultiplyAndReduce(b: Bignum)
      requires Valid() && b.Valid() && b.field == field && field.Modulus() > 0
      modifies data
      ensures Valid() && Value() == old(Value()) * old(b.Value()) % field.Modulus()
    {
      ghost var x, y := data[..], b.data[..];
      var product := new Digit[2 * field.size];
      SimpleMult(product, data[..], b.data[..]);
      ghost var _ := BarrettReduction(data, product, field.mod, field.barrett, field.size);
    }

    // this := (carry * BASE^size + this) / 2; the bit shifted out is returned.
    method DivideByTwo(carry: bool) returns (out: bool)
      requires Valid()
      modifies data
      ensures Valid()
      ensures 2 * Value() + Bit(out) == old(Value()) + Term(Bit(carry), field.size)
    {
      out := carry;
      var i := field.size - 1;
      ghost var x, done := data[..], [];
      HalvedNone(x, carry);
      while i >= 0
        invariant HalvedFrom(data[..], x, i, done, out, carry)
      {
        HalvedStep(data[..], x, i, done, out, carry);
        out := ShiftDigit(i, out);
        done := [data[i]] + done;
        i := i - 1;
      }
      HalvedAll(data[..], x, done, out, carry);
    }

    // One digit; returns the bit that falls out.
    method ShiftDigit(i: nat, c: bool) returns (out: bool)
      requires i < data.Length
      modifies data
      ensures data[..] == old(data[..])[i := data[i]]
      ensures data[i] == HalfDigit(old(data[i]), c) && out == (old(data[i]) % 2 != 0)
    {
      out := data[i] % 2 != 0;
      data[i] := data[i] / 2 + (if c then 0x8000_0000 else 0);
    }

    // Halves the number modulo the odd modulus: an odd one first gets the modulus added.
    method HalveModulo()
      requires Valid() && field.Modulus() % 2 == 1 && Value() < field.Modulus()
      modifies data
      ensures Valid() && Value() == Half(old(Value()), field.Modulus())
    {
      ghost var n := field.size;
      TermIs(0, n);
      var even := IsEven();
      if even {
        var _ := DivideByTwo(false);
      } else {
        var carry := AddWhole(data, field.mod);
        var _ := DivideByTwo(carry);
      }
    }

    // The halving loops of the inversion: u is halved while even, and its multiplier along with it.
    static method HalveWhileEven(u: Bignum, a: Bignum, ghost r: nat, ghost v: nat, ghost x: nat)
      requires u.Valid() && a.Valid() && a.field == u.field && a.data != u.data
      requires u.field.Modulus() % 2 == 1 && u.Value() > 0 && (u.Value() % 2 == 1 || v % 2 == 1)
      requires Bezout(a.Value(), r, u.Value(), v, x, u.field.Modulus())
      modifies u.data, a.data
      ensures u.Valid() && a.Valid() && 0 < u.Value() <= old(u.Value()) && u.Value() % 2 == 1
      ensures Bezout(a.Value(), r, u.Value(), v, x, u.field.Modulus())
    {
      var even := u.IsEven();
      while even
        invariant u.Valid() && a.Valid() && 0 < u.Value() <= old(u.Value())
        invariant u.field.Modulus() == old(u.field.Modulus())
        invariant u.Value() % 2 == 1 || v % 2 == 1
        invariant Bezout(a.Value(), r, u.Value(), v, x, u.field.Modulus())
        invariant even <==> u.Value() % 2 == 0
        decreases u.Value()
      {
        HalveStep(a.Value(), r, u.Value(), v, x, u.field.Modulus());
        TermIs(0, u.field.size);
        var _ := u.DivideByTwo(false);
        a.HalveModulo();
        even := u.IsEven();
      }
    }

    // this := n
    method Assign(n: Digit)
      requires Valid()
      modifies data
      ensures Valid() && Value() == n
    {
      data[0] := n;
      var i := 1;
      while i < field.size
        invariant 1 <= i <= field.size
        invariant data[0] == n && forall k :: 1 <= k < i ==> data[k] == 0
      {
        data[i] := 0;
        i := i + 1;
      }
      DigitAndZeros(data[..], n);
    }

    // The numbers the inversion works on do not share digits.
    ghost predicate Apart(u: Bignum, v: Bignum, a: Bignum) {
      && u.field == v.field == a.field == field
      && data != u.data && data != v.data && data != a.data && u.data != v.data && u.data != a.data && v.data != a.data
    }

    ghost predicate InvertState(u: Bignum, v: Bignum, a: Bignum, x: nat)
      reads data, u.data, v.data, a.data, field.mod, u.field.mod, v.field.mod, a.field.mod
    {
      && Apart(u, v, a) && Valid() && u.Valid() && v.Valid() && a.Valid()
      && field.Modulus() % 2 == 1
      && v.Value() > 0 && (u.Value() % 2 == 1 || v.Value() % 2 == 1)
      && Bezout(a.Value(), Value(), u.Value(), v.Value(), x, field.Modulus())
    }

    // The subtraction at the end of a pass: the smaller of u and v is taken from the greater.
    static method SubtractBoth(u: Bignum, a: Bignum, v: Bignum, r: Bignum, ghost x: nat)
      requires r.Apart(u, v, a) && u.Valid() && v.Valid() && a.Valid() && r.Valid()
      requires u.Value() >= v.Value()
      requires Bezout(a.Value(), r.Value(), u.Value(), v.Value(), x, r.field.Modulus())
      modifies u.data, a.data
      ensures u.Valid() && v.Valid() && a.Valid() && r.Valid() && u.Value() == old(u.Value()) - v.Value()
      ensures Bezout(a.Value(), r.Value(), u.Value(), v.Value(), x, r.field.Modulus())
    {
      SubtractStep(a.Value(), r.Value(), u.Value(), v.Value(), x, r.field.Modulus());
      u.Subtract(v);
      a.Subtract(r);
    }

    // One pass of the inversion's outer loop.
    method InvertPass(u: Bignum, v: Bignum, a: Bignum, ghost x: nat)
      requires InvertState(u, v, a, x) && u.Value() > 0
      modifies data, u.data, v.data, a.data
      ensures InvertState(u, v, a, x) && u.Value() + v.Value() < old(u.Value() + v.Value())
    {
      HalveWhileEven(u, a, Value(), v.Value(), x);
      BezoutSwap(a.Value(), Value(), u.Value(), v.Value(), x, field.Modulus());
      HalveWhileEven(v, this, a.Value(), u.Value(), x);
      var greater := u.AtLeast(v);
      if greater {
        BezoutSwap(Value(), a.Value(), v.Value(), u.Value(), x, field.Modulus());
        SubtractBoth(u, a, v, this, x);
      } else {
        SubtractBoth(v, this, u, a, x);
        BezoutSwap(Value(), a.Value(), v.Value(), u.Value(), x, field.Modulus());
      }
    }

    // u := this, v := the modulus
    method LoadOperands(u: Bignum, v: Bignum)
      requires Valid() && u.Valid() && v.Valid() && u.field == v.field == field
      requires data != u.data && data != v.data && u.data != v.data
      modifies u.data, v.data
      ensures u.Valid() && v.Valid() && u.Value() == Value() && v.Value() == field.Modulus()
    {
      CopyDigits(u.data, data);
      CopyDigits(v.data, field.mod);
      assert data[..field.size] == data[..] && field.mod[..field.size] == field.mod[..];
    }

    // this := r below the modulus with r * this congruent to gcd(this, modulus).
    method Invert()
      requires Valid() && field.Modulus() % 2 == 1 && field.Modulus() > 1
      modifies data
      ensures Valid() && Value() < field.Modulus()
      ensures exists g: nat :: IsGcd(g, old(Value()), field.Modulus())
                            && Value() * old(Value()) % field.Modulus() == g % field.Modulus()
      ensures Value() * old(Value()) % field.Modulus() == 1 <==> Coprime(old(Value()), field.Modulus())
      ensures Prime(field.Modulus()) && 0 < old(Value()) < field.Modulus() ==>
                Value() * old(Value()) % field.Modulus() == 1
    {
      ghost var x, m := Value(), field.Modulus();
      var a := new Bignum(field, 1);
      var u := new Bignum(field, 0);
      var v := new Bignum(field, 0);
      LoadOperands(u, v);
      Assign(0);
      BezoutStart(x, m);
      var done := u.EqualsDigit(0);
      while !done
        invariant InvertState(u, v, a, x) && field.Modulus() == m
        invariant fresh(u.data) && fresh(v.data) && fresh(a.data)
        invariant done <==> u.Value() == 0
        decreases u.Value() + v.Value()
      {
        InvertPass(u, v, a, x);
        done := u.EqualsDigit(0);
      }
      BezoutEnd(a.Value(), Value(), v.Value(), x, m);
      InverseIffCoprime(Value() * x % m, x, m, v.Value());
    }
  }

  // ---- The digit routines on whole arrays ----

  method CompareWhole(a: array<Digit>, b: array<Digit>) returns (r: int)
    requires a.Length == b.Length
    ensures r == if Val(a[..]) > Val(b[..]) then 1 else if Val(a[..]) < Val(b[..]) then -1 else 0
  {
    assert a[..a.Length] == a[..] && b[..a.Length] == b[..];
    r := Compare(a, b, a.Length);
  }

  method AddWhole(res: array<Digit>, b: array<Digit>) returns (carry: bool)
    requires res.Length == b.Length
    modifies res
    ensures Val(res[..]) == old(Val(res[..])) + old(Val(b[..])) - (if carry then Power(res.Length) else 0)
    ensures Val(res[..]) < Power(res.Length)
  {
    assert res[..res.Length] == res[..] && b[..res.Length] == b[..];
    carry := SimpleAdd(res, res, b, res.Length);
    assert res[..res.Length] == res[..];
    ValBound(res[..]);
    TermIs(0, res.Length);
  }

  method SubWhole(res: array<Digit>, b: array<Digit>) returns (borrow: bool)
    requires res.Length == b.Length
    modifies res
    ensures Val(res[..]) == old(Val(res[..])) - old(Val(b[..])) + (if borrow then Power(res.Length) else 0)
    ensures Val(res[..]) < Power(res.Length)
  {
    assert res[..res.Length] == res[..] && b[..res.Length] == b[..];
    borrow := SimpleSub(res, res, b, res.Length);
    assert res[..res.Length] == res[..];
    ValBound(res[..]);
    TermIs(0, res.Length);
  }

  lemma OnceIsReduced(a: nat, m: nat)
    requires m > 0
    ensures a * 1 % m == a <==> a < m
  {
  }

  lemma OneWrap(total: nat, m: nat, v: nat)
    requires total < 2 * m && v < m && (v == total || v + m == total)
    ensures v == total % m
  {
    DivUnique(total, m, if v == total then 0 else 1);
  }

  lemma {:induction false} ValCons(d: Digit, s: seq<Digit>)
    ensures Val([d] + s) == d + BASE * Val(s)
  {
    ValSplit([d] + s, 1);
    assert ([d] + s)[..1] == [d] && ([d] + s)[1..] == s;
    assert [d][..0] == [];
  }

  lemma {:induction false} ZerosVanish(s: seq<Digit>)
    requires forall i :: 0 <= i < |s| ==> s[i] == 0
    ensures Val(s) == 0
  {
    if s != [] {
      ZerosVanish(s[..|s| - 1]);
      TermIs(0, |s| - 1);
    }
  }

  lemma DigitAndZeros(s: seq<Digit>, n: Digit)
    requires |s| > 0 && s[0] == n && forall i :: 1 <= i < |s| ==> s[i] == 0
    ensures Val(s) == n
  {
    assert s == [n] + s[1..];
    ValCons(n, s[1..]);
    ZerosVanish(s[1..]);
  }

  // done is half of (carry followed by high); c is the bit left over.
  ghost predicate Halved(done: seq<Digit>, high: seq<Digit>, c: bool, carry: bool) {
    |done| == |high| && 2 * Val(done) + Bit(c) == Val(high) + Term(Bit(carry), |high|)
  }

  lemma HalveDigit(done: seq<Digit>, high: seq<Digit>, d: Digit, h: Digit, c: bool, carry: bool)
    requires Halved(done, high, c, carry) && h == d / 2 + (if c then 0x8000_0000 else 0)
    ensures Halved([h] + done, [d] + high, d % 2 != 0, carry)
  {
    ValCons(h, done);
    ValCons(d, high);
  }

  // The digits above i are halved: d holds those of x up to i, and done.
  ghost predicate HalvedFrom(d: seq<Digit>, x: seq<Digit>, i: int, done: seq<Digit>, c: bool, carry: bool) {
    -1 <= i < |x| && d == x[..i + 1] + done && Halved(done, x[i + 1..], c, carry)
  }

  function HalfDigit(d: Digit, c: bool): Digit {
    d / 2 + (if c then 0x8000_0000 else 0)
  }

  lemma HalvedNone(x: seq<Digit>, carry: bool)
    ensures HalvedFrom(x, x, |x| - 1, [], carry, carry)
  {
    assert x[|x|..] == [] && x[..|x|] + [] == x;
  }

  lemma HalvedStep(d: seq<Digit>, x: seq<Digit>, i: nat, done: seq<Digit>, c: bool, carry: bool)
    requires HalvedFrom(d, x, i, done, c, carry)
    ensures i < |d| && d[i] == x[i]
    ensures var h := HalfDigit(d[i], c);
            HalvedFrom(d[i := h], x, i - 1, [h] + done, d[i] % 2 != 0, carry)
  {
    var h := HalfDigit(d[i], c);
    HalveDigit(done, x[i + 1..], x[i], h, c, carry);
    assert x[i..] == [x[i]] + x[i + 1..];
    assert d[i := h] == x[..i] + ([h] + done);
  }

  lemma HalvedAll(d: seq<Digit>, x: seq<Digit>, done: seq<Digit>, c: bool, carry: bool)
    requires HalvedFrom(d, x, -1, done, c, carry)
    ensures |d| == |x| && 2 * Val(d) + Bit(c) == Val(x) + Term(Bit(carry), |x|)
  {
    assert x[0..] == x && x[..0] + done == done;
  }
}
