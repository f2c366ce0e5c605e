// The end of a scalar multiplication: from Jacobian to affine coordinates.

module CurvePoints {
  import opened Bignums
  import opened NumberTheory
  import opened FieldElements

  // a and b are the same modulo m.
  predicate Same(a: int, b: int, m: nat)
    requires m > 0
  {
    Divides(m, a - b)
  }

  lemma SameTimes(a: int, b: int, k: int, m: nat)
    requires m > 0 && Same(a, b, m)
    ensures Same(a * k, b * k, m)
  {
    DividesTimes(m, a - b, k);
    assert k * (a - b) == a * k - b * k;
  }

  lemma SameChain(a: int, b: int, c: int, m: nat)
    requires m > 0 && Same(a, b, m) && Same(b, c, m)
    ensures Same(a, c, m)
  {
    DividesSum(m, a - b, b - c);
  }

  lemma RemainderIsSame(a: int, m: nat)
    requires m > 0
    ensures Same(a % m, a, m)
  {
    var q := a / m;
    assert a == m * q + a % m;
    MultipleDivides(m, -q);
    assert a % m - a == -q * m;
  }

  lemma ProductIsSame(v: nat, a: nat, b: nat, m: nat)
    requires m > 0 && (v == a * b % m || (b == 1 && v == a))
    ensures Same(v, a * b, m)
  {
    if b == 1 && v == a {
      MultipleDivides(m, 0);
    } else {
      RemainderIsSame(a * b, m);
    }
  }

  // A product with the inverse i of z, multiplied by z, is the other factor.
  lemma InverseCancels(p: int, a: int, i: int, z: int, m: nat)
    requires m > 0 && Same(p, a * i, m) && Same(i * z, 1, m)
    ensures Same(p * z, a, m)
  {
    SameTimes(p, a * i, z, m);
    SameTimes(i * z, 1, a, m);
    assert i * z * a == a * i * z && 1 * a == a;
    SameChain(p * z, a * i * z, a, m);
  }

  // The same with a factor that is itself a product with the inverse.
  lemma PowerCancels(p: int, a: int, f: int, g: int, i: int, z: int, m: nat)
    requires m > 0 && Same(p, a * f, m) && Same(f, g * i, m) && Same(i * z, 1, m)
    ensures Same(p * z, a * g, m)
  {
    SameTimes(f, g * i, a, m);
    assert f * a == a * f && g * i * a == (a * g) * i;
    SameChain(p, a * f, (a * g) * i, m);
    InverseCancels(p, a * g, i, z, m);
  }

  class Point {
    const x: Bignum
    const y: Bignum
    const z: Bignum

    ghost predicate Valid()
      reads x.data, y.data, z.data, x.field.mod, y.field.mod, z.field.mod
    {
      && x.Valid() && y.Valid() && z.Valid() && x.field == y.field == z.field
      && x.data != y.data && x.data != z.data && y.data != z.data
    }

    ghost function Modulus(): nat
      reads x.field.mod
    {
      x.field.Modulus()
    }

    constructor (x: Bignum, y: Bignum, z: Bignum)
      requires x.Valid() && y.Valid() && z.Valid() && x.field == y.field == z.field
      requires x.data != y.data && x.data != z.data && y.data != z.data
      ensures Valid() && this.x == x && this.y == y && this.z == z
    {
      this.x, this.y, this.z := x, y, z;
    }

    // a := a * b, as a congruence.
    static method Scale(a: Bignum, b: Bignum)
      requires a.Valid() && b.Valid() && a.field == b.field
      modifies a.data
      ensures a.Valid() && a.field.Modulus() > 0
      ensures Same(a.Value(), old(a.Value()) * old(b.Value()), a.field.Modulus())
      ensures old(a.Value()) < a.field.Modulus() ==> a.Value() < a.field.Modulus()
    {
      ghost var u, v := a.Value(), b.Value();
      a.Multiply(b);
      ProductIsSame(a.Value(), u, v, a.field.Modulus());
    }

    // x := x / z^2, y := y / z^3, z := 1.
    method ToAffine()
      requires Valid() && Modulus() % 2 == 1 && Modulus() > 1
      modifies x.data, y.data, z.data
      ensures Valid() && z.Value() == 1
      ensures Coprime(old(z.Value()), Modulus()) ==>
                && Same(x.Value() * old(z.Value()) * old(z.Value()), old(x.Value()), Modulus())
                && Same(y.Value() * old(z.Value()) * old(z.Value()) * old(z.Value()), old(y.Value()), Modulus())
      ensures old(x.Value()) < Modulus() ==> x.Value() < Modulus()
      ensures old(y.Value()) < Modulus() ==> y.Value() < Modulus()
    {
      ghost var a, b, c, m := x.Value(), y.Value(), z.Value(), Modulus();
      z.Invert();
      ghost var i := z.Value();
      ghost var i2, i3 := ScaleByPowers();
      z.Assign(1);
      if Coprime(c, m) {
        Affine(x.Value(), y.Value(), a, b, i, i2, i3, c, m);
      }
    }

    // x := x * z^2, y := y * z^3.
    method ScaleByPowers() returns (ghost i2: nat, ghost i3: nat)
      requires Valid()
      modifies x.data, y.data
      ensures Valid() && Modulus() > 0
      ensures Same(i2, z.Value() * z.Value(), Modulus()) && Same(i3, i2 * z.Value(), Modulus())
      ensures Same(x.Value(), old(x.Value()) * i2, Modulus()) && Same(y.Value(), old(y.Value()) * i3, Modulus())
      ensures old(x.Value()) < Modulus() ==> x.Value() < Modulus()
      ensures old(y.Value()) < Modulus() ==> y.Value() < Modulus()
    {
      var f := Copy(z);
      Scale(f, z);
      i2 := f.Value();
      Scale(x, f);
      Scale(f, z);
      i3 := f.Value();
      Scale(y, f);
    }

    static method Copy(n: Bignum) returns (f: Bignum)
      requires n.Valid()
      ensures f.Valid() && fresh(f) && fresh(f.data) && f.field == n.field && f.Value() == n.Value()
    {
      f := new Bignum(n.field, 0);
      CopyDigits(f.data, n.data);
      assert n.data[..n.data.Length] == n.data[..];
    }
  }

  // x' and y' are the affine coordinates, i the inverse of z, i2 and i3 its powers.
  lemma Affine(x': int, y': int, x: int, y: int, i: int, i2: int, i3: int, z: int, m: nat)
    requires m > 1 && i * z % m == 1
    requires Same(i2, i * i, m) && Same(i3, i2 * i, m) && Same(x', x * i2, m) && Same(y', y * i3, m)
    ensures Same(x' * z * z, x, m) && Same(y' * z * z * z, y, m)
  {
    RemainderIsSame(i * z, m);
    SameSwap(1, i * z, m);
    PowerCancels(x', x, i2, i, i, z, m);
    InverseCancels(x' * z, x, i, z, m);
    PowerCancels(y', y, i3, i2, i, z, m);
    PowerCancels(y' * z, y, i2, i, i, z, m);
    InverseCancels(y' * z * z, y, i, z, m);
  }

  lemma SameSwap(a: int, b: int, m: nat)
    requires m > 0 && Same(a, b, m)
    ensures Same(b, a, m)
  {
    DividesTimes(m, a - b, -1);
    assert -1 * (a - b) == b - a;
  }
}
