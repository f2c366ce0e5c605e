// Powers of two and naturally aligned blocks, shared by the allocator and the page tables.

module Powers {

  function Pow2(n: nat): (p: nat)
    ensures p > 0
  {
    if n == 0 then 1 else 2 * Pow2(n - 1)
  }

  lemma {:induction false} Pow2Monotone(i: nat, j: nat)
    requires i <= j
    ensures Pow2(i) <= Pow2(j)
    ensures i < j ==> Pow2(i) < Pow2(j)
    decreases j
  {
    if i < j {
      Pow2Monotone(i, j - 1);
    }
  }

  // The start of the naturally aligned block of 2^k bytes that holds address x.
  function Floor(k: nat, x: nat): (b: nat)
    ensures b <= x < b + Pow2(k)
    ensures b % Pow2(k) == 0
  {
    FloorBounds(x, Pow2(k));
    x - x % Pow2(k)
  }

  lemma FloorBounds(x: nat, s: nat)
    requires s > 0
    ensures 0 <= x - x % s <= x < x - x % s + s
    ensures (x - x % s) % s == 0
  {
    var q := x / s;
    assert x - x % s == q * s;
    MultipleMod(q, s);
  }

  lemma MultipleMod(q: nat, s: nat)
    requires s > 0
    ensures (q * s) % s == 0
  {
    DivUnique(q * s, s, q);
  }

  lemma MulAtLeast(k: nat, s: nat)
    requires k >= 1
    ensures k * s >= s
  {
    assert k * s == (k - 1) * s + s;
  }

  lemma DivUnique(x: nat, s: nat, q: nat)
    requires s > 0 && q * s <= x < q * s + s
    ensures x / s == q && x % s == x - q * s
  {
    var d := x / s;
    assert x == d * s + x % s;
    if d > q {
      MulAtLeast(d - q, s);
    } else if d < q {
      MulAtLeast(q - d, s);
    }
  }

  // An aligned block is the floor of each of its bytes.
  lemma FloorUnique(k: nat, a: nat, x: nat)
    requires a % Pow2(k) == 0 && a <= x < a + Pow2(k)
    ensures Floor(k, x) == a
  {
    var s := Pow2(k);
    assert a == (a / s) * s;
    DivUnique(x, s, a / s);
  }

  lemma FloorAligned(k: nat, a: nat)
    requires a % Pow2(k) == 0
    ensures Floor(k, a) == a
  {
  }

  // One level up: a block is one of the two halves of its parent.
  lemma FloorStep(k: nat, x: nat)
    ensures var p := Floor(k + 1, x);
            Floor(k, x) == p || Floor(k, x) == p + Pow2(k)
    ensures Floor(k + 1, Floor(k, x)) == Floor(k + 1, x)
    ensures Floor(k + 1, x) % Pow2(k) == 0
    ensures (Floor(k + 1, x) + Pow2(k)) % Pow2(k) == 0
  {
    var s := Pow2(k);
    var p := Floor(k + 1, x);
    var q := p / (2 * s);
    assert p == q * (2 * s);
    assert p == (2 * q) * s;
    MultipleMod(2 * q, s);
    assert p + s == (2 * q + 1) * s;
    MultipleMod(2 * q + 1, s);
    if x < p + s {
      FloorUnique(k, p, x);
    } else {
      FloorUnique(k, p + s, x);
    }
    FloorUnique(k + 1, p, Floor(k, x));
  }

  // Floors nest: rounding down in two steps is rounding down once.
  lemma {:induction false} FloorNests(i: nat, j: nat, x: nat)
    requires i <= j
    ensures Floor(j, Floor(i, x)) == Floor(j, x)
    ensures Floor(j, x) <= Floor(i, x)
    decreases j - i
  {
    if i == j {
      FloorAligned(i, Floor(i, x));
    } else {
      FloorStep(i, x);
      FloorNests(i + 1, j, x);
      FloorNests(i + 1, j, Floor(i, x));
    }
  }

  lemma {:induction false} AlignedBelow(i: nat, j: nat, a: nat)
    requires i <= j && a % Pow2(j) == 0
    ensures a % Pow2(i) == 0
    decreases j
  {
    if i < j {
      FloorAligned(j, a);
      FloorStep(j - 1, a);
      AlignedBelow(i, j - 1, a);
    }
  }

  // The two halves of an aligned block.
  lemma Halves(k: nat, a: nat)
    requires a % Pow2(k + 1) == 0
    ensures a % Pow2(k) == 0 && (a + Pow2(k)) % Pow2(k) == 0
    ensures Floor(k + 1, a) == a && Floor(k + 1, a + Pow2(k)) == a
    ensures Floor(k, a) == a && Floor(k, a + Pow2(k)) == a + Pow2(k)
  {
    FloorAligned(k + 1, a);
    FloorStep(k, a);
    FloorUnique(k + 1, a, a + Pow2(k));
    FloorAligned(k, a);
    FloorAligned(k, a + Pow2(k));
  }
}
