// The two moduli in use, and their precomputed reciprocals.

module FieldConstants {
  import opened Digits
  import opened Bignums
  import opened FieldElements

  // 2^128 - 2^97 - 1, the modulus of the 16-byte numbers.
  const MOD16: seq<Digit> := [0xffff_ffff, 0xffff_ffff, 0xffff_ffff, 0xffff_fffd]
  const BARRETT16: seq<Digit> := [17, 8, 4, 2, 1]

  // 2^130 - 5, the modulus of the 17-byte numbers.
  const MOD17: seq<Digit> := [0xffff_fffb, 0xffff_ffff, 0xffff_ffff, 0xffff_ffff, 3]
  const BARRETT17: seq<Digit> := [0, 0x5000_0000, 0, 0, 0, 0x4000_0000]

  lemma Powers()
    ensures Power(3) == 0x1_00000000_00000000_00000000
    ensures Power(4) == 0x1_00000000_00000000_00000000_00000000
    ensures Power(8) == 0x1_00000000_00000000_00000000_00000000_00000000_00000000_00000000_00000000
    ensures Power(10) == 0x1_00000000_00000000_00000000_00000000_00000000_00000000_00000000_00000000_00000000_00000000
  {
    assert Power(1) == BASE;
    assert Power(2) == 0x1_00000000_00000000;
    assert Power(5) == 0x1_00000000_00000000_00000000_00000000_00000000;
    assert Power(6) == 0x1_00000000_00000000_00000000_00000000_00000000_00000000;
    assert Power(7) == 0x1_00000000_00000000_00000000_00000000_00000000_00000000_00000000;
    assert Power(9) == 0x1_00000000_00000000_00000000_00000000_00000000_00000000_00000000_00000000_00000000;
  }

  lemma FourDigits(a: Digit, b: Digit, c: Digit, d: Digit)
    ensures Val([a, b, c, d]) == a + BASE * (b + BASE * (c + BASE * d))
  {
    ValCons(d, []);
    assert [c, d] == [c] + [d];
    ValCons(c, [d]);
    assert [b, c, d] == [b] + [c, d];
    ValCons(b, [c, d]);
    assert [a, b, c, d] == [a] + [b, c, d];
    ValCons(a, [b, c, d]);
  }

  lemma FiveDigits(a: Digit, b: Digit, c: Digit, d: Digit, e: Digit)
    ensures Val([a, b, c, d, e]) == a + BASE * (b + BASE * (c + BASE * (d + BASE * e)))
  {
    FourDigits(b, c, d, e);
    assert [a, b, c, d, e] == [a] + [b, c, d, e];
    ValCons(a, [b, c, d, e]);
  }

  // The stored reciprocals are the ones Barrett's estimate needs.
  lemma Reciprocal16()
    ensures Reciprocal(BARRETT16, MOD16, 4)
    ensures Val(MOD16) == 0x1_00000000_00000000_00000000_00000000 - 0x2_00000000_00000000_00000000 - 1
  {
    Powers();
    FourDigits(MOD16[0], MOD16[1], MOD16[2], MOD16[3]);
    FiveDigits(17, 8, 4, 2, 1);
    assert MOD16 == [MOD16[0], MOD16[1], MOD16[2], MOD16[3]];
  }

  lemma Reciprocal17()
    ensures Reciprocal(BARRETT17, MOD17, 5)
    ensures Val(MOD17) == 0x4_00000000_00000000_00000000_00000000 - 5
  {
    Powers();
    FiveDigits(MOD17[0], MOD17[1], MOD17[2], MOD17[3], MOD17[4]);
    FiveDigits(0x5000_0000, 0, 0, 0, 0x4000_0000);
    assert BARRETT17 == [0] + [0x5000_0000, 0, 0, 0, 0x4000_0000];
    ValCons(0, [0x5000_0000, 0, 0, 0, 0x4000_0000]);
  }
}
