// The test vector of section 2.5.2 of RFC 8439: the multiplier, the blocks and the tag as numbers.

module Poly1305Vectors {
  import opened Digits
  import opened Poly1305s

  const MULTIPLIER: seq<Byte> :=
    [0x85, 0xd6, 0xbe, 0x78] + [0x57, 0x55, 0x6d, 0x33] + [0x7f, 0x44, 0x52, 0xfe] + [0x42, 0xd5, 0x06, 0xa8]

  const CLAMPED: seq<Byte> :=
    [0x85, 0xd6, 0xbe, 0x08] + [0x54, 0x55, 0x6d, 0x03] + [0x7c, 0x44, 0x52, 0x0e] + [0x40, 0xd5, 0x06, 0x08]

  // "Cryptographic Forum Research Group", block by block.
  const FIRST: seq<Byte> :=
    [0x43, 0x72, 0x79, 0x70] + [0x74, 0x6f, 0x67, 0x72] + [0x61, 0x70, 0x68, 0x69] + [0x63, 0x20, 0x46, 0x6f]

  const SECOND: seq<Byte> :=
    [0x72, 0x75, 0x6d, 0x20] + [0x52, 0x65, 0x73, 0x65] + [0x61, 0x72, 0x63, 0x68] + [0x20, 0x47, 0x72, 0x6f]

  const THIRD: seq<Byte> := [0x75, 0x70]

  const MESSAGE: seq<Byte> := FIRST + SECOND + THIRD

  // The multiplier as it is kept, and the tag with a pad.
  lemma {:induction false} Vector()
    ensures ByteVal(ClampedBytes(MULTIPLIER)) == 0x806d5400e52447c036d555408bed685
    ensures Tag(MESSAGE, 0x806d5400e52447c036d555408bed685, 0x1bf54941aff6bf4afdb20dfb8a800301)
            == 0xa927010caf8b2bc2c6365130c11d06a8
  {
    ClampedMultiplier();
    MessageTag(MESSAGE);
  }

  lemma {:induction false} MessageTag(m: seq<Byte>)
    requires m == MESSAGE
    ensures Tag(m, 0x806d5400e52447c036d555408bed685, 0x1bf54941aff6bf4afdb20dfb8a800301)
            == 0xa927010caf8b2bc2c6365130c11d06a8
  {
    ThreeBlocks(m);
    Accumulators();
    TagOf(m, 0x806d5400e52447c036d555408bed685, 0x1bf54941aff6bf4afdb20dfb8a800301,
          [0x16f4620636968706172676f7470797243, 0x16f7247206863726165736552206d7572, 0x17075],
          0x28d31b7caff946c77c8844335369d03a7);
  }

  lemma {:induction false} TagOf(m: seq<Byte>, r: nat, pad: nat, c: seq<nat>, h: nat)
    requires Blocks(m) == c && Polynomial(c, r) % 0x3_ffffffff_ffffffff_ffffffff_fffffffb == h
    ensures Tag(m, r, pad) == (h + pad) % 0x1_00000000_00000000_00000000_00000000
  {
  }

  // ---- Bytes ----

  function Little(s: seq<Byte>): nat
    requires |s| == 4
  {
    s[0] as nat + 0x100 * s[1] as nat + 0x1_0000 * s[2] as nat + 0x100_0000 * s[3] as nat
  }

  lemma {:induction false} LittleWord(a: Byte, b: Byte, c: Byte, d: Byte)
    ensures Little([a, b, c, d]) == a as nat + 0x100 * b as nat + 0x1_0000 * c as nat + 0x100_0000 * d as nat
  {
  }

  // The first four bytes, and the others.
  lemma {:induction false} FirstWord(w: seq<Byte>, t: seq<Byte>)
    requires |w| == 4
    ensures ByteVal(w + t) == Little(w) + 0x1_0000_0000 * ByteVal(t)
  {
    FourBytes(w + t);
    FourByteDigit(w[0], w[1], w[2], w[3]);
    assert (w + t)[..4] == w == [w[0], w[1], w[2], w[3]] && (w + t)[4..] == t;
  }

  lemma {:induction false} Sixteen(a: seq<Byte>, b: seq<Byte>, c: seq<Byte>, d: seq<Byte>, t: seq<Byte>)
    requires |a| == |b| == |c| == |d| == 4
    ensures ByteVal(a + b + c + d + t)
            == Little(a) + 0x1_00000000 * Little(b) + 0x1_00000000_00000000 * Little(c)
               + 0x1_00000000_00000000_00000000 * Little(d) + 0x1_00000000_00000000_00000000_00000000 * ByteVal(t)
  {
    FirstWord(a, b + (c + (d + t)));
    FirstWord(b, c + (d + t));
    FirstWord(c, d + t);
    FirstWord(d, t);
    assert a + b + c + d + t == a + (b + (c + (d + t)));
  }

  lemma {:induction false} ClampedValue(t: seq<Byte>)
    ensures ByteVal([0x85, 0xd6, 0xbe, 0x08] + [0x54, 0x55, 0x6d, 0x03] + [0x7c, 0x44, 0x52, 0x0e] + [0x40, 0xd5, 0x06, 0x08] + t)
            == 0x806d5400e52447c036d555408bed685 + 0x1_00000000_00000000_00000000_00000000 * ByteVal(t)
  {
    LittleWord(0x85, 0xd6, 0xbe, 0x08);
    LittleWord(0x54, 0x55, 0x6d, 0x03);
    LittleWord(0x7c, 0x44, 0x52, 0x0e);
    LittleWord(0x40, 0xd5, 0x06, 0x08);
    Sixteen([0x85, 0xd6, 0xbe, 0x08], [0x54, 0x55, 0x6d, 0x03], [0x7c, 0x44, 0x52, 0x0e], [0x40, 0xd5, 0x06, 0x08], t);
  }

  lemma {:induction false} FirstValue(t: seq<Byte>)
    ensures ByteVal([0x43, 0x72, 0x79, 0x70] + [0x74, 0x6f, 0x67, 0x72] + [0x61, 0x70, 0x68, 0x69] + [0x63, 0x20, 0x46, 0x6f] + t)
            == 0x6f4620636968706172676f7470797243 + 0x1_00000000_00000000_00000000_00000000 * ByteVal(t)
  {
    LittleWord(0x43, 0x72, 0x79, 0x70);
    LittleWord(0x74, 0x6f, 0x67, 0x72);
    LittleWord(0x61, 0x70, 0x68, 0x69);
    LittleWord(0x63, 0x20, 0x46, 0x6f);
    Sixteen([0x43, 0x72, 0x79, 0x70], [0x74, 0x6f, 0x67, 0x72], [0x61, 0x70, 0x68, 0x69], [0x63, 0x20, 0x46, 0x6f], t);
  }

  lemma {:induction false} SecondValue(t: seq<Byte>)
    ensures ByteVal([0x72, 0x75, 0x6d, 0x20] + [0x52, 0x65, 0x73, 0x65] + [0x61, 0x72, 0x63, 0x68] + [0x20, 0x47, 0x72, 0x6f] + t)
            == 0x6f7247206863726165736552206d7572 + 0x1_00000000_00000000_00000000_00000000 * ByteVal(t)
  {
    LittleWord(0x72, 0x75, 0x6d, 0x20);
    LittleWord(0x52, 0x65, 0x73, 0x65);
    LittleWord(0x61, 0x72, 0x63, 0x68);
    LittleWord(0x20, 0x47, 0x72, 0x6f);
    Sixteen([0x72, 0x75, 0x6d, 0x20], [0x52, 0x65, 0x73, 0x65], [0x61, 0x72, 0x63, 0x68], [0x20, 0x47, 0x72, 0x6f], t);
  }

  lemma {:induction false} ClampedMultiplier()
    ensures ByteVal(ClampedBytes(MULTIPLIER)) == 0x806d5400e52447c036d555408bed685
  {
    Clamped(MULTIPLIER, CLAMPED);
    ClampedValue([]);
    assert CLAMPED + [] == CLAMPED;
  }

  // ---- Blocks ----

  lemma {:induction false} ThreeBlocks(m: seq<Byte>)
    requires m == MESSAGE
    ensures Blocks(m)
            == [0x16f4620636968706172676f7470797243, 0x16f7247206863726165736552206d7572, 0x17075]
  {
    BlocksOf(FIRST, SECOND, THIRD);
    FirstValue([1]);
    SecondValue([1]);
    Short(0x75, 0x70);
    One();
  }

  lemma {:induction false} One()
    ensures ByteVal([1]) == 1
  {
  }

  lemma {:induction false} Short(a: Byte, b: Byte)
    ensures ByteVal([a, b] + [1]) == a as nat + 0x100 * b as nat + 0x1_0000
  {
    var two: seq<Byte>, three: seq<Byte> := [b, 1], [a, b] + [1];
    assert three[1..] == two && two[1..] == [1];
    One();
    assert ByteVal(two) == b as nat + 0x100;
    assert ByteVal(three) == a as nat + 0x100 * ByteVal(two);
  }

  lemma {:induction false} BlocksOf(a: seq<Byte>, b: seq<Byte>, c: seq<Byte>)
    requires |a| == |b| == 16 && 0 < |c| <= 16
    ensures Blocks(a + b + c) == [ByteVal(a + [1]), ByteVal(b + [1]), ByteVal(c + [1])]
  {
    OneBlock(a, b + c);
    OneBlock(b, c);
    assert a + b + c == a + (b + c);
  }

  lemma {:induction false} OneBlock(a: seq<Byte>, rest: seq<Byte>)
    requires |a| == 16 && rest != []
    ensures Blocks(a + rest) == [ByteVal(a + [1])] + Blocks(rest)
  {
    assert (a + rest)[..16] == a && (a + rest)[16..] == rest;
  }

  // ---- The polynomial ----

  lemma {:induction false} Accumulators()
    ensures Polynomial([0x16f4620636968706172676f7470797243, 0x16f7247206863726165736552206d7572, 0x17075],
                       0x806d5400e52447c036d555408bed685)
            % 0x3_ffffffff_ffffffff_ffffffff_fffffffb == 0x28d31b7caff946c77c8844335369d03a7
  {
    FirstStep();
    SecondStep();
    ThirdStep();
    ThreeSteps(0x16f4620636968706172676f7470797243, 0x16f7247206863726165736552206d7572, 0x17075,
               0x806d5400e52447c036d555408bed685, 0x3_ffffffff_ffffffff_ffffffff_fffffffb);
  }

  lemma {:induction false} FirstStep()
    ensures 0x16f4620636968706172676f7470797243 % 0x3_ffffffff_ffffffff_ffffffff_fffffffb
            * 0x806d5400e52447c036d555408bed685 % 0x3_ffffffff_ffffffff_ffffffff_fffffffb
            == 0x2c88c77849d64ae9147ddeb88e69c83fc
  {
  }

  lemma {:induction false} SecondStep()
    ensures (0x2c88c77849d64ae9147ddeb88e69c83fc + 0x16f7247206863726165736552206d7572)
            % 0x3_ffffffff_ffffffff_ffffffff_fffffffb
            * 0x806d5400e52447c036d555408bed685 % 0x3_ffffffff_ffffffff_ffffffff_fffffffb
            == 0x2d8adaf23b0337fa7cccfb4ea344b30de
  {
  }

  lemma {:induction false} ThirdStep()
    ensures (0x2d8adaf23b0337fa7cccfb4ea344b30de + 0x17075) % 0x3_ffffffff_ffffffff_ffffffff_fffffffb
            * 0x806d5400e52447c036d555408bed685 % 0x3_ffffffff_ffffffff_ffffffff_fffffffb
            == 0x28d31b7caff946c77c8844335369d03a7
  {
  }

  lemma {:induction false} ThreeSteps(a: nat, b: nat, c: nat, r: nat, p: nat)
    requires p > 0
    ensures Polynomial([a, b, c], r) % p == ((a % p * r % p + b) % p * r % p + c) % p * r % p
  {
    NoBlocks(r, p);
    var none: seq<nat>, one: seq<nat>, two: seq<nat> := [], [a], [a, b];
    assert none + [a] == one && one + [b] == two && two + [c] == [a, b, c];
    var h := a % p * r % p;
    AbsorbStep(none, a, r, p, 0);
    assert h == Polynomial(one, r) % p;
    AbsorbStep(one, b, r, p, h);
    AbsorbStep(two, c, r, p, (h + b) % p * r % p);
  }

  lemma {:induction false} NoBlocks(r: nat, p: nat)
    requires p > 0
    ensures Polynomial([], r) % p == 0
  {
  }
}
