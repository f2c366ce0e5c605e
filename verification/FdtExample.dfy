// A device tree file byte by byte: a root node with one property, "a", whose value is the byte 7.

module FdtExamples {
  import opened Options
  import opened FlatTrees
  import opened FdtBuilders

  // The header, in two halves of five words.
  const FRONT: Bytes := [0xd0, 0x0d, 0xfe, 0xed, 0, 0, 0, 90, 0, 0, 0, 56, 0, 0, 0, 88, 0, 0, 0, 40]

  const BACK: Bytes := [0, 0, 0, 17, 0, 0, 0, 16, 0, 0, 0, 0, 0, 0, 0, 2, 0, 0, 0, 64]

  const RESERVED: Bytes := [0, 0, 0, 0, 0, 0, 0, 0, 0, 0, 0, 0, 0, 0, 0, 0]

  const BLOCK: Bytes :=
    [0, 0, 0, 1, 0, 0, 0, 0] + [0, 0, 0, 3, 0, 0, 0, 1, 0, 0, 0, 0, 7, 0, 0, 0] + [0, 0, 0, 2] + [0, 0, 0, 9]

  const FILE: Bytes := FRONT + BACK + RESERVED + BLOCK + [0x61, 0]

  // What the builder leaves in a buffer that is large enough.
  method OneProperty(buffer: array<Byte>) returns (n: nat)
    requires 90 <= buffer.Length < WORD
    modifies buffer
    ensures n == 90 <= buffer.Length && buffer[..n] == FILE
    ensures ReadTree(buffer[..n]) == Some([Node([], [Leaf([0x61], [7])])])
  {
    var builder := Build(buffer);
    Tree();
    n := builder.Finish();
    Assembled(buffer[..n], buffer[..]);
  }

  method Build(buffer: array<Byte>) returns (builder: FdtBuilder)
    requires 90 <= buffer.Length < WORD
    modifies buffer
    ensures fresh(builder) && builder.buffer == buffer && builder.Valid() && builder.Names() == [0x61, 0]
    ensures builder.cursor == 84 && builder.stringsCursor == buffer.Length - 2
    ensures builder.tokens == [Begin([]), Prop(2, [7]), End] && builder.events == [Begins([]), Property([0x61], [7]), Ends]
  {
    builder := Filled(buffer);
    builder.End();
  }

  method Filled(buffer: array<Byte>) returns (builder: FdtBuilder)
    requires 90 <= buffer.Length < WORD
    modifies buffer
    ensures fresh(builder) && builder.buffer == buffer && builder.Valid() && builder.Names() == [0x61, 0]
    ensures builder.cursor == 80 && builder.stringsCursor == buffer.Length - 2
    ensures builder.tokens == [Begin([]), Prop(2, [7])] && builder.events == [Begins([]), Property([0x61], [7])]
  {
    builder := Opened(buffer);
    builder.AddProperty([0x61], [7]);
  }

  method Opened(buffer: array<Byte>) returns (builder: FdtBuilder)
    requires 90 <= buffer.Length < WORD
    modifies buffer
    ensures fresh(builder) && builder.buffer == buffer && builder.Valid() && builder.Names() == []
    ensures builder.cursor == 64 && builder.stringsCursor == buffer.Length
    ensures builder.tokens == [Begin([])] && builder.events == [Begins([])]
  {
    builder := new FdtBuilder(buffer);
    builder.Begin([]);
  }

  lemma {:induction false} Tree()
    ensures Events([Node([], [Leaf([0x61], [7])])]) == [Begins([]), Property([0x61], [7]), Ends]
  {
    var leaf, none: seq<Item> := Leaf([0x61], [7]), [];
    assert [leaf] == [leaf] + none && [Node([], [leaf])] == [Node([], [leaf])] + none;
    EventsCons(leaf, none);
    EventsCons(Node([], [leaf]), none);
  }

  // The structure block, its names being two bytes long.
  lemma {:induction false} Block()
    ensures EmitAll(Patched([Begin([]), Prop(2, [7]), End], 2)) + Word(END) == BLOCK
  {
    var ts := [Begin([]), Prop(0, [7]), End];
    assert Patched([Begin([]), Prop(2, [7]), End], 2) == ts;
    ThreeTokens(ts[0], ts[1], ts[2]);
    RootBegins();
    ValueIsSeven();
  }

  lemma {:induction false} RootBegins()
    ensures Emit(Begin([])) == [0, 0, 0, 1, 0, 0, 0, 0]
  {
    ThreeZeros();
    assert [] + [0] == [0 as Byte];
  }

  lemma {:induction false} ValueIsSeven()
    ensures Emit(Prop(0, [7])) == [0, 0, 0, 3, 0, 0, 0, 1, 0, 0, 0, 0, 7, 0, 0, 0]
  {
    ThreeZeros();
    PropBytes(0, [7]);
    assert Word(1) == [0, 0, 0, 1] && Word(0) == [0, 0, 0, 0];
  }

  lemma {:induction false} ThreeZeros()
    ensures Padding(1) == [0, 0, 0]
  {
    assert Up4(1) == 4;
    FillingIsZeros(1);
    assert |Padding(1)| == 3;
  }

  lemma {:induction false} ThreeTokens(a: Token, b: Token, c: Token)
    ensures EmitAll([a, b, c]) == Emit(a) + Emit(b) + Emit(c)
  {
    assert [a, b, c][1..] == [b, c] && [b, c][1..] == [c] && [c][1..] == [];
    assert EmitAll([c]) == Emit(c) + [];
    AppendAssociates(Emit(a), Emit(b), Emit(c));
  }

  lemma {:induction false} HeadWord(file: Bytes, fields: seq<nat>, i: nat, a: Byte, b: Byte, c: Byte, d: Byte)
    requires Header(file, fields) && i < 10
    requires a as nat * 0x100_0000 + b as nat * 0x1_0000 + c as nat * 0x100 + d as nat == fields[i]
    ensures file[4 * i] == a && file[4 * i + 1] == b && file[4 * i + 2] == c && file[4 * i + 3] == d
  {
    var w := file[4 * i..4 * i + 4];
    assert BigEndian(w, fields[i]);
    assert w[0] == file[4 * i] && w[1] == file[4 * i + 1] && w[2] == file[4 * i + 2] && w[3] == file[4 * i + 3];
  }

  lemma {:induction false} Front(file: Bytes)
    requires Header(file, [0xd00d_feed, 90, 56, 88, 40, 17, 16, 0, 2, 64])
    ensures file[..20] == FRONT
  {
    var fields := [0xd00d_feed, 90, 56, 88, 40, 17, 16, 0, 2, 64];
    HeadWord(file, fields, 0, 0xd0, 0x0d, 0xfe, 0xed);
    HeadWord(file, fields, 1, 0, 0, 0, 90);
    HeadWord(file, fields, 2, 0, 0, 0, 56);
    HeadWord(file, fields, 3, 0, 0, 0, 88);
    HeadWord(file, fields, 4, 0, 0, 0, 40);
  }

  // Equal byte by byte.
  lemma {:induction false} Quarters(s: Bytes, t: Bytes)
    requires |s| == |t| == 20
    requires forall i :: 0 <= i < 5 ==>
               && s[4 * i] == t[4 * i] && s[4 * i + 1] == t[4 * i + 1]
               && s[4 * i + 2] == t[4 * i + 2] && s[4 * i + 3] == t[4 * i + 3]
    ensures s == t
  {
    forall j | 0 <= j < 20
      ensures s[j] == t[j]
    {
      var i, k := j / 4, j % 4;
      assert j == 4 * i + k;
    }
  }

  lemma {:induction false} Back(file: Bytes)
    requires Header(file, [0xd00d_feed, 90, 56, 88, 40, 17, 16, 0, 2, 64])
    ensures file[20..40] == BACK
  {
    var fields := [0xd00d_feed, 90, 56, 88, 40, 17, 16, 0, 2, 64];
    HeadWord(file, fields, 5, 0, 0, 0, 17);
    HeadWord(file, fields, 6, 0, 0, 0, 16);
    HeadWord(file, fields, 7, 0, 0, 0, 0);
    HeadWord(file, fields, 8, 0, 0, 0, 2);
    HeadWord(file, fields, 9, 0, 0, 0, 64);
    Quarters(file[20..40], BACK);
  }

  lemma {:induction false} Zero(s: Bytes)
    requires |s| == 16 && AllZero(s)
    ensures s == RESERVED
  {
  }

  lemma {:induction false} Cuts(file: Bytes, b: Bytes)
    requires |b| >= 90 && file == b[..90]
    ensures file == file[..20] + file[20..40] + b[40..56] + b[56..88] + b[88..90]
  {
  }

  lemma {:induction false} Assembled(file: Bytes, b: Bytes)
    requires |b| >= 90 && file == b[..90] && Framed(b, 90, 88) && AllZero(b[40..56])
    requires b[56..88] == EmitAll(Patched([Begin([]), Prop(2, [7]), End], 2)) + Word(END) && b[88..90] == [0x61, 0]
    ensures file == FILE
  {
    Front(file);
    Back(file);
    Block();
    Zero(b[40..56]);
    Cuts(file, b);
  }
}
