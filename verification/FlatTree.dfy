// The flattened device tree format: tokens, a reader for them, and the round trip
// (Devicetree Specification v0.4, sections 5.4 and 5.5).

module FlatTrees {
  import opened Options

  type Byte = b: nat | b < 256
  type Bytes = seq<Byte>

  const BEGIN_NODE: nat := 1
  const END_NODE: nat := 2
  const PROP: nat := 3
  const END: nat := 9
  const MAGIC: nat := 0xd00d_feed
  const WORD: nat := 0x1_0000_0000

  // ---- Words, zeros, names ----

  // The low 32 bits of a number, most significant byte first.
  function Word(v: nat): (s: Bytes)
    ensures |s| == 4
  {
    [Low(v / 256 / 256 / 256), Low(v / 256 / 256), Low(v / 256), Low(v)]
  }

  function Low(v: nat): Byte {
    v % 256
  }

  function WordAt(s: Bytes, i: nat): nat
    requires i + 4 <= |s|
  {
    ((s[i] as nat * 256 + s[i + 1] as nat) * 256 + s[i + 2] as nat) * 256 + s[i + 3] as nat
  }

  lemma {:induction false} WordRoundTrip(v: nat)
    requires v < WORD
    ensures WordAt(Word(v), 0) == v
  {
  }

  // A word at the head of a text, and what is behind it.
  lemma {:induction false} WordFirst(v: nat, more: Bytes)
    requires v < WORD
    ensures WordAt(Word(v) + more, 0) == v && (Word(v) + more)[4..] == more
  {
    WordRoundTrip(v);
    assert forall i: nat :: i < 4 ==> (Word(v) + more)[i] == Word(v)[i];
  }

  lemma {:induction false} WordBehind(s: Bytes, i: nat, n: nat)
    requires i + n + 4 <= |s|
    ensures WordAt(s[i..], n) == WordAt(s, i + n)
  {
  }

  function Zeros(n: nat): (s: Bytes)
    ensures |s| == n
  {
    if n == 0 then [] else [0] + Zeros(n - 1)
  }

  // Up to the next multiple of four.
  function Up4(n: nat): (r: nat)
    ensures n <= r < n + 4 && r % 4 == 0
  {
    (n + 3) / 4 * 4
  }

  function Padded(s: Bytes): (r: Bytes)
    ensures |r| == Up4(|s|) && s <= r
  {
    s + Padding(|s|)
  }

  function Padding(n: nat): Bytes {
    Zeros(Up4(n) - n)
  }

  // A name in memory ends at its first zero byte.
  function CString(s: Bytes): Option<Bytes> {
    if s == [] then None
    else if s[0] == 0 then Some([])
    else match CString(s[1..])
      case None => None
      case Some(rest) => Some([s[0]] + rest)
  }

  lemma {:induction false} CStringReads(name: Bytes, more: Bytes)
    requires 0 !in name
    ensures CString(name + [0] + more) == Some(name)
  {
    if name != [] {
      assert (name + [0] + more)[1..] == name[1..] + [0] + more;
      CStringReads(name[1..], more);
      assert name == [name[0]] + name[1..];
    }
  }

  // ---- Structure block ----

  // What the structure block says: a property names itself by a number into the strings block.
  datatype Token = Begin(name: Bytes) | End | Prop(at: nat, value: Bytes)

  // What a reader learns from it.
  datatype Event = Begins(name: Bytes) | Ends | Property(name: Bytes, value: Bytes)

  function Size(t: Token): (n: nat)
    ensures n % 4 == 0 && n >= 4
  {
    match t
    case Begin(name) => AlignedSum(4, Up4(|name| + 1)); 4 + Up4(|name| + 1)
    case End => 4
    case Prop(at, value) => AlignedSum(12, Up4(|value|)); 12 + Up4(|value|)
  }

  function Emit(t: Token): (s: Bytes)
    ensures |s| == Size(t)
  {
    match t
    case Begin(name) => Word(BEGIN_NODE) + Padded(name + [0])
    case End => Word(END_NODE)
    case Prop(at, value) => Word(PROP) + (Word(|value|) + (Word(at) + Padded(value)))
  }

  function EmitAll(ts: seq<Token>): Bytes {
    if ts == [] then [] else Emit(ts[0]) + EmitAll(ts[1..])
  }

  lemma {:induction false} AlignedSum(a: nat, b: nat)
    requires a % 4 == 0 && b % 4 == 0
    ensures (a + b) % 4 == 0
  {
  }

  lemma {:induction false} EmitAllSnoc(ts: seq<Token>, t: Token)
    ensures EmitAll(ts + [t]) == EmitAll(ts) + Emit(t)
  {
    var all := ts + [t];
    if ts == [] {
      assert all == [t] && all[1..] == [];
    } else {
      var tail := ts[1..];
      assert all[0] == ts[0] && all[1..] == tail + [t];
      EmitAllSnoc(tail, t);
      AppendAssociates(Emit(ts[0]), EmitAll(tail), Emit(t));
    }
  }

  lemma {:induction false} AppendAssociates(a: Bytes, b: Bytes, c: Bytes)
    ensures a + (b + c) == a + b + c
  {
  }

  // ---- The bytes themselves ----

  // Four bytes that make up a number, the most significant first.
  predicate BigEndian(w: Bytes, v: nat) {
    |w| == 4 && w[0] as nat * 0x100_0000 + w[1] as nat * 0x1_0000 + w[2] as nat * 0x100 + w[3] as nat == v
  }

  // Zeros that fill up a word.
  predicate Filling(pad: Bytes) {
    |pad| < 4 && forall i :: 0 <= i < |pad| ==> pad[i] == 0
  }

  lemma {:induction false} WordBytes(v: nat)
    requires v < WORD
    ensures BigEndian(Word(v), v)
  {
    WordRoundTrip(v);
  }

  lemma {:induction false} WordAtBytes(s: Bytes, i: nat)
    requires i + 4 <= |s|
    ensures BigEndian(s[i..i + 4], WordAt(s, i))
  {
  }

  lemma {:induction false} BigEndianUnique(w: Bytes, v: nat)
    requires BigEndian(w, v)
    ensures w == Word(v)
  {
    assert v == ((w[0] as nat * 256 + w[1] as nat) * 256 + w[2] as nat) * 256 + w[3] as nat;
  }

  // Every token starts with its tag. The words of a property are four bytes each, the value and the name
  // of a node are there as they are, and zeros fill up the last word.
  lemma {:induction false} TokenBytes(t: Token)
    requires Fits(t)
    ensures |Emit(t)| % 4 == 0
    ensures t.Begin? ==> exists pad: Bytes :: Filling(pad) && Emit(t) == [0, 0, 0, 1] + t.name + [0] + pad
    ensures t.End? ==> Emit(t) == [0, 0, 0, 2]
    ensures t.Prop? ==> exists length: Bytes, offset: Bytes, pad: Bytes ::
                BigEndian(length, |t.value|) && BigEndian(offset, t.at) && Filling(pad)
                && Emit(t) == [0, 0, 0, 3] + length + offset + t.value + pad
  {
    match t
    case Begin(name) =>
      FillingIsZeros(|name| + 1);
      assert Emit(t) == [0, 0, 0, 1] + name + [0] + Padding(|name| + 1);
    case End =>
    case Prop(at, value) =>
      PropBytes(at, value);
  }

  lemma {:induction false} PropBytes(at: nat, value: Bytes)
    requires at < WORD && |value| < WORD
    ensures BigEndian(Word(|value|), |value|) && BigEndian(Word(at), at) && Filling(Padding(|value|))
    ensures Emit(Prop(at, value)) == [0, 0, 0, 3] + Word(|value|) + Word(at) + value + Padding(|value|)
  {
    FillingIsZeros(|value|);
    WordBytes(|value|);
    WordBytes(at);
    assert Word(PROP) == [0, 0, 0, 3];
    AppendAssociates([0, 0, 0, 3] + Word(|value|) + Word(at), value, Padding(|value|));
    AppendAssociates([0, 0, 0, 3] + Word(|value|), Word(at), Padded(value));
    AppendAssociates([0, 0, 0, 3], Word(|value|), Word(at) + Padded(value));
  }

  lemma {:induction false} FillingIsZeros(n: nat)
    ensures Filling(Padding(n))
  {
    ZerosAreZero(Up4(n) - n);
  }

  lemma {:induction false} ZerosAreZero(n: nat)
    ensures forall i :: 0 <= i < n ==> Zeros(n)[i] == 0
  {
    if n > 0 {
      ZerosAreZero(n - 1);
    }
  }

  // The token at the head of s, with the number of bytes it takes; None for a malformed one.
  function ReadToken(s: Bytes): (r: Option<(Token, nat)>)
    ensures r.Some? ==> 4 <= r.value.1 <= |s|
  {
    if |s| < 4 then None
    else if WordAt(s, 0) == END_NODE then Some((End, 4))
    else if WordAt(s, 0) == BEGIN_NODE then
      match CString(s[4..])
      case None => None
      case Some(name) => if Up4(4 + |name| + 1) <= |s| then Some((Begin(name), Up4(4 + |name| + 1))) else None
    else if WordAt(s, 0) == PROP && 12 <= |s| && Up4(12 + WordAt(s, 4)) <= |s| then
      Some((Prop(WordAt(s, 8), s[12..12 + WordAt(s, 4)]), Up4(12 + WordAt(s, 4))))
    else None
  }

  function Resolve(t: Token, strings: Bytes): Option<Event> {
    match t
    case Begin(name) => Some(Begins(name))
    case End => Some(Ends)
    case Prop(at, value) =>
      if at > |strings| then None
      else match CString(strings[at..])
        case None => None
        case Some(name) => Some(Property(name, value))
  }

  // Reads a structure block up to its end token.
  function ReadAll(s: Bytes, strings: Bytes): Option<seq<Event>>
    decreases |s|
  {
    if |s| >= 4 && WordAt(s, 0) == END then Some([])
    else match ReadToken(s)
      case None => None
      case Some((t, n)) =>
        match (Resolve(t, strings), ReadAll(s[n..], strings))
        case (Some(e), Some(es)) => Some([e] + es)
        case _ => None
  }

  // ---- Reading what was emitted ----

  predicate Fits(t: Token) {
    match t
    case Begin(name) => 0 !in name
    case End => true
    case Prop(at, value) => at < WORD && |value| < WORD
  }

  lemma {:induction false} PaddedReads(name: Bytes, more: Bytes)
    requires 0 !in name
    ensures CString(Padded(name + [0]) + more) == Some(name)
  {
    var pad := Padding(|name| + 1);
    assert Padded(name + [0]) + more == name + [0] + (pad + more);
    CStringReads(name, pad + more);
  }

  lemma {:induction false} BeginReads(name: Bytes, more: Bytes)
    requires 0 !in name
    ensures ReadToken(Emit(Begin(name)) + more) == Some((Begin(name), |Emit(Begin(name))|))
  {
    var rest := Padded(name + [0]) + more;
    assert Emit(Begin(name)) + more == Word(BEGIN_NODE) + rest;
    WordFirst(BEGIN_NODE, rest);
    PaddedReads(name, more);
  }

  lemma {:induction false} UpShift(a: nat, n: nat)
    requires a % 4 == 0
    ensures Up4(a + n) == a + Up4(n)
  {
  }

  // Three words in front of a text.
  lemma {:induction false} ThreeWords(a: nat, b: nat, c: nat, rest: Bytes)
    requires a < WORD && b < WORD && c < WORD
    ensures var s := Word(a) + (Word(b) + (Word(c) + rest));
            WordAt(s, 0) == a && WordAt(s, 4) == b && WordAt(s, 8) == c && s[12..] == rest
  {
    var r4 := Word(c) + rest;
    var r0 := Word(b) + r4;
    var s := Word(a) + r0;
    WordFirst(a, r0);
    WordFirst(b, r4);
    WordFirst(c, rest);
    WordBehind(s, 4, 0);
    WordBehind(s, 4, 4);
    WordBehind(r0, 4, 0);
    assert s[12..] == s[4..][4..][4..];
  }

  // The three words of a property token, the value behind them, and its length.
  lemma {:induction false} PropReads(at: nat, value: Bytes, more: Bytes)
    requires at < WORD && |value| < WORD
    ensures var s := Emit(Prop(at, value)) + more;
            && |Emit(Prop(at, value))| == Up4(12 + |value|) <= |s|
            && WordAt(s, 0) == PROP && WordAt(s, 4) == |value| && WordAt(s, 8) == at
            && s[12..] == Padded(value) + more
  {
    var padded := Padded(value);
    AppendAssociates(Word(PROP), Word(|value|) + (Word(at) + padded), more);
    AppendAssociates(Word(|value|), Word(at) + padded, more);
    AppendAssociates(Word(at), padded, more);
    ThreeWords(PROP, |value|, at, padded + more);
    UpShift(12, |value|);
  }

  lemma {:induction false} TokenReads(t: Token, more: Bytes)
    requires Fits(t)
    ensures ReadToken(Emit(t) + more) == Some((t, |Emit(t)|))
    ensures WordAt(Emit(t) + more, 0) != END
  {
    match t
    case Begin(name) =>
      BeginReads(name, more);
      assert Emit(t) + more == Word(BEGIN_NODE) + (Padded(name + [0]) + more);
      WordFirst(BEGIN_NODE, Padded(name + [0]) + more);
    case End =>
      WordFirst(END_NODE, more);
    case Prop(at, value) =>
      PropReads(at, value, more);
      assert (Emit(t) + more)[12..12 + |value|] == (Emit(t) + more)[12..][..|value|] == value;
  }

  // Each event is what its token says, its name being in the strings block.
  ghost predicate Denotes(ts: seq<Token>, es: seq<Event>, strings: Bytes) {
    |ts| == |es| && forall i :: 0 <= i < |ts| ==> Fits(ts[i]) && Resolve(ts[i], strings) == Some(es[i])
  }

  lemma {:induction false} TokenStep(t: Token, e: Event, more: Bytes, es: seq<Event>, strings: Bytes)
    requires Fits(t) && Resolve(t, strings) == Some(e) && ReadAll(more, strings) == Some(es)
    ensures ReadAll(Emit(t) + more, strings) == Some([e] + es)
  {
    TokenReads(t, more);
    var s := Emit(t) + more;
    assert s[|Emit(t)|..] == more;
  }

  // A structure block reads back as the events it was emitted for.
  lemma {:induction false} ReadsBack(ts: seq<Token>, es: seq<Event>, strings: Bytes)
    requires Denotes(ts, es, strings)
    ensures ReadAll(EmitAll(ts) + Word(END), strings) == Some(es)
  {
    if ts == [] {
      WordFirst(END, []);
      assert EmitAll(ts) + Word(END) == Word(END) + [];
    } else {
      ReadsBack(ts[1..], es[1..], strings);
      TokenStep(ts[0], es[0], EmitAll(ts[1..]) + Word(END), es[1..], strings);
      AppendAssociates(Emit(ts[0]), EmitAll(ts[1..]), Word(END));
      assert es == [es[0]] + es[1..];
    }
  }

  // ---- The file ----

  // A device tree file: a header of ten words, reservations, structure block, strings block.
  // The reader believes the header about where the blocks are and how long the strings are.
  function ReadFile(s: Bytes): Option<seq<Event>> {
    if |s| < 40 || WordAt(s, 0) != MAGIC || WordAt(s, 4) != |s| || WordAt(s, 24) > 17 then None
    else
      var struct, names, size := WordAt(s, 8), WordAt(s, 12), WordAt(s, 32);
      if struct % 4 != 0 || struct > |s| || names + size > |s| then None
      else ReadAll(s[struct..], s[names..names + size])
  }

  // The reader does not look past the end token.
  lemma {:induction false} ReadAllStops(s: Bytes, more: Bytes, strings: Bytes)
    requires ReadAll(s, strings).Some?
    ensures ReadAll(s + more, strings) == ReadAll(s, strings)
    decreases |s|
  {
    if |s| >= 4 && WordAt(s, 0) == END {
    } else {
      var (t, n) := ReadToken(s).value;
      ReadTokenStops(s, more);
      ReadAllStops(s[n..], more, strings);
      assert (s + more)[n..] == s[n..] + more;
    }
  }

  lemma {:induction false} CStringStops(s: Bytes, more: Bytes)
    requires CString(s).Some?
    ensures CString(s + more) == CString(s)
  {
    if s[0] != 0 {
      assert (s + more)[1..] == s[1..] + more;
      CStringStops(s[1..], more);
    }
  }

  lemma {:induction false} ReadTokenStops(s: Bytes, more: Bytes)
    requires ReadToken(s).Some?
    ensures ReadToken(s + more) == ReadToken(s)
  {
    assert WordAt(s + more, 0) == WordAt(s, 0);
    if WordAt(s, 0) == BEGIN_NODE {
      CStringStops(s[4..], more);
      assert (s + more)[4..] == s[4..] + more;
    } else if WordAt(s, 0) == PROP {
      assert WordAt(s + more, 4) == WordAt(s, 4) && WordAt(s + more, 8) == WordAt(s, 8);
      assert (s + more)[12..12 + WordAt(s, 4)] == s[12..12 + WordAt(s, 4)];
    }
  }

  // ---- Trees ----

  // What is inside a node: properties and nodes, in order.
  datatype Item = Leaf(name: Bytes, value: Bytes) | Node(name: Bytes, items: seq<Item>)

  function Events(items: seq<Item>): seq<Event> {
    if items == [] then []
    else EventsOf(items[0]) + Events(items[1..])
  }

  function EventsOf(item: Item): seq<Event> {
    match item
    case Leaf(name, value) => [Property(name, value)]
    case Node(name, items) => [Begins(name)] + Events(items) + [Ends]
  }

  // Items, and the number of events they took.
  datatype Parsed = Parsed(items: seq<Item>, used: nat) | Malformed

  // The items up to the end of the enclosing node.
  function Items(es: seq<Event>): (r: Parsed)
    ensures r.Parsed? ==> r.used <= |es|
    decreases |es|
  {
    if es == [] || es[0] == Ends then Parsed([], 0)
    else
      var inner := Items(es[1..]);
      match es[0]
      case Property(name, value) => WithLeaf(name, value, inner)
      case Begins(name) =>
        if inner == Malformed || inner.used + 1 == |es| then Malformed
        else WithNode(name, inner, Items(es[inner.used + 2..]))
  }

  // A property, and what comes behind it.
  function WithLeaf(name: Bytes, value: Bytes, others: Parsed): Parsed {
    match others
    case Malformed => Malformed
    case Parsed(items, n) => Parsed([Leaf(name, value)] + items, n + 1)
  }

  // A node, and what comes behind it.
  function WithNode(name: Bytes, inner: Parsed, others: Parsed): Parsed
    requires inner.Parsed?
  {
    match others
    case Malformed => Malformed
    case Parsed(items, n) => Parsed([Node(name, inner.items)] + items, inner.used + 2 + n)
  }

  // What may follow the items of a node: nothing, or the end of the node.
  ghost predicate Closed(es: seq<Event>) {
    es == [] || es[0] == Ends
  }

  lemma {:induction false} PropertyStep(es: seq<Event>, name: Bytes, value: Bytes, others: Parsed)
    requires |es| > 0 && es[0] == Property(name, value) && Items(es[1..]) == others
    ensures Items(es) == WithLeaf(name, value, others)
  {
  }

  lemma {:induction false} NodeStep(es: seq<Event>, name: Bytes, inner: Parsed, others: Parsed)
    requires |es| > 0 && es[0] == Begins(name) && Items(es[1..]) == inner
    requires inner.Parsed? && |es| >= inner.used + 2 && Items(es[inner.used + 2..]) == others
    ensures Items(es) == WithNode(name, inner, others)
  {
  }

  lemma {:induction false} Parts(first: Event, front: seq<Event>, last: Event, rest: seq<Event>, es: seq<Event>)
    requires es == [first] + (front + ([last] + rest))
    ensures |es| >= |front| + 2 && es[0] == first
    ensures es[1..] == front + ([last] + rest) && es[|front| + 2..] == rest
  {
  }

  lemma {:induction false} Regroup(first: Event, front: seq<Event>, last: Event, others: seq<Event>, more: seq<Event>)
    ensures ([first] + front + [last]) + others + more == [first] + (front + ([last] + (others + more)))
  {
  }

  // Items parse as themselves, whatever closed list of events follows.
  ghost predicate Reads(items: seq<Item>, more: seq<Event>) {
    Items(Events(items) + more) == Parsed(items, |Events(items)|)
  }

  // Nested begins and ends determine the tree.
  lemma {:induction false} TreeReadsBack(items: seq<Item>, more: seq<Event>)
    requires Closed(more)
    ensures Reads(items, more)
    decreases items
  {
    if items == [] {
      assert Events(items) + more == more;
    } else {
      TreeReadsBack(items[1..], more);
      assert items == [items[0]] + items[1..];
      match items[0]
      case Leaf(name, value) =>
        LeafReadsBack(name, value, items[1..], more);
      case Node(name, inner) =>
        TreeReadsBack(inner, [Ends] + (Events(items[1..]) + more));
        NodeReadsBack(name, inner, items[1..], more);
    }
  }

  lemma {:induction false} LeafReadsBack(name: Bytes, value: Bytes, others: seq<Item>, more: seq<Event>)
    requires Reads(others, more)
    ensures Reads([Leaf(name, value)] + others, more)
  {
    var rest := Events(others) + more;
    var es := [Property(name, value)] + rest;
    EventsCons(Leaf(name, value), others);
    AppendAfter([Property(name, value)], Events(others), more);
    assert es[1..] == rest;
    PropertyStep(es, name, value, Parsed(others, |Events(others)|));
  }

  lemma {:induction false} NodeReadsBack(name: Bytes, inner: seq<Item>, others: seq<Item>, more: seq<Event>)
    requires Reads(others, more) && Reads(inner, [Ends] + (Events(others) + more))
    ensures Reads([Node(name, inner)] + others, more)
  {
    var front, rest := Events(inner), Events(others) + more;
    var es := [Begins(name)] + (front + ([Ends] + rest));
    EventsCons(Node(name, inner), others);
    Regroup(Begins(name), front, Ends, Events(others), more);
    Parts(Begins(name), front, Ends, rest, es);
    NodeStep(es, name, Parsed(inner, |front|), Parsed(others, |Events(others)|));
  }

  lemma {:induction false} EventsCons(item: Item, others: seq<Item>)
    ensures Events([item] + others) == EventsOf(item) + Events(others)
  {
    assert ([item] + others)[1..] == others;
  }

  lemma {:induction false} AppendAfter(a: seq<Event>, b: seq<Event>, c: seq<Event>)
    ensures a + b + c == a + (b + c)
  {
  }

  // The tree a file describes.
  function ReadTree(s: Bytes): Option<seq<Item>> {
    match ReadFile(s)
    case None => None
    case Some(es) =>
      match Items(es)
      case Malformed => None
      case Parsed(items, n) => if n == |es| then Some(items) else None
  }

  lemma {:induction false} TreeOfEvents(s: Bytes, items: seq<Item>)
    requires ReadFile(s) == Some(Events(items))
    ensures ReadTree(s) == Some(items)
  {
    TreeReadsBack(items, []);
    assert Events(items) + [] == Events(items);
  }
}
