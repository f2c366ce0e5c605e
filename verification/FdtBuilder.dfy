// The device tree builder: tokens grow upwards from the header, names downwards from the end of
// one buffer; finishing joins the two.

module FdtBuilders {
  import opened Options
  import opened FlatTrees

  type U32 = v: nat | v < WORD

  const HEADER: nat := 40
  const STRUCT: nat := 56

  // ---- Distances and offsets ----

  // While building, a property names itself by the distance of its name from the end of the
  // strings block. Finishing turns that into the offset from the start.
  function Patch(t: Token, size: nat): (p: Token)
    ensures Size(p) == Size(t)
  {
    if t.Prop? && t.at <= size then t.(at := size - t.at) else t
  }

  function Patched(ts: seq<Token>, size: nat): (ps: seq<Token>)
    ensures |ps| == |ts| && forall i :: 0 <= i < |ts| ==> ps[i] == Patch(ts[i], size)
  {
    if ts == [] then [] else [Patch(ts[0], size)] + Patched(ts[1..], size)
  }

  predicate Near(t: Token, size: nat) {
    match t
    case Begin(name) => 0 !in name
    case End => true
    case Prop(at, value) => at <= size && |value| < WORD
  }

  predicate AllNear(ts: seq<Token>, size: nat) {
    forall i :: 0 <= i < |ts| ==> Near(ts[i], size)
  }

  // A token tells of the event, seen from the end of the names.
  ghost predicate Tells(t: Token, e: Event, names: Bytes) {
    Near(t, |names|) && Resolve(Patch(t, |names|), names) == Some(e)
  }

  // What the builder keeps: every event is what its token tells.
  ghost predicate Promises(ts: seq<Token>, es: seq<Event>, names: Bytes) {
    |ts| == |es| && forall i :: 0 <= i < |ts| ==> Tells(ts[i], es[i], names)
  }

  lemma {:induction false} PromisesKept(ts: seq<Token>, es: seq<Event>, names: Bytes)
    requires Promises(ts, es, names) && |names| < WORD
    ensures AllNear(ts, |names|) && Denotes(Patched(ts, |names|), es, names)
  {
    forall i | 0 <= i < |ts|
      ensures Near(ts[i], |names|) && Fits(Patch(ts[i], |names|))
      ensures Resolve(Patch(ts[i], |names|), names) == Some(es[i])
    {
      assert Tells(ts[i], es[i], names);
    }
  }

  lemma {:induction false} PatchResolves(t: Token, names: Bytes, more: Bytes)
    requires Near(t, |names|)
    ensures Resolve(Patch(t, |more + names|), more + names) == Resolve(Patch(t, |names|), names)
  {
    if t.Prop? {
      assert (more + names)[|more + names| - t.at..] == names[|names| - t.at..];
    }
  }

  // More names in front of the old ones change nothing.
  lemma {:induction false} PromisesGrow(ts: seq<Token>, es: seq<Event>, names: Bytes, more: Bytes)
    requires Promises(ts, es, names)
    ensures Promises(ts, es, more + names)
  {
    forall i | 0 <= i < |ts|
      ensures Tells(ts[i], es[i], more + names)
    {
      PatchResolves(ts[i], names, more);
      assert Tells(ts[i], es[i], names);
    }
  }

  lemma {:induction false} PromisesSnoc(ts: seq<Token>, es: seq<Event>, names: Bytes, t: Token, e: Event)
    requires Promises(ts, es, names) && Tells(t, e, names)
    ensures Promises(ts + [t], es + [e], names)
  {
    var us, fs := ts + [t], es + [e];
    forall i | 0 <= i < |us|
      ensures Tells(us[i], fs[i], names)
    {
      if i < |ts| {
        assert us[i] == ts[i] && fs[i] == es[i];
      }
    }
  }

  lemma {:induction false} NameFirst(name: Bytes, names: Bytes, value: Bytes)
    requires 0 !in name && |value| < WORD
    ensures var all := name + [0] + names; Tells(Prop(|all|, value), Property(name, value), all)
  {
    var all := name + [0] + names;
    assert all[0..] == all;
    CStringReads(name, names);
  }

  lemma {:induction false} PromisesProperty(ts: seq<Token>, es: seq<Event>, names: Bytes, name: Bytes, value: Bytes)
    requires Promises(ts, es, names) && 0 !in name && |value| < WORD
    ensures var all := name + [0] + names;
            Promises(ts + [Prop(|all|, value)], es + [Property(name, value)], all)
  {
    var all := name + [0] + names;
    PromisesGrow(ts, es, names, name + [0]);
    NameFirst(name, names, value);
    PromisesSnoc(ts, es, all, Prop(|all|, value), Property(name, value));
  }

  // ---- Words in memory ----

  // The bytes of a word on a little-endian machine.
  function Little(v: U32): Bytes {
    [Low(v), Low(v / 256), Low(v / 256 / 256), Low(v / 256 / 256 / 256)]
  }

  function Swapped(v: U32): U32 {
    WordAt(Little(v), 0)
  }

  // A swapped word lies in memory most significant byte first.
  lemma {:induction false} SwappedIsBigEndian(v: U32)
    ensures Little(Swapped(v)) == Word(v)
  {
    var a: nat, b: nat, c: nat, d: nat := Low(v), Low(v / 256), Low(v / 256 / 256), Low(v / 256 / 256 / 256);
    assert Swapped(v) == ((a * 256 + b) * 256 + c) * 256 + d;
    assert Swapped(v) / 256 == (a * 256 + b) * 256 + c;
    assert Swapped(v) / 256 / 256 == a * 256 + b;
    assert Swapped(v) / 256 / 256 / 256 == a;
  }

  function Memory(vs: seq<U32>): (s: Bytes)
    ensures |s| == 4 * |vs|
  {
    if vs == [] then [] else Little(vs[0]) + Memory(vs[1..])
  }

  function Words(vs: seq<U32>): (s: Bytes)
    ensures |s| == 4 * |vs|
  {
    if vs == [] then [] else Word(vs[0]) + Words(vs[1..])
  }

  lemma {:induction false} SwappedMemory(vs: seq<U32>, ss: seq<U32>)
    requires |vs| == |ss| && forall i :: 0 <= i < |vs| ==> ss[i] == Swapped(vs[i])
    ensures Memory(ss) == Words(vs)
  {
    if vs != [] {
      SwappedIsBigEndian(vs[0]);
      SwappedMemory(vs[1..], ss[1..]);
    }
  }

  // ---- Tokens at the end of the structure block ----

  ghost predicate AllZero(s: Bytes) {
    forall i :: 0 <= i < |s| ==> s[i] == 0
  }

  // What a buffer holds up to the cursor, after the place of the header.
  ghost predicate Holds(written: Bytes, ts: seq<Token>) {
    && |written| >= STRUCT && |written| % 4 == 0
    && AllZero(written[HEADER..STRUCT])
    && written[STRUCT..] == EmitAll(ts)
  }

  lemma {:induction false} HoldsMore(written: Bytes, ts: seq<Token>, t: Token)
    requires Holds(written, ts)
    ensures Holds(written + Emit(t), ts + [t])
  {
    EmitAllSnoc(ts, t);
    Extended(written, Emit(t));
  }

  lemma {:induction false} Extended(a: Bytes, b: Bytes)
    requires |a| >= STRUCT && |a| % 4 == 0 && |b| % 4 == 0
    ensures |a + b| % 4 == 0 && (a + b)[STRUCT..] == a[STRUCT..] + b
    ensures (a + b)[HEADER..STRUCT] == a[HEADER..STRUCT]
  {
    AlignedSum(|a|, |b|);
  }

  lemma {:induction false} PadShift(a: Bytes, s: Bytes)
    requires |a| % 4 == 0
    ensures a + Padded(s) == Padded(a + s)
  {
    UpShift(|a|, |s|);
    AppendAssociates(a, s, Padding(|s|));
  }

  lemma {:induction false} HoldsPadded(before: Bytes, body: Bytes, ts: seq<Token>, t: Token)
    requires Holds(before, ts) && Padded(body) == Emit(t)
    ensures Holds(before + body + Padding(|before + body|), ts + [t])
  {
    PadAfter(before, body);
    HoldsMore(before, ts, t);
  }

  lemma {:induction false} PadAfter(a: Bytes, s: Bytes)
    requires |a| % 4 == 0
    ensures a + s + Padding(|a + s|) == a + Padded(s)
  {
    UpShift(|a|, |s|);
    AppendAssociates(a, s, Padding(|s|));
  }

  lemma {:induction false} Regrouped(a: Bytes, b: Bytes, c: Bytes, d: Bytes)
    ensures a + b + c + d == a + (b + c + d)
  {
  }

  lemma {:induction false} UpNext(n: nat)
    ensures n % 4 == 0 ==> Up4(n) == n
    ensures n % 4 != 0 ==> Up4(n) == Up4(n + 1) > n
  {
  }

  // A gap too small for the padding ends off a multiple of four.
  lemma {:induction false} SmallGap(n: nat, end: nat)
    requires n <= end
    ensures Up4(n) > end ==> end % 4 != 0
  {
  }

  lemma {:induction false} BeginBody(name: Bytes)
    ensures Padded(Word(BEGIN_NODE) + (name + [0])) == Emit(Begin(name))
  {
    PadShift(Word(BEGIN_NODE), name + [0]);
  }

  lemma {:induction false} PropBody(at: U32, value: Bytes)
    requires |value| < WORD
    ensures Padded(Word(PROP) + Word(|value|) + Word(at) + value) == Emit(Prop(at, value))
  {
    PadShift(Word(PROP) + Word(|value|) + Word(at), value);
    AppendAssociates(Word(PROP) + Word(|value|), Word(at), Padded(value));
    AppendAssociates(Word(PROP), Word(|value|), Word(at) + Padded(value));
  }

  // ---- The walk over the structure block ----

  lemma {:induction false} WordIn(all: Bytes, p: nat, end: nat, k: nat)
    requires p + k + 4 <= end <= |all|
    ensures WordAt(all[p..end], k) == WordAt(all, p + k)
  {
  }

  // A change inside a slice leaves the rest of the slice.
  lemma {:induction false} SameAround(b: Bytes, c: Bytes, p: nat, end: nat, at: nat, n: nat)
    requires |b| == |c| && p <= at && at + n <= end <= |b|
    requires forall i :: 0 <= i < |b| && !(at <= i < at + n) ==> c[i] == b[i]
    ensures c[p..end][..at - p] == b[p..end][..at - p]
    ensures c[p..end][at - p..at + n - p] == c[at..at + n]
    ensures c[p..end][at + n - p..] == b[p..end][at + n - p..]
  {
    var s, t := b[p..end], c[p..end];
    assert forall i :: 0 <= i < end - p ==> s[i] == b[p + i];
    assert forall i :: 0 <= i < end - p ==> t[i] == c[p + i];
    assert forall i :: 0 <= i < end - p && !(at - p <= i < at + n - p) ==> s[i] == t[i];
  }

  // The walk at p: behind it is the front of the whole patched block, ahead the tokens in rest
  // and the end.
  ghost predicate Walked(b: Bytes, p: nat, end: nat, size: nat, rest: seq<Token>, whole: Bytes) {
    && STRUCT <= p <= end <= |b| && p % 4 == 0 && AllNear(rest, size)
    && b[STRUCT..p] + EmitAll(Patched(rest, size)) == whole
    && b[p..end] == EmitAll(rest) + Word(END)
  }

  lemma {:induction false} WalkedStart(b: Bytes, end: nat, size: nat, ts: seq<Token>)
    requires STRUCT <= end <= |b| && AllNear(ts, size) && b[STRUCT..end] == EmitAll(ts) + Word(END)
    ensures Walked(b, STRUCT, end, size, ts, EmitAll(Patched(ts, size)))
  {
    assert b[STRUCT..STRUCT] == [];
  }

  lemma {:induction false} WalkedMore(b: Bytes, p: nat, end: nat, size: nat, rest: seq<Token>, whole: Bytes)
    requires Walked(b, p, end, size, rest, whole)
    ensures p + 4 < end <==> rest != []
  {
    assert |b[p..end]| == |EmitAll(rest)| + 4;
  }

  lemma {:induction false} WalkedEnd(b: Bytes, p: nat, end: nat, size: nat, whole: Bytes)
    requires Walked(b, p, end, size, [], whole)
    ensures b[STRUCT..end] == whole + Word(END)
  {
    Joined(b, STRUCT, p, end, Word(END), []);
  }

  // The token ahead, and what is behind it.
  lemma {:induction false} WalkedHead(b: Bytes, p: nat, end: nat, size: nat, rest: seq<Token>, whole: Bytes)
    returns (more: Bytes)
    requires Walked(b, p, end, size, rest, whole) && rest != []
    ensures STRUCT <= p <= end <= |b| && p % 4 == 0 && Near(rest[0], size) && b[p..end] == Emit(rest[0]) + more
  {
    more := EmitAll(rest[1..]) + Word(END);
    AppendAssociates(Emit(rest[0]), EmitAll(rest[1..]), Word(END));
  }

  lemma {:induction false} Beyond(s: Bytes, e: Bytes, more: Bytes, tail: Bytes, last: Bytes)
    requires s == e + more && s == e + tail + last
    ensures more == tail + last
  {
    AppendAssociates(e, tail, last);
    assert s[|e|..] == more && (e + (tail + last))[|e|..] == tail + last;
  }

  // Token t at p is patched, and nothing else changes.
  ghost predicate Stepped(b: Bytes, c: Bytes, p: nat, end: nat, size: nat, t: Token, more: Bytes) {
    && Kept(b, c, end) && STRUCT <= p <= end
    && c[STRUCT..p] == b[STRUCT..p] && b[p..end] == Emit(t) + more && c[p..end] == Emit(Patch(t, size)) + more
  }

  // Nothing changes outside the structure block.
  ghost predicate Kept(b: Bytes, c: Bytes, end: nat) {
    STRUCT <= end <= |b| == |c| && c[..STRUCT] == b[..STRUCT] && c[end..] == b[end..]
  }

  lemma {:induction false} WalkedPatched(
    b: Bytes, c: Bytes, p: nat, end: nat, size: nat, rest: seq<Token>, whole: Bytes, more: Bytes)
    requires Walked(b, p, end, size, rest, whole) && rest != [] && Stepped(b, c, p, end, size, rest[0], more)
    ensures Walked(c, p + Size(rest[0]), end, size, rest[1..], whole)
  {
    Beyond(b[p..end], Emit(rest[0]), more, EmitAll(rest[1..]), Word(END));
    WalkedNext(b, c, p, end, size, rest, Emit(Patch(rest[0], size)), more, whole);
  }

  // One token patched in place.
  lemma {:induction false} WalkedNext(
    b: Bytes, c: Bytes, p: nat, end: nat, size: nat, rest: seq<Token>, e: Bytes, more: Bytes, whole: Bytes)
    requires Walked(b, p, end, size, rest, whole) && rest != [] && e == Emit(Patch(rest[0], size))
    requires |c| == |b| && c[STRUCT..p] == b[STRUCT..p] && c[p..end] == e + more && more == EmitAll(rest[1..]) + Word(END)
    ensures Walked(c, p + |e|, end, size, rest[1..], whole)
  {
    AlignedSum(p, |e|);
    Joined(c, STRUCT, p, end, e, more);
    AppendAssociates(b[STRUCT..p], e, EmitAll(Patched(rest[1..], size)));
  }

  // A slice made of parts, cut after its first part.
  lemma {:induction false} Joined(b: Bytes, from: nat, p: nat, end: nat, e: Bytes, more: Bytes)
    requires from <= p <= end <= |b| && b[p..end] == e + more
    ensures p + |e| <= end && b[from..p + |e|] == b[from..p] + e && b[p + |e|..end] == more
  {
    assert b[p..end][..|e|] == e && b[p..end][|e|..] == more;
  }

  lemma {:induction false} PropPatched(s: Bytes, r: Bytes, at: U32, offset: U32, value: Bytes, more: Bytes)
    requires |value| < WORD && s == Emit(Prop(at, value)) + more
    requires |r| == |s| && r[..8] == s[..8] && r[8..12] == Word(offset) && r[12..] == s[12..]
    ensures r == Emit(Prop(offset, value)) + more
  {
    PropParts(at, value, more);
    PropParts(offset, value, more);
    Cut(r);
  }

  lemma {:induction false} Cut(r: Bytes)
    requires |r| >= 12
    ensures r == r[..8] + r[8..12] + r[12..]
  {
  }

  lemma {:induction false} PropParts(at: U32, value: Bytes, more: Bytes)
    requires |value| < WORD
    ensures var s, front, back := Emit(Prop(at, value)) + more, Word(PROP) + Word(|value|), Padded(value) + more;
            |s| >= 12 && s == front + Word(at) + back && s[..8] == front && s[12..] == back
  {
    var s, front, back := Emit(Prop(at, value)) + more, Word(PROP) + Word(|value|), Padded(value) + more;
    AppendAssociates(Word(PROP), Word(|value|), Word(at) + Padded(value));
    AppendAssociates(front, Word(at), Padded(value));
    AppendAssociates(front + Word(at), Padded(value), more);
  }

  class FdtBuilder {
    const buffer: array<Byte>
    var cursor: nat
    var stringsCursor: nat
    ghost var tokens: seq<Token>
    ghost var events: seq<Event>

    ghost predicate Room()
      reads this
    {
      HEADER <= cursor <= stringsCursor <= buffer.Length < WORD
    }

    ghost function Written(): Bytes
      reads this, buffer
      requires Room()
    {
      buffer[..cursor]
    }

    ghost function Names(): Bytes
      reads this, buffer
      requires Room()
    {
      buffer[stringsCursor..]
    }

    // Padding stops where the names begin; then there is no room for another token.
    ghost predicate Valid()
      reads this, buffer
    {
      && Room()
      && (cursor % 4 == 0 || cursor == stringsCursor)
      && (cursor % 4 == 0 ==> Holds(Written(), tokens))
      && Promises(tokens, events, Names())
    }

    // Copies bytes into the buffer.
    method Store(at: nat, data: Bytes)
      requires at + |data| <= buffer.Length
      modifies buffer
      ensures buffer[at..at + |data|] == data
      ensures forall i :: 0 <= i < buffer.Length && !(at <= i < at + |data|) ==> buffer[i] == old(buffer[i])
    {
      for k := 0 to |data|
        invariant buffer[at..at + k] == data[..k]
        invariant forall i :: 0 <= i < buffer.Length && !(at <= i < at + k) ==> buffer[i] == old(buffer[i])
      {
        buffer[at + k] := data[k];
        assert buffer[at..at + k + 1] == data[..k] + [data[k]] == data[..k + 1];
      }
      assert data[..|data|] == data;
    }

    // Appends bytes at the cursor.
    method Append(data: Bytes)
      requires Room() && cursor + |data| <= stringsCursor
      modifies buffer, this`cursor
      ensures Room() && cursor == old(cursor) + |data|
      ensures Written() == old(Written()) + data && Names() == old(Names())
    {
      Store(cursor, data);
      cursor := cursor + |data|;
      assert buffer[..cursor] == buffer[..old(cursor)] + buffer[old(cursor)..cursor];
    }

    method Write32(v: U32)
      requires Room() && cursor + 4 <= stringsCursor
      modifies buffer, this`cursor
      ensures Room() && cursor == old(cursor) + 4
      ensures Written() == old(Written()) + Word(v) && Names() == old(Names())
    {
      Append(Word(v));
    }

    static function Aligned(n: nat, end: nat): nat {
      if Up4(n) <= end then Up4(n) else end
    }

    // The cursor behind a property of that value.
    static function Behind(n: nat, value: Bytes, end: nat): nat {
      Aligned(n + 12 + |value|, end)
    }

    // Zeros up to a multiple of four, or up to the names.
    method Align()
      requires Room()
      modifies buffer, this`cursor
      ensures Room() && old(cursor) <= cursor && Names() == old(Names())
      ensures cursor == Aligned(old(cursor), stringsCursor)
      ensures Up4(old(cursor)) <= stringsCursor ==> Written() == old(Written()) + Padding(old(cursor))
      ensures old(cursor) % 4 == 0 ==> cursor == old(cursor) && Written() == old(Written())
    {
      ghost var start, before, names := cursor, Written(), Names();
      while cursor % 4 != 0 && cursor < stringsCursor
        invariant Aligning(start, before, names)
        decreases stringsCursor - cursor
      {
        Zero(start, before, names);
      }
      UpNext(cursor);
    }

    // Zeros from start to the cursor.
    ghost predicate Aligning(start: nat, before: Bytes, names: Bytes)
      reads this, buffer
    {
      && Room() && start <= cursor && Up4(cursor) == Up4(start) && Names() == names
      && Written() == before + Zeros(cursor - start) && (start % 4 == 0 ==> cursor == start)
    }

    method Zero(ghost start: nat, ghost before: Bytes, ghost names: Bytes)
      requires Aligning(start, before, names) && cursor % 4 != 0 && cursor < stringsCursor
      modifies buffer, this`cursor
      ensures Aligning(start, before, names) && cursor == old(cursor) + 1
    {
      UpNext(cursor);
      ghost var pad := Zeros(cursor - start);
      Append([0]);
      ZerosSnoc(|pad|);
      AppendAssociates(before, pad, [0]);
    }

    // The name and its zero byte in front of the names; returns its distance from their end.
    method AddString(name: Bytes) returns (distance: U32)
      requires Room() && 0 !in name && cursor + |name| + 1 <= stringsCursor
      modifies buffer, this`stringsCursor
      ensures Room() && Names() == name + [0] + old(Names()) && Written() == old(Written())
      ensures distance == |Names()| && stringsCursor == old(stringsCursor) - |name| - 1
    {
      stringsCursor := stringsCursor - (|name| + 1);
      Store(stringsCursor, name + [0]);
      distance := buffer.Length - stringsCursor;
      assert buffer[stringsCursor..] == buffer[stringsCursor..old(stringsCursor)] + buffer[old(stringsCursor)..];
    }

    // Room for a header; then the reserved entry, which ends the list of reservations.
    constructor (buffer: array<Byte>)
      requires STRUCT <= buffer.Length < WORD
      modifies buffer
      ensures this.buffer == buffer && Valid() && events == [] && cursor == STRUCT && stringsCursor == buffer.Length
    {
      this.buffer, cursor, stringsCursor := buffer, HEADER, buffer.Length;
      tokens, events := [], [];
      new;
      Write64(0);
      Write64(0);
      assert Written()[STRUCT..] == [];
    }

    method Write64(v: nat)
      requires Room() && cursor + 8 <= stringsCursor && v < WORD
      modifies buffer, this`cursor
      ensures Room() && cursor == old(cursor) + 8
      ensures Written() == old(Written()) + Word(0) + Word(v) && Names() == old(Names())
    {
      Write32(0);
      Write32(v);
    }

    // Aligns after the bytes of a token and enters it, with its event, into the record.
    method Complete(ghost t: Token, ghost e: Event, ghost before: Bytes, ghost body: Bytes)
      requires Room() && Holds(before, tokens) && Written() == before + body && Padded(body) == Emit(t)
      requires Promises(tokens + [t], events + [e], Names())
      modifies buffer, this`cursor, this`tokens, this`events
      ensures Valid() && Names() == old(Names()) && cursor == Aligned(old(cursor), stringsCursor)
      ensures tokens == old(tokens) + [t] && events == old(events) + [e]
    {
      HoldsPadded(before, body, tokens, t);
      SmallGap(cursor, stringsCursor);
      Align();
      tokens, events := tokens + [t], events + [e];
    }

    method AppendName(name: Bytes)
      requires Room() && cursor + |name| + 1 <= stringsCursor
      modifies buffer, this`cursor
      ensures Room() && cursor == old(cursor) + |name| + 1
      ensures Written() == old(Written()) + (name + [0]) && Names() == old(Names())
    {
      for k := 0 to |name|
        invariant Room() && cursor == old(cursor) + k && Names() == old(Names())
        invariant Written() == old(Written()) + name[..k]
      {
        Append([name[k]]);
        assert name[..k + 1] == name[..k] + [name[k]];
      }
      Append([0]);
      assert name[..|name|] == name;
    }

    method Begin(name: Bytes)
      requires Valid() && 0 !in name && cursor + 4 + |name| + 1 <= stringsCursor
      modifies buffer, this`cursor, this`tokens, this`events
      ensures Valid() && Names() == old(Names()) && events == old(events) + [Begins(name)]
      ensures cursor == Aligned(old(cursor) + 4 + |name| + 1, stringsCursor)
      ensures tokens == old(tokens) + [Token.Begin(name)]
    {
      ghost var before := Written();
      BeginBytes(name);
      BeginBody(name);
      PromisesSnoc(tokens, events, Names(), Token.Begin(name), Begins(name));
      Complete(Token.Begin(name), Begins(name), before, Word(BEGIN_NODE) + (name + [0]));
    }

    // The token's word and name.
    method BeginBytes(name: Bytes)
      requires Room() && cursor + 4 + |name| + 1 <= stringsCursor
      modifies buffer, this`cursor
      ensures Room() && cursor == old(cursor) + 4 + |name| + 1
      ensures Written() == old(Written()) + (Word(BEGIN_NODE) + (name + [0])) && Names() == old(Names())
    {
      ghost var before := Written();
      Write32(BEGIN_NODE);
      AppendName(name);
      AppendAssociates(before, Word(BEGIN_NODE), name + [0]);
    }

    method End()
      requires Valid() && cursor + 4 <= stringsCursor
      modifies buffer, this`cursor, this`tokens, this`events
      ensures Valid() && Names() == old(Names()) && events == old(events) + [Ends]
      ensures cursor == old(cursor) + 4 && tokens == old(tokens) + [Token.End]
    {
      HoldsMore(Written(), tokens, Token.End);
      Write32(END_NODE);
      PromisesSnoc(tokens, events, Names(), Token.End, Ends);
      tokens, events := tokens + [Token.End], events + [Ends];
    }

    method AddProperty(name: Bytes, value: Bytes)
      requires Valid() && 0 !in name && cursor + 12 + |value| + |name| + 1 <= stringsCursor
      modifies this, buffer
      ensures Valid() && events == old(events) + [Property(name, value)]
      ensures stringsCursor == old(stringsCursor) - |name| - 1
      ensures cursor == Behind(old(cursor), value, stringsCursor)
      ensures Names() == name + [0] + old(Names()) && tokens == old(tokens) + [Prop(|Names()|, value)]
    {
      ghost var before, names := Written(), Names();
      var at := PropertyHead(name, |value|);
      PromisesProperty(tokens, events, names, name, value);
      Append(value);
      PropBody(at, value);
      AppendAssociates(before, Word(PROP) + Word(|value|) + Word(at), value);
      Complete(Prop(at, value), Property(name, value), before, Word(PROP) + Word(|value|) + Word(at) + value);
    }

    // The three words of a property token; the name goes to the names.
    method PropertyHead(name: Bytes, length: U32) returns (at: U32)
      requires Room() && 0 !in name && cursor + 12 + |name| + 1 <= stringsCursor
      modifies buffer, this`cursor, this`stringsCursor
      ensures Room() && cursor == old(cursor) + 12 && stringsCursor == old(stringsCursor) - |name| - 1
      ensures Names() == name + [0] + old(Names()) && at == |Names()|
      ensures Written() == old(Written()) + (Word(PROP) + Word(length) + Word(at))
    {
      ghost var before := Written();
      Write32(PROP);
      Write32(length);
      at := AddString(name);
      Write32(at);
      Regrouped(before, Word(PROP), Word(length), Word(at));
    }

    method AddEmpty(name: Bytes)
      requires Valid() && 0 !in name && cursor + 12 + |name| + 1 <= stringsCursor
      modifies this, buffer
      ensures Valid() && events == old(events) + [Property(name, [])]
      ensures stringsCursor == old(stringsCursor) - |name| - 1 && cursor == Behind(old(cursor), [], stringsCursor)
    {
      AddProperty(name, []);
    }

    // A text goes with its zero byte.
    method AddText(name: Bytes, text: Bytes)
      requires Valid() && 0 !in name && 0 !in text && cursor + 12 + |text| + 1 + |name| + 1 <= stringsCursor
      modifies this, buffer
      ensures Valid() && events == old(events) + [Property(name, text + [0])]
      ensures stringsCursor == old(stringsCursor) - |name| - 1
      ensures cursor == Behind(old(cursor), text + [0], stringsCursor)
    {
      AddProperty(name, text + [0]);
    }

    method AddWord(name: Bytes, value: U32)
      requires Valid() && 0 !in name && cursor + 16 + |name| + 1 <= stringsCursor
      modifies this, buffer
      ensures Valid() && events == old(events) + [Property(name, Word(value))]
      ensures stringsCursor == old(stringsCursor) - |name| - 1
      ensures cursor == Behind(old(cursor), Word(value), stringsCursor)
    {
      var bytes := SwapWord(value);
      AddProperty(name, bytes);
    }

    // Swaps the caller's words in place and copies their memory.
    method AddWords(name: Bytes, values: array<U32>)
      requires Valid() && 0 !in name && cursor + 12 + 4 * values.Length + |name| + 1 <= stringsCursor
      modifies this, buffer, values
      ensures Valid() && events == old(events) + [Property(name, Words(old(values[..])))]
      ensures stringsCursor == old(stringsCursor) - |name| - 1
      ensures cursor == Behind(old(cursor), Words(old(values[..])), stringsCursor)
      ensures forall i :: 0 <= i < values.Length ==> values[i] == Swapped(old(values[i]))
    {
      var bytes := SwapAll(values);
      AddProperty(name, bytes);
    }

    static method SwapWord(value: U32) returns (bytes: Bytes)
      ensures bytes == Word(value) && |bytes| == 4
    {
      SwappedIsBigEndian(value);
      bytes := Little(Swapped(value));
    }

    static method SwapAll(values: array<U32>) returns (bytes: Bytes)
      modifies values
      ensures bytes == Words(old(values[..]))
      ensures forall i :: 0 <= i < values.Length ==> values[i] == Swapped(old(values[i]))
    {
      for i := 0 to values.Length
        invariant forall k :: 0 <= k < values.Length ==>
                                values[k] == if k < i then Swapped(old(values[k])) else old(values[k])
      {
        values[i] := Swapped(values[i]);
      }
      SwappedMemory(old(values[..]), values[..]);
      bytes := Memory(values[..]);
    }

    // ---- Finishing ----

    method ReadWord(at: nat) returns (v: U32)
      requires at + 4 <= buffer.Length
      ensures v == WordAt(buffer[..], at)
    {
      v := ((buffer[at] as nat * 256 + buffer[at + 1] as nat) * 256 + buffer[at + 2] as nat) * 256
           + buffer[at + 3] as nat;
    }

    // Behind the name of a begin token.
    method SkipName(p: nat, end: nat, ghost name: Bytes, ghost more: Bytes) returns (q: nat)
      requires p % 4 == 0 && p <= end <= buffer.Length && 0 !in name
      requires buffer[p..end] == Emit(Token.Begin(name)) + more
      ensures q == p + Size(Token.Begin(name))
    {
      q := p + 4;
      NameBytes(buffer[p..end], name, more);
      InSlice(buffer[..], p, end, name);
      while q < end && buffer[q] != 0
        invariant p + 4 <= q <= p + 4 + |name|
        decreases end - q
      {
        q := q + 1;
      }
      q := q + 1;
      UpShift(p + 4, |name| + 1);
      q := (q + 3) / 4 * 4;
    }

    // Rewrites the name of a property token from distance to offset.
    method PatchProperty(p: nat, end: nat, size: U32, ghost at: U32, ghost value: Bytes, ghost more: Bytes)
      returns (q: nat)
      requires p % 4 == 0 && p <= end <= buffer.Length && at <= size && |value| < WORD
      requires buffer[p..end] == Emit(Prop(at, value)) + more
      modifies buffer
      ensures q == p + Size(Prop(at, value))
      ensures buffer[p..end] == Emit(Prop(size - at, value)) + more
      ensures forall i :: 0 <= i < buffer.Length && !(p <= i < end) ==> buffer[i] == old(buffer[i])
    {
      var length, distance := ReadProperty(p, end, at, value, more);
      StoreOffset(p, end, size - distance, at, value, more);
      UpShift(p + 12, |value|);
      q := (p + 12 + length + 3) / 4 * 4;
    }

    method ReadProperty(p: nat, end: nat, ghost at: U32, ghost value: Bytes, ghost more: Bytes)
      returns (length: U32, distance: U32)
      requires p <= end <= buffer.Length && |value| < WORD && buffer[p..end] == Emit(Prop(at, value)) + more
      ensures length == |value| && distance == at
    {
      PropReads(at, value, more);
      WordIn(buffer[..], p, end, 4);
      WordIn(buffer[..], p, end, 8);
      assert buffer[..][p..end] == buffer[p..end];
      length := ReadWord(p + 4);
      distance := ReadWord(p + 8);
    }

    method StoreOffset(p: nat, end: nat, offset: U32, ghost at: U32, ghost value: Bytes, ghost more: Bytes)
      requires p <= end <= buffer.Length && |value| < WORD && buffer[p..end] == Emit(Prop(at, value)) + more
      modifies buffer
      ensures buffer[p..end] == Emit(Prop(offset, value)) + more
      ensures forall i :: 0 <= i < buffer.Length && !(p <= i < end) ==> buffer[i] == old(buffer[i])
    {
      ghost var s, b := buffer[p..end], buffer[..];
      PropReads(at, value, more);
      Store(p + 8, Word(offset));
      SameAround(b, buffer[..], p, end, p + 8, 4);
      PropPatched(s, buffer[p..end], at, offset, value, more);
    }

    // One token; false for a word that is none.
    method WalkToken(p: nat, end: nat, size: U32, ghost t: Token, ghost more: Bytes) returns (q: nat, known: bool)
      requires p % 4 == 0 && p <= end <= buffer.Length && Near(t, size)
      requires buffer[p..end] == Emit(t) + more
      modifies buffer
      ensures known && q == p + Size(t) && buffer[p..end] == Emit(Patch(t, size)) + more
      ensures forall i :: 0 <= i < buffer.Length && !(p <= i < end) ==> buffer[i] == old(buffer[i])
    {
      TagOf(t, more);
      WordIn(buffer[..], p, end, 0);
      assert buffer[..][p..end] == buffer[p..end];
      var tag := ReadWord(p);
      q, known := p, true;
      if tag == BEGIN_NODE {
        q := SkipName(p, end, t.name, more);
        assert Patch(t, size) == t;
      } else if tag == END_NODE {
        q := p + 4;
        assert Patch(t, size) == t;
      } else if tag == PROP {
        q := PatchProperty(p, end, size, t.at, t.value, more);
        assert Patch(t, size) == Prop(size - t.at, t.value);
      } else {
        known := false;
      }
    }

    method PatchToken(p: nat, end: nat, size: U32, ghost t: Token, ghost more: Bytes) returns (q: nat, known: bool)
      requires STRUCT <= p <= end <= buffer.Length && p % 4 == 0 && Near(t, size)
      requires buffer[..][p..end] == Emit(t) + more
      modifies buffer
      ensures known && q == p + Size(t) && Stepped(old(buffer[..]), buffer[..], p, end, size, t, more)
    {
      ghost var b := buffer[..];
      assert b[p..end] == buffer[p..end];
      q, known := WalkToken(p, end, size, t, more);
      assert buffer[..][p..end] == buffer[p..end];
      SameSlice(b, buffer[..], 0, STRUCT);
      SameSlice(b, buffer[..], end, |b|);
      SameSlice(b, buffer[..], STRUCT, p);
    }

    // The first token of the rest.
    method WalkStep(p: nat, end: nat, size: U32, ghost rest: seq<Token>, ghost whole: Bytes) returns (q: nat, known: bool)
      requires Walked(buffer[..], p, end, size, rest, whole) && rest != []
      modifies buffer
      ensures known && Walked(buffer[..], q, end, size, rest[1..], whole) && Kept(old(buffer[..]), buffer[..], end)
    {
      ghost var b := buffer[..];
      ghost var more := WalkedHead(b, p, end, size, rest, whole);
      q, known := PatchToken(p, end, size, rest[0], more);
      WalkedPatched(b, buffer[..], p, end, size, rest, whole, more);
    }

    // Turns every distance into an offset.
    method Walk(end: nat, size: U32, ghost ts: seq<Token>)
      requires STRUCT + 4 <= end <= buffer.Length && AllNear(ts, size)
      requires buffer[STRUCT..end] == EmitAll(ts) + Word(END)
      modifies buffer
      ensures buffer[STRUCT..end] == EmitAll(Patched(ts, size)) + Word(END)
      ensures buffer[..STRUCT] == old(buffer[..STRUCT]) && buffer[end..] == old(buffer[end..])
    {
      var p: nat := STRUCT;
      ghost var rest, whole := ts, EmitAll(Patched(ts, size));
      WalkedStart(buffer[..], end, size, ts);
      WalkedMore(buffer[..], p, end, size, rest, whole);
      while p + 4 < end
        invariant Walked(buffer[..], p, end, size, rest, whole)
        invariant p + 4 < end <==> rest != []
        invariant Kept(old(buffer[..]), buffer[..], end)
        decreases |rest|
      {
        var q, known := WalkStep(p, end, size, rest, whole);
        if !known {
          break;
        }
        p, rest := q, rest[1..];
        WalkedMore(buffer[..], p, end, size, rest, whole);
      }
      WalkedEnd(buffer[..], p, end, size, whole);
    }

    // Bytes to a lower place, lowest first: the two places may overlap.
    method MoveDown(from: nat, to: nat, n: nat)
      requires to <= from && from + n <= buffer.Length
      modifies buffer
      ensures buffer[to..to + n] == old(buffer[from..from + n])
      ensures forall i :: 0 <= i < to ==> buffer[i] == old(buffer[i])
    {
      for k := 0 to n
        invariant buffer[to..to + k] == old(buffer[from..from + k])
        invariant forall i :: 0 <= i < to || to + k <= i < buffer.Length ==> buffer[i] == old(buffer[i])
      {
        buffer[to + k] := buffer[from + k];
        assert buffer[to..to + k + 1] == buffer[to..to + k] + [buffer[to + k]];
        assert old(buffer[from..from + k + 1]) == old(buffer[from..from + k]) + [old(buffer[from + k])];
      }
    }

    // ---- The header ----

    ghost function Field(i: nat): nat
      reads buffer
      requires i < 10 && HEADER <= buffer.Length
    {
      WordAt(buffer[..], 4 * i)
    }

    // The last field adds the size of the reserved entry where the layout would subtract it.
    ghost predicate Headed(end: nat, size: nat)
      reads buffer
    {
      && HEADER <= buffer.Length && STRUCT <= end
      && Field(0) == MAGIC && Field(1) == end + size && Field(2) == STRUCT && Field(3) == end && Field(4) == HEADER
      && Field(5) == 17 && Field(6) == 16 && Field(7) == 0 && Field(8) == size && Field(9) == end - HEADER + 16
    }

    method SetField(i: nat, v: U32)
      requires i < 10 && HEADER <= buffer.Length
      modifies buffer
      ensures Field(i) == v && forall j :: 0 <= j < 10 && j != i ==> Field(j) == old(Field(j))
      ensures forall k :: HEADER <= k < buffer.Length ==> buffer[k] == old(buffer[k])
    {
      Store(4 * i, Word(v));
      WordRoundTrip(v);
      assert buffer[4 * i..4 * i + 4] == Word(v);
      WordIn(buffer[..], 4 * i, 4 * i + 4, 0);
      assert buffer[..][4 * i..4 * i + 4] == Word(v);
    }

    method WriteHeader(end: nat, size: nat)
      requires STRUCT <= end && end + size <= buffer.Length < WORD
      modifies buffer
      ensures Headed(end, size)
      ensures forall k :: HEADER <= k < buffer.Length ==> buffer[k] == old(buffer[k])
    {
      SetField(0, MAGIC);
      SetField(1, end + size);
      SetField(2, STRUCT);
      SetField(3, end);
      SetField(4, HEADER);
      SetField(5, 17);
      SetField(6, 16);
      SetField(7, 0);
      SetField(8, size);
      SetField(9, end - HEADER + 16);
    }

    // Ends the structure block, patches it, moves the names behind it and writes the header.
    // What the file says is what was built.
    method Finish() returns (n: nat)
      requires Valid() && cursor + 4 <= stringsCursor
      modifies this, buffer
      ensures cursor == old(cursor) + 4 && n == cursor + |old(Names())| <= buffer.Length
      ensures buffer[STRUCT..cursor] == EmitAll(Patched(old(tokens), |old(Names())|)) + Word(END)
      ensures buffer[cursor..n] == old(Names())
      ensures ReadFile(buffer[..n]) == Some(old(events))
      ensures forall items :: old(events) == Events(items) ==> ReadTree(buffer[..n]) == Some(items)
      ensures Headed(cursor, |old(Names())|) && AllZero(buffer[HEADER..STRUCT])
      ensures Field(9) == |buffer[STRUCT..cursor]| + 32
      ensures Framed(buffer[..], n, cursor)
    {
      ghost var es, ts, names := events, tokens, Names();
      PromisesKept(ts, es, names);
      n := Blocks();
      FileReads(buffer[..], n, Patched(ts, |names|), es, names, cursor);
      FileFramed(n, EmitAll(Patched(ts, |names|)));
    }

    lemma {:induction false} FileFramed(n: nat, block: Bytes)
      requires HEADER <= buffer.Length && STRUCT + 4 <= cursor <= n <= buffer.Length
      requires Headed(cursor, n - cursor) && buffer[STRUCT..cursor] == block + Word(END)
      ensures Framed(buffer[..], n, cursor)
    {
      var b, fields := buffer[..], [0xd00d_feed, n, 56, cursor, 40, 17, 16, 0, n - cursor, cursor - 24];
      forall i | 0 <= i < 10
        ensures WordAt(b, 4 * i) == fields[i]
      {
        assert Field(i) == WordAt(b, 4 * i);
      }
      HeaderBytes(b, n, fields);
      LastWord(b, cursor, block);
    }

    // Finishing, without what the file says.
    method Blocks() returns (n: nat)
      requires Room() && cursor + 4 <= stringsCursor && Holds(Written(), tokens) && AllNear(tokens, |Names()|)
      modifies this`cursor, buffer
      ensures STRUCT + 4 <= cursor == old(cursor) + 4 && n == cursor + |old(Names())| <= buffer.Length
      ensures buffer[STRUCT..cursor] == EmitAll(Patched(tokens, |old(Names())|)) + Word(END)
      ensures buffer[cursor..n] == old(Names())
      ensures Headed(cursor, |old(Names())|) && AllZero(buffer[HEADER..STRUCT])
    {
      ghost var before := Written();
      EndStructure();
      EndBehind(before, tokens, Written());
      assert buffer[HEADER..STRUCT] == Written()[HEADER..STRUCT];
      n := Close(tokens);
    }

    // The end token, on a multiple of four already.
    method EndStructure()
      requires Room() && cursor % 4 == 0 && cursor + 4 <= stringsCursor
      modifies buffer, this`cursor
      ensures Room() && cursor == old(cursor) + 4 && Names() == old(Names())
      ensures Written() == old(Written()) + Word(END)
    {
      Write32(END);
      Align();
    }

    method Join(end: nat, size: nat, ghost ts: seq<Token>)
      requires Room() && end == cursor && size == |Names()| && STRUCT + 4 <= cursor && AllNear(ts, size)
      requires Written()[STRUCT..] == EmitAll(ts) + Word(END)
      modifies buffer
      ensures buffer[STRUCT..end] == EmitAll(Patched(ts, size)) + Word(END)
      ensures end + size <= buffer.Length && buffer[end..end + size] == old(Names())
      ensures buffer[HEADER..STRUCT] == old(buffer[HEADER..STRUCT])
    {
      ghost var names, a := Names(), buffer[..];
      assert buffer[STRUCT..end] == Written()[STRUCT..];
      Walk(end, size, ts);
      ghost var b := buffer[..];
      SameTail(a, b, end, stringsCursor);
      assert buffer[stringsCursor..stringsCursor + size] == names;
      MoveDown(stringsCursor, end, size);
      SameSlice(b, buffer[..], STRUCT, end);
      assert a[..STRUCT][HEADER..] == a[HEADER..STRUCT] && b[..STRUCT][HEADER..] == b[HEADER..STRUCT];
      SameSlice(b, buffer[..], HEADER, STRUCT);
    }

    // Patches the structure block, joins the names to it and writes the header.
    method Close(ghost ts: seq<Token>) returns (n: nat)
      requires Room() && STRUCT + 4 <= cursor && AllNear(ts, |Names()|)
      requires Written()[STRUCT..] == EmitAll(ts) + Word(END)
      modifies buffer
      ensures n == cursor + |old(Names())| <= buffer.Length
      ensures buffer[STRUCT..cursor] == EmitAll(Patched(ts, |old(Names())|)) + Word(END)
      ensures buffer[cursor..n] == old(Names())
      ensures buffer[HEADER..STRUCT] == old(buffer[HEADER..STRUCT])
      ensures Headed(cursor, |old(Names())|)
    {
      var end, size := cursor, buffer.Length - stringsCursor;
      Join(end, size, ts);
      ghost var b := buffer[..];
      WriteHeader(end, size);
      BlocksKept(b, buffer[..], end, end + size);
      n := end + size;
    }
  }

  // The ten words of a header.
  ghost predicate Header(file: Bytes, fields: seq<nat>) {
    |file| >= 40 && |fields| == 10 && forall i :: 0 <= i < 10 ==> BigEndian(file[4 * i..4 * i + 4], fields[i])
  }

  // The first n bytes are a file whose structure block ends at `end`: the words of its header, the bytes of
  // its magic number and of its end token.
  ghost predicate Framed(b: Bytes, n: nat, end: nat) {
    && 44 <= end <= n <= |b|
    && Header(b[..n], [0xd00d_feed, n, 56, end, 40, 17, 16, 0, n - end, end - 24])
    && b[..4] == [0xd0, 0x0d, 0xfe, 0xed] && b[end - 4..end] == [0, 0, 0, 9]
  }

  lemma {:induction false} HeaderBytes(b: Bytes, n: nat, fields: seq<nat>)
    requires HEADER <= n <= |b| && |fields| == 10
    requires forall i :: 0 <= i < 10 ==> WordAt(b, 4 * i) == fields[i]
    requires fields[0] == 0xd00d_feed
    ensures Header(b[..n], fields) && b[..4] == [0xd0, 0x0d, 0xfe, 0xed]
  {
    forall i | 0 <= i < 10
      ensures BigEndian(b[..n][4 * i..4 * i + 4], fields[i])
    {
      WordAtBytes(b, 4 * i);
      assert b[..n][4 * i..4 * i + 4] == b[4 * i..4 * i + 4];
    }
    WordAtBytes(b, 0);
    BigEndianUnique(b[0..4], 0xd00d_feed);
  }

  lemma {:induction false} LastWord(b: Bytes, end: nat, block: Bytes)
    requires STRUCT + 4 <= end <= |b| && b[STRUCT..end] == block + Word(END)
    ensures b[end - 4..end] == [0, 0, 0, 9]
  {
    assert b[end - 4..end] == b[STRUCT..end][end - 4 - STRUCT..] == Word(END);
  }

  lemma {:induction false} EndBehind(before: Bytes, ts: seq<Token>, written: Bytes)
    requires Holds(before, ts) && written == before + Word(END)
    ensures written[STRUCT..] == EmitAll(ts) + Word(END)
    ensures AllZero(written[HEADER..STRUCT])
  {
    Extended(before, Word(END));
  }

  lemma {:induction false} SameSlice(b: Bytes, c: Bytes, lo: nat, hi: nat)
    requires lo <= hi <= |b| && |b| == |c| && forall i :: lo <= i < hi ==> b[i] == c[i]
    ensures b[lo..hi] == c[lo..hi]
  {
  }

  // A new header leaves what is behind it.
  lemma {:induction false} BlocksKept(b: Bytes, c: Bytes, end: nat, n: nat)
    requires STRUCT <= end <= n <= |b| && |b| == |c| && forall i :: HEADER <= i < |b| ==> b[i] == c[i]
    ensures c[STRUCT..end] == b[STRUCT..end] && c[end..n] == b[end..n] && c[HEADER..STRUCT] == b[HEADER..STRUCT]
  {
    SameSlice(b, c, STRUCT, end);
    SameSlice(b, c, end, n);
    SameSlice(b, c, HEADER, STRUCT);
  }

  lemma {:induction false} SameTail(a: Bytes, b: Bytes, lo: nat, hi: nat)
    requires lo <= hi <= |a| && |a| == |b| && a[lo..] == b[lo..]
    ensures a[hi..] == b[hi..]
  {
    assert a[lo..][hi - lo..] == a[hi..];
    assert b[lo..][hi - lo..] == b[hi..];
  }

  // A header that tells where the blocks are makes a file.
  lemma {:induction false} FileReads(b: Bytes, n: nat, ts: seq<Token>, es: seq<Event>, names: Bytes, end: nat)
    requires STRUCT + 4 <= end && n == end + |names| <= |b| && Denotes(ts, es, names)
    requires WordAt(b, 0) == MAGIC && WordAt(b, 4) == n && WordAt(b, 8) == STRUCT
    requires WordAt(b, 12) == end && WordAt(b, 24) == 16 && WordAt(b, 32) == |names|
    requires b[STRUCT..end] == EmitAll(ts) + Word(END) && b[end..n] == names
    ensures ReadFile(b[..n]) == Some(es)
    ensures forall items :: es == Events(items) ==> ReadTree(b[..n]) == Some(items)
  {
    SlicesInside(b, n, end);
    BlockReads(b[..n], ts, es, names, end);
    HeaderReads(b, n, es, names, end);
    TreesRead(b[..n], es);
  }

  lemma {:induction false} SlicesInside(b: Bytes, n: nat, end: nat)
    requires STRUCT <= end <= n <= |b|
    ensures b[..n][STRUCT..end] == b[STRUCT..end] && b[..n][end..] == b[end..n]
  {
  }

  lemma {:induction false} TreesRead(file: Bytes, es: seq<Event>)
    requires ReadFile(file) == Some(es)
    ensures forall items :: es == Events(items) ==> ReadTree(file) == Some(items)
  {
    forall items | es == Events(items)
      ensures ReadTree(file) == Some(items)
    {
      TreeOfEvents(file, items);
    }
  }

  lemma {:induction false} BlockReads(file: Bytes, ts: seq<Token>, es: seq<Event>, names: Bytes, end: nat)
    requires STRUCT <= end && |file| == end + |names| && Denotes(ts, es, names)
    requires file[STRUCT..end] == EmitAll(ts) + Word(END) && file[end..] == names
    ensures ReadAll(file[STRUCT..], file[end..end + |names|]) == Some(es)
  {
    ReadsBack(ts, es, names);
    BlocksRead(file, EmitAll(ts) + Word(END), es, names, end);
  }

  lemma {:induction false} HeaderReads(b: Bytes, n: nat, es: seq<Event>, names: Bytes, end: nat)
    requires STRUCT <= end && n == end + |names| <= |b|
    requires WordAt(b, 0) == MAGIC && WordAt(b, 4) == n && WordAt(b, 8) == STRUCT
    requires WordAt(b, 12) == end && WordAt(b, 24) == 16 && WordAt(b, 32) == |names|
    requires ReadAll(b[..n][STRUCT..], b[..n][end..end + |names|]) == Some(es)
    ensures ReadFile(b[..n]) == Some(es)
  {
    var file := b[..n];
    assert WordAt(file, 0) == MAGIC && WordAt(file, 4) == n && WordAt(file, 8) == STRUCT;
    assert WordAt(file, 12) == end && WordAt(file, 24) == 16 && WordAt(file, 32) == |names|;
  }

  lemma {:induction false} BlocksRead(file: Bytes, block: Bytes, es: seq<Event>, names: Bytes, end: nat)
    requires STRUCT <= end && |file| == end + |names| && ReadAll(block, names) == Some(es)
    requires file[STRUCT..end] == block && file[end..] == names
    ensures ReadAll(file[STRUCT..], file[end..end + |names|]) == Some(es)
  {
    ReadAllStops(block, names, names);
    assert file[STRUCT..] == file[STRUCT..end] + file[end..];
    assert file[end..end + |names|] == names;
  }

  lemma {:induction false} TagOf(t: Token, more: Bytes)
    ensures WordAt(Emit(t) + more, 0) == match t case Begin(_) => BEGIN_NODE case End => END_NODE case Prop(_, _) => PROP
  {
    match t
    case Begin(name) => WordFirst(BEGIN_NODE, Padded(name + [0]) + more);
      AppendAssociates(Word(BEGIN_NODE), Padded(name + [0]), more);
    case End => WordFirst(END_NODE, more);
    case Prop(at, value) =>
      WordFirst(PROP, Word(|value|) + (Word(at) + Padded(value)) + more);
      AppendAssociates(Word(PROP), Word(|value|) + (Word(at) + Padded(value)), more);
  }

  // Where a begin token has its name.
  lemma {:induction false} NameBytes(s: Bytes, name: Bytes, more: Bytes)
    requires s == Emit(Begin(name)) + more
    ensures |s| >= 4 + |name| + 1 && s[4..][..|name|] == name && s[4..][|name|] == 0
  {
    var pad := Padding(|name| + 1);
    AppendAssociates(Word(BEGIN_NODE), Padded(name + [0]), more);
    WordFirst(BEGIN_NODE, Padded(name + [0]) + more);
    assert s[4..] == Padded(name + [0]) + more;
    NameInFront(name, pad, more);
  }

  lemma {:induction false} InSlice(b: Bytes, p: nat, end: nat, name: Bytes)
    requires p <= end <= |b| && 0 !in name && |b[p..end]| >= 4 + |name| + 1
    requires b[p..end][4..][..|name|] == name && b[p..end][4..][|name|] == 0
    ensures forall q :: p + 4 <= q < p + 4 + |name| ==> b[q] != 0
    ensures b[p + 4 + |name|] == 0
  {
    forall q | p + 4 <= q < p + 4 + |name|
      ensures b[q] != 0
    {
      assert b[q] == b[p..end][4..][..|name|][q - p - 4] == name[q - p - 4];
    }
  }

  lemma {:induction false} NameInFront(name: Bytes, pad: Bytes, more: Bytes)
    ensures var s := name + [0] + pad + more; s[..|name|] == name && s[|name|] == 0
  {
  }

  lemma {:induction false} ZerosSnoc(n: nat)
    ensures Zeros(n + 1) == Zeros(n) + [0]
  {
    if n > 0 {
      ZerosSnoc(n - 1);
    }
  }
}
