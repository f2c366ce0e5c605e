// Sv39 page tables: a tree of tables of 512 entries in physical memory, mapping and translation
// (RISC-V Privileged Architecture, version 20211203, section 4.4).

module Sv39 {
  import opened Options
  import opened Powers

  const ENTRIES: nat := 512
  const PAGE: nat := 4096
  const MEGA: nat := 0x20_0000
  const GIGA: nat := 0x4000_0000
  const PAGES: nat := 0x800_0000
  const KERNEL_RWX: nat := 1 + 2 + 4 + 8 + 64 + 128

  // A table's entries, by the address of the table.
  type Tables = map<nat, seq<nat>>

  // ---- Entries ----

  // (addr >> 2) | flags: the low ten bits of the first are zero for a page address.
  function Entry(addr: nat, flags: nat): nat
    requires addr % PAGE == 0 && flags < 256
  {
    addr / 4 + flags
  }

  // (pte >> 10) << 12.
  function Target(pte: nat): nat {
    pte / 1024 * PAGE
  }

  predicate Present(pte: nat) {
    pte % 2 == 1
  }

  // Some of the bits R, W and X.
  predicate Leaf(pte: nat) {
    Present(pte) && pte / 2 % 8 != 0
  }

  predicate Pointer(pte: nat) {
    Present(pte) && !Leaf(pte)
  }

  lemma EntryReads(addr: nat, flags: nat)
    requires addr % PAGE == 0 && flags < 256
    ensures Target(Entry(addr, flags)) == addr
    ensures Present(Entry(addr, flags)) <==> flags % 2 == 1
    ensures Leaf(Entry(addr, flags)) <==> flags % 2 == 1 && flags / 2 % 8 != 0
    ensures Entry(addr, flags) / 1024 * 4096 == addr && Entry(addr, flags) % 1024 == flags
    ensures flags > 0 ==> Entry(addr, flags) != 0
  {
    var q := addr / PAGE;
    Divided(4 * q, 1024, 0);
    EntryParts(q, flags);
    assert addr == (4 * q) * 1024 && Entry(addr, flags) == q * 1024 + flags;
  }

  lemma EntryParts(q: nat, flags: nat)
    requires flags < 256
    ensures (q * 1024 + flags) / 1024 == q && (q * 1024 + flags) % 1024 == flags
    ensures (q * 1024 + flags) % 2 == flags % 2
    ensures (q * 1024 + flags) / 2 % 8 == flags / 2 % 8
  {
    var h, l := flags / 2, flags % 2;
    Divided(q, 1024, flags);
    Divided(q * 512 + h, 2, l);
    Divided(q * 64 + h / 8, 8, h % 8);
    assert q * 1024 + flags == (q * 512 + h) * 2 + l;
    assert q * 512 + h == (q * 64 + h / 8) * 8 + h % 8;
  }

  lemma Divided(q: nat, s: nat, r: nat)
    requires r < s
    ensures (q * s + r) / s == q && (q * s + r) % s == r
  {
    DivUnique(q * s + r, s, q);
  }

  // ---- Page numbers ----

  type Page = p: nat | p < PAGES

  function Number(va: nat): Page {
    va / PAGE % PAGES
  }

  function V2(p: Page): (r: nat)
    ensures r < ENTRIES
  {
    p / 0x4_0000
  }

  function V1(p: Page): (r: nat)
    ensures r < ENTRIES
  {
    p / 512 % 512
  }

  function V0(p: Page): (r: nat)
    ensures r < ENTRIES
  {
    p % 512
  }

  // An address put together from its fields.
  function Address(c: nat, d: nat, b: nat, o: nat): nat {
    ((c * 512 + d) * 512 + b) * PAGE + o
  }

  lemma Quotients(c: nat, d: nat, b: nat, o: nat)
    requires d < 512 && b < 512 && o < PAGE
    ensures var va := Address(c, d, b, o);
            && va / PAGE == (c * 512 + d) * 512 + b && va % PAGE == o
            && va / MEGA == c * 512 + d && va % MEGA == b * PAGE + o
            && va / GIGA == c && va % GIGA == (d * 512 + b) * PAGE + o
  {
    Divided((c * 512 + d) * 512 + b, PAGE, o);
    Divided(c * 512 + d, MEGA, b * PAGE + o);
    Divided(c, GIGA, (d * 512 + b) * PAGE + o);
  }

  lemma Remainders(e: nat, f: nat, d: nat, b: nat)
    requires f < 512 && d < 512 && b < 512
    ensures var q, r := ((e * 512 + f) * 512 + d) * 512 + b, f * 0x4_0000 + d * 512 + b;
            && q % PAGES == r && q % 512 == b && V0(r) == b && r % 0x4_0000 == d * 512 + b
            && V2(r) == f && V1(r) == d
  {
    var q, r := ((e * 512 + f) * 512 + d) * 512 + b, f * 0x4_0000 + d * 512 + b;
    Divided(e, PAGES, r);
    Divided((e * 512 + f) * 512 + d, 512, b);
    Divided(f * 512 + d, 512, b);
    Divided(f, 0x4_0000, d * 512 + b);
    Divided(f, 512, d);
  }

  // The three index fields of an address are those of its page number.
  lemma Fields(va: nat)
    ensures va / GIGA % 512 == V2(Number(va))
    ensures va / MEGA % 512 == V1(Number(va))
    ensures va / PAGE % 512 == V0(Number(va))
    ensures va % MEGA == V0(Number(va)) * PAGE + va % PAGE
    ensures va % GIGA == Number(va) % 0x4_0000 * PAGE + va % PAGE
  {
    var q, o := va / PAGE, va % PAGE;
    var a, b := q / 512, q % 512;
    var c, d := a / 512, a % 512;
    var e, f := c / 512, c % 512;
    Quotients(c, d, b, o);
    Remainders(e, f, d, b);
    Divided(e, 512, f);
    Divided(c, 512, d);
    assert va == Address(c, d, b, o);
  }

  lemma SameFields(p: Page, q: Page)
    requires V2(p) == V2(q) && V1(p) == V1(q) && V0(p) == V0(q)
    ensures p == q
  {
    PageParts(p);
    PageParts(q);
  }

  lemma PageParts(p: Page)
    ensures p == (V2(p) * 512 + V1(p)) * 512 + V0(p)
  {
    var a, b := p / 512, p % 512;
    var c, d := a / 512, a % 512;
    Divided(c, 0x4_0000, d * 512 + b);
    assert p == c * 0x4_0000 + (d * 512 + b);
  }

  // ---- The tree ----

  // Where in the tree a table is; a table has one place, so the tables are a tree.
  datatype Place = Root | Mid(v2: nat) | Low(v2: nat, v1: nat)

  // An entry that leads to a table has no right but to be valid.
  ghost predicate Points(place: map<nat, Place>, pte: nat, where: Place) {
    pte % 1024 == 1 && Pointer(pte) && Target(pte) in place && place[Target(pte)] == where
  }

  ghost predicate Good(place: map<nat, Place>, where: Place, i: nat, pte: nat) {
    pte == 0 || match where
    case Root => (Leaf(pte) && Target(pte) % GIGA == 0) || Points(place, pte, Mid(i))
    case Mid(v2) => (Leaf(pte) && Target(pte) % MEGA == 0) || Points(place, pte, Low(v2, i))
    case Low(_, _) => Present(pte)
  }

  ghost predicate Tree(mem: Tables, place: map<nat, Place>, root: nat) {
    && mem.Keys == place.Keys && root in mem && place[root] == Root
    && (forall a :: a in mem ==> |mem[a]| == ENTRIES && a % PAGE == 0 && (place[a] == Root ==> a == root))
    && (forall a, i :: a in mem && 0 <= i < ENTRIES ==> Good(place, place[a], i, mem[a][i]))
  }

  // The entry at which the search for a page ends, and its level: 2 in the root, 0 in a lowest table.
  datatype Found = Found(entry: nat, level: nat)

  // Where a page is, and what may be done there: the low ten bits of the entry.
  datatype Mapped = Mapped(frame: nat, rights: nat)

  ghost function Search(mem: Tables, place: map<nat, Place>, root: nat, p: Page): Option<Found>
    requires Tree(mem, place, root)
  {
    var e2 := mem[root][V2(p)];
    assert Good(place, Root, V2(p), e2);
    if !Present(e2) then None
    else if Leaf(e2) then Some(Found(e2, 2))
    else
      var l1 := Target(e2);
      var e1 := mem[l1][V1(p)];
      assert Good(place, Mid(V2(p)), V1(p), e1);
      if !Present(e1) then None
      else if Leaf(e1) then Some(Found(e1, 1))
      else
        var l0 := Target(e1);
        var e0 := mem[l0][V0(p)];
        if !Present(e0) then None else Some(Found(e0, 0))
  }

  // An entry of that level, frame and rights, read bit field by bit field.
  ghost predicate EndsAt(found: Option<Found>, level: nat, frame: nat, rights: nat) {
    match found
    case None => false
    case Some(Found(e, l)) => l == level && e / 1024 * 4096 == frame && e % 1024 == rights
  }

  // What an entry found for page p says about it.
  function Reading(found: Option<Found>, p: Page): Option<Mapped> {
    match found
    case None => None
    case Some(Found(e, level)) =>
      var within := if level == 2 then p % 0x4_0000 else if level == 1 then p % 512 else 0;
      Some(Mapped(e / 1024 * 4096 + within * 4096, e % 1024))
  }

  // ---- One entry changes ----

  ghost function Put(mem: Tables, a: nat, i: nat, pte: nat): Tables
    requires a in mem && i < |mem[a]|
  {
    var entries: seq<nat> := mem[a][i := pte];
    mem[a := entries]
  }

  ghost function Child(where: Place, i: nat): Place
    requires !where.Low?
  {
    if where.Root? then Mid(i) else Low(where.v2, i)
  }

  ghost function Blank(): (s: seq<nat>)
    ensures |s| == ENTRIES && forall i :: 0 <= i < ENTRIES ==> s[i] == 0
  {
    seq(ENTRIES, _ => 0)
  }

  // A new empty table in place of an empty entry keeps the tree.
  lemma GraftKeepsTree(mem: Tables, place: map<nat, Place>, root: nat, a: nat, i: nat, sub: nat, pte: nat)
    requires Tree(mem, place, root) && a in mem && i < ENTRIES && mem[a][i] == 0 && !place[a].Low?
    requires sub !in mem && sub % PAGE == 0 && Pointer(pte) && pte % 1024 == 1 && Target(pte) == sub
    ensures Tree(Put(mem[sub := Blank()], a, i, pte), place[sub := Child(place[a], i)], root)
  {
    var mem', place' := Put(mem[sub := Blank()], a, i, pte), place[sub := Child(place[a], i)];
    forall b, j | b in mem' && 0 <= j < ENTRIES
      ensures Good(place', place'[b], j, mem'[b][j])
    {
      if b in mem && !(b == a && j == i) {
        assert mem'[b][j] == mem[b][j] && Good(place, place[b], j, mem[b][j]);
      }
    }
  }

  // ... and every translation.
  lemma GraftKeepsSearch(mem: Tables, place: map<nat, Place>, root: nat, a: nat, i: nat, sub: nat, pte: nat, p: Page)
    requires Tree(mem, place, root) && a in mem && i < ENTRIES && mem[a][i] == 0 && !place[a].Low?
    requires sub !in mem && sub % PAGE == 0 && Pointer(pte) && pte % 1024 == 1 && Target(pte) == sub
    requires Tree(Put(mem[sub := Blank()], a, i, pte), place[sub := Child(place[a], i)], root)
    ensures Search(Put(mem[sub := Blank()], a, i, pte), place[sub := Child(place[a], i)], root, p)
            == Search(mem, place, root, p)
  {
    var mem' := Put(mem[sub := Blank()], a, i, pte);
    var e2 := mem[root][V2(p)];
    assert Good(place, Root, V2(p), e2);
    if a == root && i == V2(p) {
      assert mem'[root][V2(p)] == pte && mem'[sub][V1(p)] == 0;
    } else {
      assert mem'[root][V2(p)] == e2;
      if Pointer(e2) {
        var l1 := Target(e2);
        var e1 := mem[l1][V1(p)];
        assert Good(place, Mid(V2(p)), V1(p), e1);
        if a == l1 && i == V1(p) {
          assert mem'[l1][V1(p)] == pte && mem'[sub][V0(p)] == 0;
        } else {
          assert mem'[l1][V1(p)] == e1;
          assert Pointer(e1) ==> mem'[Target(e1)] == mem[Target(e1)];
        }
      }
    }
  }

  // The tables an address leads to.
  ghost predicate Leads(mem: Tables, place: map<nat, Place>, root: nat, p: Page, l1: nat, l0: nat)
    requires Tree(mem, place, root)
  {
    && Pointer(mem[root][V2(p)]) && Target(mem[root][V2(p)]) == l1 && l1 in mem
    && Pointer(mem[l1][V1(p)]) && Target(mem[l1][V1(p)]) == l0 && l0 in mem
    && place[l1] == Mid(V2(p)) && place[l0] == Low(V2(p), V1(p))
  }

  // A page entry set where there was none maps that page and no other.
  lemma FillMapsOne(mem: Tables, place: map<nat, Place>, root: nat, p: Page, l1: nat, l0: nat, pte: nat, q: Page)
    requires Tree(mem, place, root) && Leads(mem, place, root, p, l1, l0)
    requires mem[l0][V0(p)] == 0 && Present(pte)
    ensures Tree(Put(mem, l0, V0(p), pte), place, root)
    ensures Search(Put(mem, l0, V0(p), pte), place, root, q)
            == if q == p then Some(Found(pte, 0)) else Search(mem, place, root, q)
  {
    var mem' := Put(mem, l0, V0(p), pte);
    forall b, j | b in mem' && 0 <= j < ENTRIES
      ensures Good(place, place[b], j, mem'[b][j])
    {
      assert Good(place, place[b], j, mem[b][j]);
    }
    var e2 := mem[root][V2(q)];
    assert Good(place, Root, V2(q), e2);
    if Pointer(e2) {
      var e1 := mem[Target(e2)][V1(q)];
      assert Good(place, Mid(V2(q)), V1(q), e1);
      if Pointer(e1) && Target(e1) == l0 && V0(p) == V0(q) {
        SameFields(p, q);
      }
    }
  }

  // No larger page in the way of a page: its entries lead to tables, or are empty.
  ghost predicate Clear(mem: Tables, place: map<nat, Place>, root: nat, p: Page)
    requires Tree(mem, place, root)
  {
    var e2 := mem[root][V2(p)];
    assert Good(place, Root, V2(p), e2);
    !Leaf(e2) && (Pointer(e2) ==> !Leaf(mem[Target(e2)][V1(p)]))
  }

  lemma GraftKeepsClear(mem: Tables, place: map<nat, Place>, root: nat, a: nat, i: nat, sub: nat, pte: nat, p: Page)
    requires Tree(mem, place, root) && a in mem && i < ENTRIES && mem[a][i] == 0 && !place[a].Low?
    requires sub !in mem && sub % PAGE == 0 && Pointer(pte) && pte % 1024 == 1 && Target(pte) == sub
    requires Tree(Put(mem[sub := Blank()], a, i, pte), place[sub := Child(place[a], i)], root)
    ensures Clear(Put(mem[sub := Blank()], a, i, pte), place[sub := Child(place[a], i)], root, p)
            == Clear(mem, place, root, p)
  {
    var mem' := Put(mem[sub := Blank()], a, i, pte);
    var e2 := mem[root][V2(p)];
    assert Good(place, Root, V2(p), e2);
    if a == root && i == V2(p) {
      assert mem'[root][V2(p)] == pte && mem'[sub][V1(p)] == 0;
    } else {
      assert mem'[root][V2(p)] == e2;
      if Pointer(e2) {
        var l1 := Target(e2);
        assert Good(place, Mid(V2(p)), V1(p), mem[l1][V1(p)]);
        assert mem'[l1][V1(p)] == if a == l1 && i == V1(p) then pte else mem[l1][V1(p)];
      }
    }
  }

  lemma FillKeepsClear(mem: Tables, place: map<nat, Place>, root: nat, l0: nat, i: nat, pte: nat, q: Page)
    requires Tree(mem, place, root) && l0 in mem && place[l0].Low? && i < ENTRIES
    requires Tree(Put(mem, l0, i, pte), place, root)
    ensures Clear(Put(mem, l0, i, pte), place, root, q) == Clear(mem, place, root, q)
  {
    assert Good(place, Root, V2(q), mem[root][V2(q)]);
  }

  // A gigabyte entry set where the root had none maps its pages and no other.
  lemma GigaMapsItsPages(mem: Tables, place: map<nat, Place>, root: nat, i: nat, pte: nat, q: Page)
    requires Tree(mem, place, root) && i < ENTRIES && mem[root][i] == 0
    requires Leaf(pte) && Target(pte) % GIGA == 0
    ensures Tree(Put(mem, root, i, pte), place, root)
    ensures Search(Put(mem, root, i, pte), place, root, q)
            == if V2(q) == i then Some(Found(pte, 2)) else Search(mem, place, root, q)
  {
    var mem' := Put(mem, root, i, pte);
    forall b, j | b in mem' && 0 <= j < ENTRIES
      ensures Good(place, place[b], j, mem'[b][j])
    {
      assert Good(place, place[b], j, mem[b][j]);
    }
    var e2 := mem[root][V2(q)];
    assert Good(place, Root, V2(q), e2);
    if Pointer(e2) {
      assert Good(place, Mid(V2(q)), V1(q), mem[Target(e2)][V1(q)]);
    }
  }

  // ---- Ranges ----

  // The page k pages after an address.
  function Nth(va: nat, k: nat): Page {
    Number(va + k * PAGE)
  }

  // Where page q is after n pages from va went to the frames from pa, one by one; a mapped page
  // stays.
  function After(was: Option<Mapped>, q: Page, va: nat, pa: nat, f: nat, n: nat): Option<Mapped> {
    if n == 0 then was
    else
      var r := After(was, q, va, pa, f, n - 1);
      if r == None && q == Nth(va, n - 1) then Some(Mapped(pa + (n - 1) * PAGE, f)) else r
  }

  lemma OneMore(was: Option<Mapped>, q: Page, va: nat, pa: nat, f: nat, k: nat)
    ensures var r := After(was, q, va, pa, f, k);
            After(was, q, va, pa, f, k + 1) == if r == None && q == Nth(va, k) then Some(Mapped(pa + k * PAGE, f)) else r
  {
  }

  lemma NumbersDiffer(va: nat, i: nat, k: nat)
    requires i < k < i + PAGES
    ensures Nth(va, i) != Nth(va, k)
  {
    NthIs(va, i);
    NthIs(va, k);
    var n := va / PAGE;
    var x, y := (n + i) / PAGES, (n + k) / PAGES;
    assert Nth(va, k) - Nth(va, i) == k - i - (y - x) * PAGES;
  }

  lemma NthIs(va: nat, k: nat)
    ensures Nth(va, k) == (va / PAGE + k) % PAGES
  {
    Divided(va / PAGE + k, PAGE, va % PAGE);
    assert va + k * PAGE == (va / PAGE + k) * PAGE + va % PAGE;
  }

  // A mapped page stays.
  lemma {:induction false} RangeKeeps(was: Option<Mapped>, q: Page, va: nat, pa: nat, f: nat, n: nat)
    requires was.Some?
    ensures After(was, q, va, pa, f, n) == was
  {
    if n > 0 {
      RangeKeeps(was, q, va, pa, f, n - 1);
    }
  }

  // A page of no number in the range is left out.
  lemma {:induction false} RangeLeaves(was: Option<Mapped>, q: Page, va: nat, pa: nat, f: nat, n: nat)
    requires forall k :: 0 <= k < n ==> q != Nth(va, k)
    ensures After(was, q, va, pa, f, n) == was
  {
    if n > 0 {
      RangeLeaves(was, q, va, pa, f, n - 1);
    }
  }

  // An unmapped page goes to the first frame that is meant for it.
  lemma {:induction false} RangeMaps(q: Page, va: nat, pa: nat, f: nat, n: nat, k: nat)
    requires k < n && q == Nth(va, k) && forall j :: 0 <= j < k ==> q != Nth(va, j)
    ensures After(None, q, va, pa, f, n) == Some(Mapped(pa + k * PAGE, f))
  {
    if n == k + 1 {
      RangeLeaves(None, q, va, pa, f, k);
    } else {
      RangeMaps(q, va, pa, f, n - 1, k);
    }
  }

  lemma {:induction false} RangeReaches(was: Option<Mapped>, q: Page, va: nat, pa: nat, f: nat, n: nat, k: nat)
    requires k < n && q == Nth(va, k)
    ensures After(was, q, va, pa, f, n).Some?
  {
    if k < n - 1 {
      RangeReaches(was, q, va, pa, f, n - 1, k);
    }
  }

  // Every page of a range that does not go round has a frame of its own.
  lemma FramesDiffer(va: nat, pa: nat, f: nat, n: nat, k: nat)
    requires k < n && k < PAGES
    ensures After(None, Nth(va, k), va, pa, f, n) == Some(Mapped(pa + k * PAGE, f))
  {
    forall j | 0 <= j < k
      ensures Nth(va, j) != Nth(va, k)
    {
      NumbersDiffer(va, j, k);
    }
    RangeMaps(Nth(va, k), va, pa, f, n, k);
  }

  // ---- A gigabyte in one entry ----

  // Where page q is after one entry maps the gigabyte at va.
  function Giga(was: Option<Mapped>, q: Page, va: nat, pa: nat, f: nat): Option<Mapped> {
    if V2(q) == va / GIGA % 512 then Some(Mapped(pa + q % 0x4_0000 * PAGE, f)) else was
  }

  // The pages after a gigabyte boundary: g gigabytes and r pages.
  lemma NthOfGiga(va: nat, g: nat, r: nat)
    requires va % GIGA == 0 && r < 0x4_0000
    ensures V2(Nth(va, g * 0x4_0000 + r)) == (va / GIGA + g) % 512
    ensures Nth(va, g * 0x4_0000 + r) % 0x4_0000 == r
  {
    var c := va / GIGA;
    var e, f := (c + g) / 512, (c + g) % 512;
    Divided(c * 0x4_0000, PAGE, 0);
    assert va / PAGE == c * 0x4_0000;
    NthIs(va, g * 0x4_0000 + r);
    Remainders(e, f, r / 512, r % 512);
    assert c * 0x4_0000 + (g * 0x4_0000 + r) == ((e * 512 + f) * 512 + r / 512) * 512 + r % 512;
  }

  lemma GigaPage(va: nat, q: Page)
    requires va % GIGA == 0 && V2(q) == va / GIGA % 512
    ensures Nth(va, q % 0x4_0000) == q
  {
    var r := q % 0x4_0000;
    NthOfGiga(va, 0, r);
    assert q == V2(q) * 0x4_0000 + r;
    assert Nth(va, r) == V2(Nth(va, r)) * 0x4_0000 + r;
  }

  // One entry does what page-by-page mapping of n pages would have done to page q.
  predicate SameAt(was: Option<Mapped>, q: Page, va: nat, pa: nat, f: nat, n: nat) {
    Giga(was, q, va, pa, f) == After(was, q, va, pa, f, n)
  }

  // Page q needs nothing but the gigabyte at va.
  predicate Served(was: Option<Mapped>, q: Page, va: nat) {
    V2(q) == va / GIGA % 512 || was.Some?
  }

  lemma ServedSame(was: Option<Mapped>, q: Page, va: nat, pa: nat, f: nat, n: nat)
    requires va % GIGA == 0 && n >= 0x4_0000
    requires V2(q) == va / GIGA % 512 ==> was == None
    requires forall k :: 0 <= k < n && q == Nth(va, k) ==> Served(was, q, va)
    ensures SameAt(was, q, va, pa, f, n)
  {
    if V2(q) == va / GIGA % 512 {
      GigaPage(va, q);
      FramesDiffer(va, pa, f, n, q % 0x4_0000);
    } else if was.Some? {
      RangeKeeps(was, q, va, pa, f, n);
    } else {
      RangeLeaves(was, q, va, pa, f, n);
    }
  }

  lemma UnservedDiffers(was: Option<Mapped>, q: Page, va: nat, pa: nat, f: nat, n: nat, k: nat)
    requires k < n && q == Nth(va, k) && !Served(was, q, va)
    ensures !SameAt(was, q, va, pa, f, n)
  {
    RangeReaches(was, q, va, pa, f, n, k);
  }

  // One entry does what page-by-page mapping of the size would have done, exactly for sizes above
  // zero whose further pages were all mapped before, or come round to the same gigabyte.
  lemma OneEntryForRange(was: Page -> Option<Mapped>, va: nat, pa: nat, f: nat, size: nat)
    requires va % GIGA == 0 && size % GIGA == 0
    requires forall q: Page :: V2(q) == va / GIGA % 512 ==> was(q) == None
    ensures (forall q: Page :: SameAt(was(q), q, va, pa, f, Count(size)))
       <==> (size > 0 && forall k :: 0 <= k < Count(size) ==> Served(was(Nth(va, k)), Nth(va, k), va))
  {
    var n := Count(size);
    GigaCount(size);
    if size > 0 && forall k :: 0 <= k < n ==> Served(was(Nth(va, k)), Nth(va, k), va) {
      forall q: Page
        ensures SameAt(was(q), q, va, pa, f, n)
      {
        ServedSame(was(q), q, va, pa, f, n);
      }
    } else if size == 0 {
      NthOfGiga(va, 0, 0);
      assert !SameAt(was(Nth(va, 0)), Nth(va, 0), va, pa, f, n);
    } else {
      var k :| 0 <= k < n && !Served(was(Nth(va, k)), Nth(va, k), va);
      UnservedDiffers(was(Nth(va, k)), Nth(va, k), va, pa, f, n, k);
    }
  }

  // So where nothing is mapped, one entry is right for one gigabyte only.
  lemma OneEntryIsOneGiga(va: nat, pa: nat, f: nat, size: nat)
    requires va % GIGA == 0 && size % GIGA == 0
    ensures (forall q: Page :: SameAt(None, q, va, pa, f, Count(size))) <==> size == GIGA
  {
    var n := Count(size);
    GigaCount(size);
    var was: Page -> Option<Mapped> := _ => None;
    OneEntryForRange(was, va, pa, f, size);
    assert forall q: Page :: SameAt(was(q), q, va, pa, f, n) <==> SameAt(None, q, va, pa, f, n);
    if size > GIGA {
      NextGigaDiffers(va);
      assert !Served(was(Nth(va, 0x4_0000)), Nth(va, 0x4_0000), va);
    } else if size == GIGA {
      forall k | 0 <= k < n
        ensures Served(was(Nth(va, k)), Nth(va, k), va)
      {
        NthOfGiga(va, 0, k);
      }
    }
  }

  lemma NextGigaDiffers(va: nat)
    requires va % GIGA == 0
    ensures V2(Nth(va, 0x4_0000)) != va / GIGA % 512
  {
    NthOfGiga(va, 1, 0);
  }

  lemma GigaCount(size: nat)
    requires size % GIGA == 0
    ensures Count(size) == size / GIGA * 0x4_0000
    ensures size > 0 ==> Count(size) >= 0x4_0000
    ensures size > GIGA ==> Count(size) > 0x4_0000
  {
    var g := size / GIGA;
    Divided(g * 0x4_0000, PAGE, PAGE - 1);
  }

  // The pages it takes to cover a size.
  function Count(size: nat): nat {
    (size + PAGE - 1) / PAGE
  }

  lemma Counted(k: nat, size: nat)
    ensures k < Count(size) <==> k * PAGE < size
  {
  }

  // A gigabyte entry in an empty place of the root.
  lemma GigaFills(mem: Tables, place: map<nat, Place>, root: nat, va: nat, pte: nat)
    requires Tree(mem, place, root) && mem[root][va / GIGA % 512] == 0
    requires Leaf(pte) && Target(pte) % GIGA == 0
    ensures Tree(Put(mem, root, va / GIGA % 512, pte), place, root)
    ensures forall q: Page :: Search(Put(mem, root, va / GIGA % 512, pte), place, root, q)
                              == if V2(q) == va / GIGA % 512 then Some(Found(pte, 2)) else Search(mem, place, root, q)
    ensures forall q: Page :: V2(q) == va / GIGA % 512 ==> Search(mem, place, root, q) == None
  {
    var vpn := va / GIGA % 512;
    forall q: Page
      ensures Tree(Put(mem, root, vpn, pte), place, root)
      ensures Search(Put(mem, root, vpn, pte), place, root, q)
              == if V2(q) == vpn then Some(Found(pte, 2)) else Search(mem, place, root, q)
      ensures V2(q) == vpn ==> Search(mem, place, root, q) == None
    {
      GigaMapsItsPages(mem, place, root, vpn, pte, q);
    }
    GigaMapsItsPages(mem, place, root, vpn, pte, 0);
  }

  // ---- The mapped memory ----

  class Mmu {
    const root: nat
    var mem: Tables
    // The pages the memory hands out, in order, for as long as it has any.
    const supply: nat -> nat
    var taken: nat
    ghost var place: map<nat, Place>

    ghost predicate Valid()
      reads this
    {
      && Tree(mem, place, root)
      && Pages(supply)
      && (forall i: nat :: taken <= i ==> supply(i) !in mem)
    }

    // The entry at which the search for a page ends.
    ghost function FoundAt(p: Page): Option<Found>
      reads this
      requires Valid()
    {
      Search(mem, place, root, p)
    }

    // What it says.
    ghost function At(p: Page): Option<Mapped>
      reads this
      requires Valid()
    {
      Reading(FoundAt(p), p)
    }

    ghost predicate Free(p: Page)
      reads this
      requires Valid()
    {
      Clear(mem, place, root, p)
    }

    // Different page addresses.
    static ghost predicate Pages(supply: nat -> nat) {
      && (forall i: nat, j: nat :: supply(i) == supply(j) ==> i == j)
      && (forall i: nat :: supply(i) % PAGE == 0)
    }

    constructor (root: nat, supply: nat -> nat)
      requires root % PAGE == 0 && Pages(supply) && forall i: nat :: supply(i) != root
      ensures Valid() && this.root == root && this.supply == supply
      ensures forall p: Page :: FoundAt(p) == None && Free(p)
      ensures mem[root] == Blank()
    {
      this.root, this.supply, taken := root, supply, 0;
      var blank: seq<nat> := seq(ENTRIES, _ => 0);
      mem := map[root := blank];
      place := map[root := Root];
    }

    // A page of zeros from the memory.
    method Alloc() returns (table: nat)
      modifies this`mem, this`taken
      ensures table == supply(old(taken)) && taken == old(taken) + 1 && mem == old(mem)[table := Blank()]
    {
      table, taken := supply(taken), taken + 1;
      var blank: seq<nat> := seq(ENTRIES, _ => 0);
      mem := mem[table := blank];
    }

    // Sets an empty entry.
    method Set(table: nat, vpn: nat, addr: nat, flags: nat) returns (ok: bool)
      requires table in mem && vpn < |mem[table]| && addr % PAGE == 0 && flags < 256
      modifies this`mem
      ensures ok == (old(mem)[table][vpn] == 0)
      ensures mem == if ok then Put(old(mem), table, vpn, Entry(addr, flags)) else old(mem)
    {
      ok := mem[table][vpn] == 0;
      if ok {
        var entries: seq<nat> := mem[table][vpn := addr / 4 + flags];
        mem := mem[table := entries];
      }
    }

    method Walk(table: nat, vpn: nat) returns (next: nat)
      requires table in mem && vpn < |mem[table]|
      ensures next == Target(mem[table][vpn])
    {
      next := mem[table][vpn] / 1024 * PAGE;
    }

    // The table an entry leads to; a new one for an empty entry.
    method Descend(table: nat, vpn: nat) returns (next: nat)
      requires Valid() && table in mem && !place[table].Low? && vpn < ENTRIES
      requires !Leaf(mem[table][vpn])
      modifies this
      ensures Valid()
      ensures forall p: Page :: FoundAt(p) == old(FoundAt(p))
      ensures forall p: Page :: Free(p) == old(Free(p))
      ensures forall a :: a in old(mem) ==> a in mem && place[a] == old(place)[a]
      ensures forall a, i :: a in old(mem) && 0 <= i < ENTRIES && !(a == table && i == vpn) ==> mem[a][i] == old(mem)[a][i]
      ensures Pointer(mem[table][vpn]) && mem[table][vpn] % 1024 == 1 && Target(mem[table][vpn]) == next
      ensures next in mem && place[next] == Child(place[table], vpn)
      ensures old(mem)[table][vpn] != 0 ==> mem == old(mem)
      ensures old(mem)[table][vpn] == 0 ==> mem[next] == Blank()
    {
      assert Good(place, place[table], vpn, mem[table][vpn]);
      if mem[table][vpn] == 0 {
        ghost var was, places := mem, place;
        next := Alloc();
        EntryReads(next, 1);
        ghost var pte := Entry(next, 1);
        GraftKeepsTree(was, places, root, table, vpn, next, pte);
        forall p: Page
          ensures Search(Put(was[next := Blank()], table, vpn, pte), places[next := Child(places[table], vpn)], root, p)
                  == Search(was, places, root, p)
        {
          GraftKeepsSearch(was, places, root, table, vpn, next, pte, p);
        }
        forall p: Page
          ensures Clear(Put(was[next := Blank()], table, vpn, pte), places[next := Child(places[table], vpn)], root, p)
                  == Clear(was, places, root, p)
        {
          GraftKeepsClear(was, places, root, table, vpn, next, pte, p);
        }
        var ok := Set(table, vpn, next, 1);
        place := place[next := Child(place[table], vpn)];
      } else {
        next := Walk(table, vpn);
      }
    }

    // Maps a page that is not mapped: its search ends at a lowest entry of exactly that frame and those
    // rights. A mapped page, and every other one, keeps the entry it has.
    method Map(va: nat, pa: nat, flags: nat) returns (ok: bool)
      requires Valid() && Free(Number(va)) && pa % PAGE == 0 && flags < 256 && flags % 2 == 1
      modifies this
      ensures Valid()
      ensures ok == (old(FoundAt(Number(va))) == None)
      ensures !ok ==> mem == old(mem)
      ensures ok ==> EndsAt(FoundAt(Number(va)), 0, pa, flags)
      ensures forall q: Page :: !ok || q != Number(va) ==> FoundAt(q) == old(FoundAt(q))
      ensures forall p: Page :: Free(p) == old(Free(p))
    {
      ghost var p := Number(va);
      Fields(va);
      var l1 := Descend(root, va / GIGA % 512);
      var l0 := Descend(l1, va / MEGA % 512);
      assert Leads(mem, place, root, p, l1, l0);
      ok := Fill(l0, va / PAGE % 512, pa, flags, p, l1);
    }

    // The last step of mapping.
    method Fill(l0: nat, vpn: nat, pa: nat, flags: nat, ghost p: Page, ghost l1: nat) returns (ok: bool)
      requires Valid() && vpn == V0(p) && Leads(mem, place, root, p, l1, l0) && pa % PAGE == 0 && flags < 256 && flags % 2 == 1
      modifies this`mem
      ensures Valid() && ok == (old(FoundAt(p)) == None) && (!ok ==> mem == old(mem))
      ensures ok ==> EndsAt(FoundAt(p), 0, pa, flags)
      ensures forall q: Page :: !ok || q != p ==> FoundAt(q) == old(FoundAt(q))
      ensures forall q: Page :: Free(q) == old(Free(q))
    {
      EntryReads(pa, flags);
      ghost var was, pte := mem, Entry(pa, flags);
      assert Good(place, place[l0], V0(p), mem[l0][V0(p)]);
      if mem[l0][V0(p)] == 0 {
        forall q: Page
          ensures Tree(Put(was, l0, V0(p), pte), place, root)
          ensures Search(Put(was, l0, V0(p), pte), place, root, q)
                  == if q == p then Some(Found(pte, 0)) else Search(was, place, root, q)
        {
          FillMapsOne(was, place, root, p, l1, l0, pte, q);
        }
        forall q: Page
          ensures Clear(Put(was, l0, V0(p), pte), place, root, q) == Clear(was, place, root, q)
        {
          FillKeepsClear(was, place, root, l0, V0(p), pte, q);
        }
      }
      ok := Set(l0, vpn, pa, flags);
    }

    // Page by page; pages that are mapped stay.
    method MapPages(va: nat, pa: nat, size: nat, flags: nat)
      requires Valid() && pa % PAGE == 0 && flags < 256 && flags % 2 == 1
      requires forall k :: 0 <= k < Count(size) ==> Free(Nth(va, k))
      modifies this
      ensures Valid() && forall q: Page :: At(q) == After(old(At(q)), q, va, pa, flags, Count(size))
      ensures forall q: Page :: old(FoundAt(q)).Some? ==> FoundAt(q) == old(FoundAt(q))
    {
      var v, p, end := va, pa, pa + size;
      ghost var k := 0;
      ghost var m, t := mem, place;
      ghost var was: Page -> Option<Found> := (q: Page) => if Tree(m, t, root) then Search(m, t, root, q) else None;
      Counted(0, size);
      while p < end
        invariant v == va + k * PAGE && p == pa + k * PAGE && k <= Count(size) && (p < end <==> k < Count(size))
        invariant Reached(was, va, pa, flags, k)
        invariant forall q: Page :: Free(q) == old(Free(q))
        decreases end - p
      {
        Next(v, p, flags, was, va, pa, k);
        v, p, k := v + PAGE, p + PAGE, k + 1;
        Counted(k, size);
      }
    }

    // The first k pages of a range are in.
    ghost predicate Reached(was: Page -> Option<Found>, va: nat, pa: nat, flags: nat, k: nat)
      reads this
    {
      && Valid()
      && (forall q: Page :: At(q) == After(Reading(was(q), q), q, va, pa, flags, k))
      && (forall q: Page :: was(q).Some? ==> FoundAt(q) == was(q))
    }

    // The next page of a range.
    method Next(v: nat, p: nat, flags: nat, ghost was: Page -> Option<Found>, ghost va: nat, ghost pa: nat, ghost k: nat)
      requires Reached(was, va, pa, flags, k) && pa % PAGE == 0 && flags < 256 && flags % 2 == 1 && Free(Nth(va, k))
      requires v == va + k * PAGE && p == pa + k * PAGE
      modifies this
      ensures Reached(was, va, pa, flags, k + 1)
      ensures forall q: Page :: Free(q) == old(Free(q))
    {
      assert p % PAGE == 0;
      var ok := Map(v, p, flags);
      forall q: Page
        ensures At(q) == After(Reading(was(q), q), q, va, pa, flags, k + 1)
      {
        assert At(q) == if ok && q == Nth(va, k) then Some(Mapped(p, flags)) else old(At(q));
        OneMore(Reading(was(q), q), q, va, pa, flags, k);
      }
    }

    // A gigabyte, in the root; nothing when the root has anything there.
    method MapGiga(va: nat, pa: nat, flags: nat)
      requires Valid() && va % GIGA == 0 && pa % GIGA == 0 && flags < 256 && flags % 2 == 1 && flags / 2 % 8 != 0
      modifies this`mem
      ensures Valid()
      ensures GigaMapped(old(mem)[root][va / GIGA % 512] == 0, va, pa, flags)
      ensures old(mem)[root][va / GIGA % 512] != 0 ==> mem == old(mem)
      ensures mem[root] == old(mem)[root][va / GIGA % 512 := mem[root][va / GIGA % 512]]
    {
      var vpn := va / GIGA % 512;
      EntryReads(pa, flags);
      if mem[root][vpn] == 0 {
        GigaFills(mem, place, root, va, Entry(pa, flags));
      }
      var ok := Set(root, vpn, pa, flags);
    }

    // The pages of the gigabyte, if its place was empty, are found at one root entry of that frame and those
    // rights; they were not mapped before. Every other page keeps the entry it has.
    twostate predicate GigaMapped(empty: bool, va: nat, pa: nat, flags: nat)
      requires old(Valid()) && Valid()
      reads this
    {
      forall q: Page ::
        if empty && V2(q) == va / GIGA % 512 then EndsAt(FoundAt(q), 2, pa, flags) && old(FoundAt(q)) == None
        else FoundAt(q) == old(FoundAt(q))
    }

    // Gigabyte sizes go in one entry, whatever their number of gigabytes; others page by page.
    method MapRange(va: nat, pa: nat, size: nat, flags: nat)
      requires Valid() && pa % PAGE == 0 && flags < 256 && flags % 2 == 1
      requires GigaForm(va, pa, size) ==> flags / 2 % 8 != 0
      requires !GigaForm(va, pa, size) ==> forall k :: 0 <= k < Count(size) ==> Free(Nth(va, k))
      modifies this
      ensures Valid()
      ensures !GigaForm(va, pa, size) ==>
                && (forall q: Page :: At(q) == After(old(At(q)), q, va, pa, flags, Count(size)))
                && (forall q: Page :: old(FoundAt(q)).Some? ==> FoundAt(q) == old(FoundAt(q)))
      ensures GigaForm(va, pa, size) && old(mem)[root][va / GIGA % 512] != 0 ==> mem == old(mem)
      ensures GigaForm(va, pa, size) ==>
                mem[root] == old(mem)[root][va / GIGA % 512 := mem[root][va / GIGA % 512]]
      ensures GigaForm(va, pa, size) ==> GigaMapped(old(mem)[root][va / GIGA % 512] == 0, va, pa, flags)
      ensures GigaForm(va, pa, size) && old(mem)[root][va / GIGA % 512] == 0 ==>
                forall q: Page :: At(q) == Giga(old(At(q)), q, va, pa, flags)
    {
      if size % GIGA == 0 && va % GIGA == 0 && pa % GIGA == 0 {
        MapGiga(va, pa, flags);
      } else {
        MapPages(va, pa, size, flags);
      }
    }

    // At boot: the kernel's addresses and the memory's own both lead to the memory, the devices to
    // themselves, one gigabyte each and with every right (0xcf: valid, R, W, X, accessed, dirty). The
    // first mapping of a root place counts.
    method Boot(ram: nat, mm: nat, mmio: nat)
      requires Valid() && mem[root] == Blank() && ram % GIGA == 0 && mm % GIGA == 0 && mmio % GIGA == 0
      modifies this
      ensures Valid()
      ensures forall q: Page :: V2(q) == ram / GIGA % 512 ==> EndsAt(FoundAt(q), 2, mm, 0xcf)
      ensures forall q: Page :: V2(q) == mm / GIGA % 512 && V2(q) != ram / GIGA % 512 ==> EndsAt(FoundAt(q), 2, mm, 0xcf)
      ensures forall q: Page ::
                V2(q) == mmio / GIGA % 512 && V2(q) != ram / GIGA % 512 && V2(q) != mm / GIGA % 512 ==>
                  EndsAt(FoundAt(q), 2, mmio, 0xcf)
      ensures forall q: Page ::
                V2(q) != mmio / GIGA % 512 && V2(q) != ram / GIGA % 512 && V2(q) != mm / GIGA % 512 ==> FoundAt(q) == None
    {
      ghost var none: map<nat, nat> := map[];
      assert Planned(none);
      ghost var one := BootOne(ram, mm, none);
      ghost var two := BootOne(mm, mm, one);
      ghost var three := BootOne(mmio, mmio, two);
    }

    method BootOne(va: nat, pa: nat, ghost plan: map<nat, nat>) returns (ghost next: map<nat, nat>)
      requires Planned(plan) && va % GIGA == 0 && pa % GIGA == 0
      modifies this
      ensures next == if va / GIGA % 512 in plan then plan else plan[va / GIGA % 512 := pa]
      ensures Planned(next)
    {
      MapRange(va, pa, GIGA, KERNEL_RWX);
      next := if va / GIGA % 512 in plan then plan else plan[va / GIGA % 512 := pa];
      assert V2(va / GIGA % 512 * 0x4_0000) == va / GIGA % 512 by { Divided(va / GIGA % 512, 0x4_0000, 0); }
    }

    // The root holds a gigabyte entry for each place of the plan, and nothing else.
    ghost predicate Planned(plan: map<nat, nat>)
      reads this
    {
      && Valid()
      && (forall i :: 0 <= i < ENTRIES ==> (mem[root][i] != 0 <==> i in plan))
      && (forall q: Page :: if V2(q) in plan then EndsAt(FoundAt(q), 2, plan[V2(q)], 0xcf) else FoundAt(q) == None)
    }

    static predicate GigaForm(va: nat, pa: nat, size: nat) {
      size % GIGA == 0 && va % GIGA == 0 && pa % GIGA == 0
    }

    // The root's page number under the mode bits. It leads back to the root from an address of 56
    // bits, and from no other.
    method Load() returns (satp: nat)
      requires root % PAGE == 0
      ensures satp != 0
      ensures satp % 0x1000_0000_0000 * PAGE == root <==> root < 0x100_0000_0000_0000
      ensures root < 0x100_0000_0000_0000 ==> satp / 0x1000_0000_0000 == 0x8_0000
    {
      satp := 8 * 0x1000_0000_0000_0000 + root / PAGE;
      RootField(root / PAGE);
    }

    // The page's frame and the offset; zero for a page that is not mapped; the address itself
    // while there are no tables.
    method VirtToPhys(satp: nat, va: nat) returns (pa: nat)
      requires Valid() && (satp == 0 || satp % 0x1000_0000_0000 * PAGE == root)
      ensures satp == 0 ==> pa == va
      ensures satp != 0 ==> pa == match At(Number(va)) case Some(m) => m.frame + va % PAGE case None => 0
    {
      ghost var p := Number(va);
      Fields(va);
      if satp == 0 {
        return va;
      }
      var current := satp % 0x1000_0000_0000 * PAGE;
      var pte2 := mem[current][va / GIGA % 512];
      assert Good(place, Root, V2(p), pte2);
      if !Present(pte2) {
        return 0;
      }
      if Leaf(pte2) {
        return Target(pte2) + va % GIGA;
      }
      var pte1 := mem[Target(pte2)][va / MEGA % 512];
      assert Good(place, Mid(V2(p)), V1(p), pte1);
      if !Present(pte1) {
        return 0;
      }
      if Leaf(pte1) {
        return Target(pte1) + va % MEGA;
      }
      var pte0 := mem[Target(pte1)][va / PAGE % 512];
      if !Present(pte0) {
        return 0;
      }
      return Target(pte0) + va % PAGE;
    }
  }

  // The register keeps 44 bits of a page number; above them are 16 bits of address space, and the mode, 8.
  lemma RootField(p: nat)
    ensures (8 * 0x1000_0000_0000_0000 + p) % 0x1000_0000_0000 == p % 0x1000_0000_0000
    ensures p % 0x1000_0000_0000 == p <==> p < 0x1000_0000_0000
    ensures p < 0x1000_0000_0000 ==> (8 * 0x1000_0000_0000_0000 + p) / 0x1000_0000_0000 == 0x8_0000
  {
    assert 8 * 0x1000_0000_0000_0000 == 0x8_0000 * 0x1000_0000_0000;
  }
}
