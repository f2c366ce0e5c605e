// The buddy allocator as functions on its free lists, and what these functions promise.
//
// `m` is the allocator's MINIMUM exponent: a block of level n has 2^(n + m) bytes. `free[n]` is the list of the
// addresses of the free blocks of level n, head first; the top level is |free| - 1.

module BuddySpec {
  import opened Options
  import opened Powers
  import opened Counting

  type FreeLists = seq<seq<nat>>

  function BlockSize(m: nat, n: nat): (s: nat)
    ensures s > 0
  {
    Pow2(n + m)
  }

  predicate Aligned(m: nat, n: nat, a: nat) {
    a % BlockSize(m, n) == 0
  }

  // The level-n block that byte x belongs to.
  function BlockOf(m: nat, n: nat, x: nat): nat {
    Floor(n + m, x)
  }

  // Changes bit k of a.
  function Toggle(k: nat, a: nat): nat {
    if k == 0 then (if a % 2 == 0 then a + 1 else a - 1) else 2 * Toggle(k - 1, a / 2) + a % 2
  }

  // Exclusive-or with the block size: toggles the one bit that tells the halves of the parent block apart.
  function Buddy(m: nat, n: nat, a: nat): nat {
    Toggle(n + m, a)
  }

  function Log2Ceil(size: nat): (l: nat)
    ensures size <= Pow2(l)
    ensures l > 0 ==> Pow2(l - 1) < size
  {
    Log2CeilFrom(size, 0)
  }

  function Log2CeilFrom(size: nat, l: nat): (r: nat)
    requires l > 0 ==> Pow2(l - 1) < size
    ensures r >= l && size <= Pow2(r)
    ensures r > 0 ==> Pow2(r - 1) < size
    decreases size - Pow2(l)
  {
    if Pow2(l) < size then Log2CeilFrom(size, l + 1) else l
  }

  function Bucket(m: nat, size: nat): nat {
    var b := Log2Ceil(size);
    (if b < m then m else b) - m
  }

  // The level chosen for a request is the least one whose blocks hold it.
  lemma BucketIsLeast(m: nat, size: nat, n: nat)
    ensures size <= BlockSize(m, n) <==> Bucket(m, size) <= n
  {
    var l := Log2Ceil(size);
    if n + m >= l {
      Pow2Monotone(l, n + m);
    } else {
      Pow2Monotone(n + m, l - 1);
    }
  }

  // Without the first occurrence of a.
  function Without(s: seq<nat>, a: nat): (r: seq<nat>)
    ensures forall x :: x in r ==> x in s
    ensures a in s ==> |r| == |s| - 1
    ensures a !in s ==> r == s
  {
    if s == [] then [] else if s[0] == a then s[1..] else [s[0]] + Without(s[1..], a)
  }

  // The least non-empty level at or above n, or |free| when there is none.
  function FirstFit(free: FreeLists, n: nat): (i: nat)
    requires n <= |free|
    ensures n <= i <= |free|
    ensures forall j :: n <= j < i ==> free[j] == []
    ensures i < |free| ==> free[i] != []
    decreases |free| - n
  {
    if n == |free| || free[n] != [] then n else FirstFit(free, n + 1)
  }

  // Give back the upper halves of a level-i block until a level-n block is left.
  function Split(m: nat, free: FreeLists, node: nat, i: nat, n: nat): (r: FreeLists)
    requires n <= i <= |free|
    ensures |r| == |free|
    decreases i
  {
    if i == n then free
    else Split(m, free[i - 1 := [Buddy(m, i - 1, node)] + free[i - 1]], node, i - 1, n)
  }

  // Take a level-n block.
  function Take(m: nat, free: FreeLists, n: nat): (r: Option<(nat, FreeLists)>)
    ensures r.Some? ==> |r.value.1| == |free|
  {
    if n >= |free| then None else
      var i := FirstFit(free, n);
      if i == |free| then None else Some((free[i][0], Split(m, free[i := free[i][1..]], free[i][0], i, n)))
  }

  // Give back a level-n block, merging it with its buddy for as long as the buddy is free.
  function Give(m: nat, free: FreeLists, a: nat, n: nat): (r: FreeLists)
    requires n < |free|
    ensures |r| == |free|
    decreases |free| - n
  {
    var b := Buddy(m, n, a);
    if n < |free| - 1 && b in free[n]
    then Give(m, free[n := Without(free[n], b)], if b < a then b else a, n + 1)
    else free[n := [a] + free[n]]
  }

  // ---- The invariant ----

  // Listed blocks are aligned, and lie above the null address' own top-level block.
  ghost predicate Placed(m: nat, free: FreeLists)
    requires |free| > 0
  {
    forall i, a :: 0 <= i < |free| && a in free[i] ==> Aligned(m, i, a) && a >= BlockSize(m, |free| - 1)
  }

  // No listed block lies inside another one.
  ghost predicate Disjoint(m: nat, free: FreeLists) {
    forall i, j, a {:trigger a in free[i], BlockOf(m, j, a)} ::
      0 <= i < j < |free| && a in free[i] ==> BlockOf(m, j, a) !in free[j]
  }

  // No two buddies are both listed below the top level.
  ghost predicate Canonical(m: nat, free: FreeLists) {
    forall i, a {:trigger a in free[i], Buddy(m, i, a)} ::
      0 <= i < |free| - 1 && a in free[i] ==> Buddy(m, i, a) !in free[i]
  }

  ghost predicate Valid(m: nat, free: FreeLists) {
    && |free| > 0
    && (forall i :: 0 <= i < |free| ==> Distinct(free[i]))
    && Placed(m, free)
    && Disjoint(m, free)
    && Canonical(m, free)
  }

  // Byte x belongs to a listed block.
  ghost predicate Covered(m: nat, free: FreeLists, x: nat) {
    exists i :: 0 <= i < |free| && BlockOf(m, i, x) in free[i]
  }

  // The level-n block at a overlaps no listed block.
  ghost predicate Clear(m: nat, free: FreeLists, a: nat, n: nat)
    requires n < |free|
  {
    && (forall j :: n <= j < |free| ==> BlockOf(m, j, a) !in free[j])
    && (forall i, c :: 0 <= i < n && c in free[i] ==> BlockOf(m, n, c) != a)
  }

  // The level-n block at a may be given back.
  ghost predicate Givable(m: nat, free: FreeLists, a: nat, n: nat)
    requires n < |free|
  {
    Aligned(m, n, a) && Clear(m, free, a, n) && a >= BlockSize(m, |free| - 1)
  }

  // ---- Blocks and buddies ----

  lemma OwnBlock(m: nat, n: nat, a: nat)
    requires Aligned(m, n, a)
    ensures BlockOf(m, n, a) == a
  {
    FloorAligned(n + m, a);
  }

  // Bitwise exclusive-or.
  function Xor(a: nat, b: nat): (r: nat) {
    if a == 0 && b == 0 then 0 else 2 * Xor(a / 2, b / 2) + (a + b) % 2
  }

  lemma {:induction false} XorZero(a: nat)
    ensures Xor(a, 0) == a
  {
    if a > 0 {
      XorZero(a / 2);
    }
  }

  lemma XorDouble(a: nat, s: nat)
    requires s > 0
    ensures Xor(a, 2 * s) == 2 * Xor(a / 2, s) + a % 2
  {
    assert 2 * s / 2 == s && (a + 2 * s) % 2 == a % 2;
  }

  lemma {:induction false} ToggleIsXor(k: nat, a: nat)
    ensures Toggle(k, a) == Xor(a, Pow2(k))
  {
    if k == 0 {
      XorZero(a / 2);
    } else {
      ToggleIsXor(k - 1, a / 2);
      XorDouble(a, Pow2(k - 1));
    }
  }

  // The two halves of the h-th block of twice the size are each other's.
  lemma {:induction false} ToggleHalves(k: nat, h: nat)
    ensures Toggle(k, h * Pow2(k + 1)) == h * Pow2(k + 1) + Pow2(k)
    ensures Toggle(k, h * Pow2(k + 1) + Pow2(k)) == h * Pow2(k + 1)
  {
    TwiceTimes(h, Pow2(k));
    if k > 0 {
      ToggleHalves(k - 1, h);
      ToggleEven(k, h * Pow2(k), Pow2(k - 1));
    }
  }

  // On an even number a higher bit is toggled in the half.
  lemma ToggleEven(k: nat, x: nat, s: nat)
    requires k > 0
    ensures Toggle(k, 2 * x) == 2 * Toggle(k - 1, x)
    ensures Toggle(k, 2 * x + 2 * s) == 2 * Toggle(k - 1, x + s)
  {
    assert (2 * x) / 2 == x && (2 * x) % 2 == 0;
    assert (2 * x + 2 * s) / 2 == x + s && (2 * x + 2 * s) % 2 == 0;
  }

  lemma TwiceTimes(h: nat, s: nat)
    ensures h * (2 * s) == 2 * (h * s)
  {
  }

  // The buddy's address is the block's own with one bit toggled.
  lemma BuddyIsXor(m: nat, n: nat, a: nat)
    ensures Buddy(m, n, a) == Xor(a, BlockSize(m, n))
  {
    ToggleIsXor(n + m, a);
  }

  lemma BuddyOfHalves(m: nat, n: nat, p: nat)
    requires Aligned(m, n + 1, p)
    ensures Buddy(m, n, p) == p + BlockSize(m, n) && Buddy(m, n, p + BlockSize(m, n)) == p
  {
    var h := p / BlockSize(m, n + 1);
    assert p == h * BlockSize(m, n + 1);
    ToggleHalves(n + m, h);
  }

  lemma BuddyPair(m: nat, n: nat, a: nat)
    requires Aligned(m, n, a)
    ensures var b := Buddy(m, n, a);
            && Aligned(m, n, b) && b != a && Buddy(m, n, b) == a
            && BlockOf(m, n + 1, a) == BlockOf(m, n + 1, b) == (if b < a then b else a)
    ensures BlockOf(m, n + 1, a) == a <==> Buddy(m, n, a) == a + BlockSize(m, n)
  {
    var p := BlockOf(m, n + 1, a);
    FloorStep(n + m, a);
    FloorAligned(n + m, a);
    BuddyOfHalves(m, n, p);
    Halves(n + m, p);
  }

  // The bytes of the parent block are those of its two halves.
  lemma ParentHolds(m: nat, n: nat, a: nat, x: nat)
    requires Aligned(m, n, a)
    ensures BlockOf(m, n + 1, x) == BlockOf(m, n + 1, a)
       <==> (BlockOf(m, n, x) == a || BlockOf(m, n, x) == Buddy(m, n, a))
  {
    BuddyPair(m, n, a);
    FloorStep(n + m, x);
    FloorStep(n + m, a);
    FloorAligned(n + m, a);
  }

  // ---- Giving a block back ----

  lemma {:induction false} WithoutSpec(s: seq<nat>, a: nat)
    requires Distinct(s)
    ensures Distinct(Without(s, a))
    ensures forall x :: x in Without(s, a) <==> x in s && x != a
  {
    if s != [] {
      var t := s[1..];
      assert Distinct(t) by {
        assert forall p :: 0 <= p < |t| ==> t[p] == s[p + 1];
      }
      assert s[0] !in t;
      assert forall x :: x in s <==> x == s[0] || x in t;
      WithoutSpec(t, a);
      if s[0] != a {
        var r := Without(t, a);
        assert forall x :: x in [s[0]] + r <==> x == s[0] || x in r;
      }
    }
  }

  // Dropping a listed block keeps every other promise.
  lemma ValidShrinks(m: nat, free: FreeLists, n: nat, s: seq<nat>)
    requires Valid(m, free) && n < |free|
    requires Distinct(s) && forall x :: x in s ==> x in free[n]
    ensures Valid(m, free[n := s])
  {
    var f := free[n := s];
    assert forall i, x :: 0 <= i < |f| && x in f[i] ==> x in free[i];
  }

  // One merging step: the block taken off and the one given become their parent block.
  lemma MergeStep(m: nat, free: FreeLists, a: nat, n: nat)
    requires Valid(m, free) && n < |free| - 1
    requires Aligned(m, n, a) && Clear(m, free, a, n) && a >= BlockSize(m, |free| - 1)
    requires Buddy(m, n, a) in free[n]
    ensures var b := Buddy(m, n, a);
            var f := free[n := Without(free[n], b)];
            var c := if b < a then b else a;
            && Valid(m, f) && Aligned(m, n + 1, c) && Clear(m, f, c, n + 1) && c >= BlockSize(m, |f| - 1)
            && c == BlockOf(m, n + 1, a)
  {
    var b := Buddy(m, n, a);
    var f := free[n := Without(free[n], b)];
    BuddyPair(m, n, a);
    var c := BlockOf(m, n + 1, a);
    WithoutSpec(free[n], b);
    ValidShrinks(m, free, n, Without(free[n], b));
    forall j | n + 1 <= j < |f|
      ensures BlockOf(m, j, c) !in f[j]
    {
      FloorNests(n + 1 + m, j + m, a);
      assert BlockOf(m, j, a) !in free[j];
    }
    forall i, e | 0 <= i < n + 1 && e in f[i]
      ensures BlockOf(m, n + 1, e) != c
    {
      assert e in free[i];
      FloorAligned(i + m, e);
      ParentHolds(m, n, a, e);
      if i == n {
        assert BlockOf(m, n, a) == a by { FloorAligned(n + m, a); }
      } else {
        assert BlockOf(m, n, e) !in free[n];
      }
    }
  }

  lemma CoveredWithout(m: nat, free: FreeLists, n: nat, b: nat, x: nat)
    requires n < |free| && Distinct(free[n]) && b in free[n]
    ensures Covered(m, free, x) <==> Covered(m, free[n := Without(free[n], b)], x) || BlockOf(m, n, x) == b
  {
    var f := free[n := Without(free[n], b)];
    WithoutSpec(free[n], b);
    if Covered(m, free, x) {
      var i :| 0 <= i < |free| && BlockOf(m, i, x) in free[i];
      assert BlockOf(m, i, x) in f[i] || BlockOf(m, n, x) == b;
    }
    if Covered(m, f, x) {
      var i :| 0 <= i < |f| && BlockOf(m, i, x) in f[i];
      assert BlockOf(m, i, x) in free[i];
    }
  }

  lemma CoveredWith(m: nat, free: FreeLists, n: nat, a: nat, x: nat)
    requires n < |free|
    ensures Covered(m, free[n := [a] + free[n]], x) <==> Covered(m, free, x) || BlockOf(m, n, x) == a
  {
    var f := free[n := [a] + free[n]];
    if Covered(m, free, x) {
      var i :| 0 <= i < |free| && BlockOf(m, i, x) in free[i];
      assert BlockOf(m, i, x) in f[i];
    }
    if BlockOf(m, n, x) == a {
      assert f[n][0] == a;
      assert BlockOf(m, n, x) in f[n];
    }
    if Covered(m, f, x) {
      var i :| 0 <= i < |f| && BlockOf(m, i, x) in f[i];
      assert i != n || BlockOf(m, n, x) == a ==> BlockOf(m, i, x) in free[i] || BlockOf(m, n, x) == a;
    }
  }

  lemma PushValid(m: nat, free: FreeLists, a: nat, n: nat)
    requires Valid(m, free) && n < |free|
    requires Aligned(m, n, a) && Clear(m, free, a, n) && a >= BlockSize(m, |free| - 1)
    requires n < |free| - 1 ==> Buddy(m, n, a) !in free[n]
    ensures Valid(m, free[n := [a] + free[n]])
  {
    var f := free[n := [a] + free[n]];
    BuddyPair(m, n, a);
    FloorAligned(n + m, a);
    assert BlockOf(m, n, a) !in free[n];
    assert forall i, x :: 0 <= i < |f| && x in f[i] ==> x in free[i] || (i == n && x == a);
    forall i, c | 0 <= i < |f| - 1 && c in f[i]
      ensures Buddy(m, i, c) !in f[i]
    {
      BuddyPair(m, i, c);
    }
  }

  // Giving a block keeps the invariant and adds exactly the block's bytes.
  lemma {:induction false} GiveKeeps(m: nat, free: FreeLists, a: nat, n: nat)
    requires Valid(m, free) && n < |free|
    requires Aligned(m, n, a) && Clear(m, free, a, n) && a >= BlockSize(m, |free| - 1)
    ensures Valid(m, Give(m, free, a, n))
    ensures forall x :: Covered(m, Give(m, free, a, n), x) <==> Covered(m, free, x) || BlockOf(m, n, x) == a
    decreases |free| - n
  {
    var b := Buddy(m, n, a);
    if n < |free| - 1 && b in free[n] {
      var f := free[n := Without(free[n], b)];
      var c := if b < a then b else a;
      MergeStep(m, free, a, n);
      GiveKeeps(m, f, c, n + 1);
      forall x
        ensures Covered(m, Give(m, f, c, n + 1), x) <==> Covered(m, free, x) || BlockOf(m, n, x) == a
      {
        CoveredWithout(m, free, n, b, x);
        ParentHolds(m, n, a, x);
      }
    } else {
      PushValid(m, free, a, n);
      forall x
        ensures Covered(m, free[n := [a] + free[n]], x) <==> Covered(m, free, x) || BlockOf(m, n, x) == a
      {
        CoveredWith(m, free, n, a, x);
      }
    }
  }

  // ---- Taking a block ----

  // The two halves of a clear block are clear of the lists, and of each other.
  lemma HalvesAreClear(m: nat, free: FreeLists, node: nat, i: nat)
    requires Valid(m, free) && 0 < i < |free| && free[i - 1] == []
    requires Aligned(m, i, node) && Clear(m, free, node, i)
    ensures var b := Buddy(m, i - 1, node);
            && Aligned(m, i - 1, node) && Aligned(m, i - 1, b) && b == node + BlockSize(m, i - 1)
            && Buddy(m, i - 1, b) == node
            && Clear(m, free, b, i - 1) && Clear(m, free[i - 1 := [b]], node, i - 1)
  {
    var b := Buddy(m, i - 1, node);
    AlignedBelow(i - 1 + m, i + m, node);
    OwnBlock(m, i, node);
    OwnBlock(m, i - 1, node);
    BuddyPair(m, i - 1, node);
    OwnBlock(m, i - 1, b);
    forall j | i <= j < |free|
      ensures BlockOf(m, j, b) !in free[j]
    {
      FloorNests(i + m, j + m, b);
      assert BlockOf(m, j, node) !in free[j];
    }
    forall k, c | 0 <= k < i - 1 && c in free[k]
      ensures BlockOf(m, i - 1, c) != b && BlockOf(m, i - 1, c) != node
    {
      assert BlockOf(m, i, c) != node;
      ParentHolds(m, i - 1, node, c);
    }
  }

  // One splitting step: the node shrinks to its lower half, the upper half is listed.
  lemma SplitStep(m: nat, free: FreeLists, node: nat, i: nat)
    requires Valid(m, free) && 0 < i < |free| && free[i - 1] == []
    requires Aligned(m, i, node) && Clear(m, free, node, i) && node >= BlockSize(m, |free| - 1)
    ensures var f := free[i - 1 := [Buddy(m, i - 1, node)] + free[i - 1]];
            && Valid(m, f) && Aligned(m, i - 1, node) && Clear(m, f, node, i - 1)
            && Buddy(m, i - 1, node) == node + BlockSize(m, i - 1)
            && forall x :: (Covered(m, f, x) || BlockOf(m, i - 1, x) == node)
                      <==> (Covered(m, free, x) || BlockOf(m, i, x) == node)
  {
    var b := Buddy(m, i - 1, node);
    var f := free[i - 1 := [b] + free[i - 1]];
    HalvesAreClear(m, free, node, i);
    assert [b] + free[i - 1] == [b];
    PushValid(m, free, b, i - 1);
    forall x
      ensures (Covered(m, f, x) || BlockOf(m, i - 1, x) == node) <==> (Covered(m, free, x) || BlockOf(m, i, x) == node)
    {
      CoveredWith(m, free, i - 1, b, x);
      OwnBlock(m, i, node);
      ParentHolds(m, i - 1, node, x);
    }
  }

  lemma {:induction false} SplitKeeps(m: nat, free: FreeLists, node: nat, i: nat, n: nat)
    requires Valid(m, free) && n <= i < |free|
    requires forall j :: n <= j < i ==> free[j] == []
    requires Aligned(m, i, node) && Clear(m, free, node, i) && node >= BlockSize(m, |free| - 1)
    ensures var f := Split(m, free, node, i, n);
            && Valid(m, f) && Aligned(m, n, node) && Clear(m, f, node, n)
            && forall x :: (Covered(m, f, x) || BlockOf(m, n, x) == node)
                      <==> (Covered(m, free, x) || BlockOf(m, i, x) == node)
    decreases i
  {
    if i > n {
      SplitStep(m, free, node, i);
      SplitKeeps(m, free[i - 1 := [Buddy(m, i - 1, node)] + free[i - 1]], node, i - 1, n);
    }
  }

  lemma PopValid(m: nat, free: FreeLists, i: nat)
    requires Valid(m, free) && i < |free| && free[i] != []
    ensures var f := free[i := free[i][1..]];
            && Valid(m, f) && Clear(m, f, free[i][0], i)
            && Aligned(m, i, free[i][0]) && free[i][0] >= BlockSize(m, |free| - 1)
            && forall x :: Covered(m, free, x) <==> Covered(m, f, x) || BlockOf(m, i, x) == free[i][0]
  {
    var a, t := free[i][0], free[i][1..];
    var f := free[i := t];
    assert free[i] == [a] + t;
    assert a in free[i];
    assert Distinct(t) by {
      assert forall p :: 0 <= p < |t| ==> t[p] == free[i][p + 1];
    }
    assert forall x :: x in t ==> x in free[i];
    ValidShrinks(m, free, i, t);
    FloorAligned(i + m, a);
    assert f[i := [a] + f[i]] == free;
    forall x
      ensures Covered(m, free, x) <==> Covered(m, f, x) || BlockOf(m, i, x) == a
    {
      CoveredWith(m, f, i, a, x);
    }
  }

  // Taking a block keeps the invariant, removes exactly the block's bytes, all of which were free.
  lemma TakeKeeps(m: nat, free: FreeLists, n: nat)
    requires Valid(m, free) && Take(m, free, n).Some?
    ensures var (a, f) := Take(m, free, n).value;
            && n < |free| == |f|
            && Valid(m, f) && Aligned(m, n, a) && a >= BlockSize(m, |free| - 1) && Clear(m, f, a, n)
            && forall x :: Covered(m, free, x) <==> Covered(m, f, x) || BlockOf(m, n, x) == a
  {
    var i := FirstFit(free, n);
    PopValid(m, free, i);
    SplitKeeps(m, free[i := free[i][1..]], free[i][0], i, n);
  }

  // ---- Completeness and uniqueness ----

  ghost predicate WhollyFree(m: nat, free: FreeLists, a: nat, n: nat) {
    forall x :: BlockOf(m, n, x) == a ==> Covered(m, free, x)
  }

  ghost predicate WhollyTaken(m: nat, free: FreeLists, a: nat, n: nat) {
    forall x :: BlockOf(m, n, x) == a ==> !Covered(m, free, x)
  }

  lemma ClearByte(m: nat, free: FreeLists, n: nat, x: nat, i: nat)
    requires n < |free| && i < |free| && Clear(m, free, BlockOf(m, n, x), n)
    ensures BlockOf(m, i, x) !in free[i]
  {
    var c := BlockOf(m, i, x);
    if i < n {
      FloorNests(i + m, n + m, x);
      assert c in free[i] ==> BlockOf(m, n, c) != BlockOf(m, n, x);
    } else {
      FloorNests(n + m, i + m, x);
    }
  }

  // Being clear of the listed blocks is having no free byte.
  lemma ClearMeansNoByte(m: nat, free: FreeLists, a: nat, n: nat)
    requires |free| > 0 && Placed(m, free) && n < |free| && Aligned(m, n, a)
    ensures Clear(m, free, a, n) <==> WhollyTaken(m, free, a, n)
  {
    if Clear(m, free, a, n) {
      forall x | BlockOf(m, n, x) == a
        ensures !Covered(m, free, x)
      {
        forall i | 0 <= i < |free|
          ensures BlockOf(m, i, x) !in free[i]
        {
          ClearByte(m, free, n, x, i);
        }
      }
    }
    if WhollyTaken(m, free, a, n) {
      FloorAligned(n + m, a);
      assert BlockOf(m, n, a) == a;
      forall i, c | 0 <= i < n && c in free[i]
        ensures BlockOf(m, n, c) != a
      {
        FloorAligned(i + m, c);
        assert BlockOf(m, i, c) in free[i];
      }
    }
  }

  // Any aligned block of free bytes lies inside one listed block: free space is never fragmented below
  // what alignment forces.
  lemma {:induction false} FreeBlockIsListed(m: nat, free: FreeLists, a: nat, n: nat) returns (j: nat)
    requires Valid(m, free) && n < |free| && Aligned(m, n, a)
    requires WhollyFree(m, free, a, n)
    ensures n <= j < |free| && BlockOf(m, j, a) in free[j]
    decreases n
  {
    FloorAligned(n + m, a);
    if n == 0 {
      assert BlockOf(m, 0, a) == a;
      j :| 0 <= j < |free| && BlockOf(m, j, a) in free[j];
    } else {
      var k := n - 1;
      Halves(k + m, a);
      var h := a + BlockSize(m, k);
      BuddyPair(m, k, a);
      forall x | BlockOf(m, k, x) == a || BlockOf(m, k, x) == h
        ensures BlockOf(m, n, x) == a
      {
        ParentHolds(m, k, a, x);
      }
      assert !(a in free[k] && h in free[k]) && BlockOf(m, k, a) == a && BlockOf(m, k, h) == h;
      var j0 := FreeBlockIsListed(m, free, a, k);
      var j1 := FreeBlockIsListed(m, free, h, k);
      if j0 >= n {
        j := j0;
      } else if j1 >= n {
        FloorNests(n + m, j1 + m, h);
        j := j1;
      } else {
        // Both halves would be listed, and they are buddies.
        assert false;
      }
    }
  }

  lemma ListedBlockIsFree(m: nat, free: FreeLists, a: nat, j: nat, x: nat)
    requires j < |free| && a in free[j] && BlockOf(m, j, x) == a
    ensures Covered(m, free, x)
  {
  }

  // Taking fails exactly when no aligned block of that level consists of free bytes only.
  lemma TakeFailsExactly(m: nat, free: FreeLists, n: nat)
    requires Valid(m, free) && n < |free|
    ensures Take(m, free, n).None?
       <==> !exists a: nat :: Aligned(m, n, a) && WhollyFree(m, free, a, n)
  {
    if Take(m, free, n).None? {
      assert forall j :: n <= j < |free| ==> free[j] == [];
      forall a: nat | Aligned(m, n, a) && WhollyFree(m, free, a, n)
        ensures false
      {
        var j := FreeBlockIsListed(m, free, a, n);
      }
    } else {
      TakeKeeps(m, free, n);
      var a := Take(m, free, n).value.0;
      assert Aligned(m, n, a);
    }
  }

  // The free lists, as sets, are determined by the set of free bytes.
  lemma FreeBytesDetermineLists(m: nat, f: FreeLists, g: FreeLists)
    requires Valid(m, f) && Valid(m, g) && |f| == |g|
    requires forall x :: Covered(m, f, x) <==> Covered(m, g, x)
    ensures forall i, a :: 0 <= i < |f| ==> (a in f[i] <==> a in g[i])
  {
    forall i, a | 0 <= i < |f|
      ensures a in f[i] <==> a in g[i]
    {
      if a in f[i] {
        ListedInOther(m, f, g, i, a);
      }
      if a in g[i] {
        ListedInOther(m, g, f, i, a);
      }
    }
  }

  // A block listed in f lies inside a block listed in g.
  lemma ListedInside(m: nat, f: FreeLists, g: FreeLists, i: nat, a: nat) returns (j: nat)
    requires Valid(m, f) && Valid(m, g) && |f| == |g| && i < |f| && a in f[i]
    requires forall x :: Covered(m, f, x) <==> Covered(m, g, x)
    ensures i <= j < |g| && BlockOf(m, j, a) in g[j]
  {
    forall x | BlockOf(m, i, x) == a
      ensures Covered(m, g, x)
    {
      ListedBlockIsFree(m, f, a, i, x);
    }
    j := FreeBlockIsListed(m, g, a, i);
  }

  lemma ListedInOther(m: nat, f: FreeLists, g: FreeLists, i: nat, a: nat)
    requires Valid(m, f) && Valid(m, g) && |f| == |g| && i < |f| && a in f[i]
    requires forall x :: Covered(m, f, x) <==> Covered(m, g, x)
    ensures a in g[i]
  {
    assert forall k :: i < k < |f| ==> BlockOf(m, k, a) !in f[k];
    var j := ListedInside(m, f, g, i, a);
    var k := ListedInside(m, g, f, j, BlockOf(m, j, a));
    FloorNests(j + m, k + m, a);
    OwnBlock(m, i, a);
  }

  // ---- Taking and giving back ----

  lemma {:induction false} WithoutHead(s: seq<nat>, a: nat)
    ensures Without([a] + s, a) == s
  {
  }

  // Merging undoes splitting step by step, in every list's own order.
  lemma {:induction false} GiveUndoesSplit(m: nat, free: FreeLists, node: nat, i: nat, n: nat)
    requires Valid(m, free) && n <= i < |free|
    requires forall j :: n <= j < i ==> free[j] == []
    requires Aligned(m, i, node) && Clear(m, free, node, i) && node >= BlockSize(m, |free| - 1)
    ensures Give(m, Split(m, free, node, i, n), node, n) == Give(m, free, node, i)
    decreases i
  {
    if i > n {
      var b := Buddy(m, i - 1, node);
      var f := free[i - 1 := [b] + free[i - 1]];
      SplitStep(m, free, node, i);
      GiveUndoesSplit(m, f, node, i - 1, n);
      WithoutHead([], b);
      assert f[i - 1][0] == b;
      assert f[i - 1 := Without(f[i - 1], b)] == free;
    }
  }

  // A successful take followed by giving the block back restores every list exactly.
  lemma GiveUndoesTake(m: nat, free: FreeLists, n: nat)
    requires Valid(m, free) && Take(m, free, n).Some?
    ensures var (a, f) := Take(m, free, n).value;
            Give(m, f, a, n) == free
  {
    var i := FirstFit(free, n);
    var a := free[i][0];
    var f := free[i := free[i][1..]];
    PopValid(m, free, i);
    GiveUndoesSplit(m, f, a, i, n);
    assert free[i] == [a] + f[i];
    assert a in free[i];
    if i < |free| - 1 {
      assert Buddy(m, i, a) !in free[i];
    }
    assert f[i := [a] + f[i]] == free;
  }

  // ---- Addresses in the lists ----

  // A block is on one list only.
  lemma OnOneList(m: nat, free: FreeLists, i: nat, j: nat, a: nat)
    requires Valid(m, free) && i < |free| && j < |free| && i != j && a in free[i]
    ensures a !in free[j]
  {
    if a in free[j] {
      OwnBlock(m, i, a);
      OwnBlock(m, j, a);
    }
  }

  // A block clear of the listed ones is on no list.
  lemma ClearIsUnlisted(m: nat, free: FreeLists, i: nat, j: nat, a: nat)
    requires Valid(m, free) && i < |free| && j < |free| && Aligned(m, i, a) && Clear(m, free, a, i)
    ensures a !in free[j]
  {
    OwnBlock(m, i, a);
    if a in free[j] {
      OwnBlock(m, j, a);
    }
  }

  // ---- One pass of the merging loop ----

  ghost function Merged(m: nat, free: FreeLists, a: nat, n: nat): FreeLists
    requires n < |free|
  {
    free[n := Without(free[n], Buddy(m, n, a))]
  }

  lemma MergePass(m: nat, free: FreeLists, a: nat, n: nat)
    requires Valid(m, free) && n < |free| - 1 && Givable(m, free, a, n)
    ensures Buddy(m, n, a) != 0
    ensures Valid(m, Merged(m, free, a, n))
    ensures Buddy(m, n, a) !in free[n] ==> Merged(m, free, a, n) == free
    ensures var c := if Buddy(m, n, a) < a then Buddy(m, n, a) else a;
            Buddy(m, n, a) in free[n] ==>
              && Givable(m, Merged(m, free, a, n), c, n + 1)
              && Give(m, Merged(m, free, a, n), c, n + 1) == Give(m, free, a, n)
  {
    if Buddy(m, n, a) in free[n] {
      MergeStep(m, free, a, n);
    }
    BuddyStaysAbove(m, |free| - 1, n, a);
  }

  // The buddy of a block above the lowest top-level block is above it as well, hence never null.
  lemma BuddyStaysAbove(m: nat, top: nat, n: nat, a: nat)
    requires n < top && Aligned(m, n, a) && a >= BlockSize(m, top)
    ensures Buddy(m, n, a) >= BlockSize(m, top)
  {
    var t := BlockSize(m, top);
    BuddyPair(m, n, a);
    FloorNests(n + 1 + m, top + m, a);
    if Floor(top + m, a) < t {
      DivUnique(Floor(top + m, a), t, 0);
    }
  }

  lemma GiveStops(m: nat, free: FreeLists, a: nat, n: nat)
    requires Valid(m, free) && n < |free| && Givable(m, free, a, n)
    requires n < |free| - 1 ==> Buddy(m, n, a) !in free[n]
    ensures a != 0 && forall j :: 0 <= j < |free| ==> a !in free[j]
    ensures Give(m, free, a, n) == free[n := [a] + free[n]]
    ensures Valid(m, Give(m, free, a, n))
  {
    PushValid(m, free, a, n);
    forall j | 0 <= j < |free|
      ensures a !in free[j]
    {
      ClearIsUnlisted(m, free, n, j, a);
    }
  }

  // ---- One pass of the splitting loop ----

  ghost predicate EmptyBetween(free: FreeLists, n: nat, i: nat)
    requires i <= |free|
  {
    forall j :: n <= j < i ==> free[j] == []
  }

  lemma SplitPass(m: nat, free: FreeLists, node: nat, i: nat, n: nat)
    requires Valid(m, free) && n < i < |free| && EmptyBetween(free, n, i) && Givable(m, free, node, i)
    ensures var b := Buddy(m, i - 1, node);
            var f := free[i - 1 := [b] + free[i - 1]];
            && Valid(m, f) && Givable(m, f, node, i - 1)
            && b != 0 && (forall j :: 0 <= j < |free| ==> b !in free[j])
            && EmptyBetween(f, n, i - 1) && Split(m, f, node, i - 1, n) == Split(m, free, node, i, n)
  {
    var b := Buddy(m, i - 1, node);
    SplitStep(m, free, node, i);
    HalvesAreClear(m, free, node, i);
    forall j | 0 <= j < |free|
      ensures b !in free[j]
    {
      ClearIsUnlisted(m, free, i - 1, j, b);
    }
  }

  lemma PopPass(m: nat, free: FreeLists, i: nat)
    requires Valid(m, free) && i < |free| && free[i] != []
    ensures var f := free[i := free[i][1..]];
            Valid(m, f) && Givable(m, f, free[i][0], i)
  {
    PopValid(m, free, i);
  }
}
