// Whole runs of the kernel's memory: allocations and frees in any order, and insertions in any order.

module BuddyRuns {
  import opened Powers
  import opened BuddySpec

  datatype Chunk = Chunk(address: nat, size: nat)

  // The allocator together with the chunks handed out and not yet given back.
  datatype Heap = Heap(free: FreeLists, live: seq<Chunk>)

  // `Release(k)` frees the k-th live chunk with the size it was allocated with.
  datatype Operation = Allocate(size: nat) | Release(k: nat)

  function Step(m: nat, h: Heap, op: Operation): (r: Heap)
    requires |h.free| > 0 && forall c :: c in h.live ==> Bucket(m, c.size) < |h.free|
  {
    match op
    case Allocate(size) =>
      if size == 0 then h else
        (match Take(m, h.free, Bucket(m, size))
         case None => h
         case Some((a, f)) => Heap(f, h.live + [Chunk(a, size)]))
    case Release(k) =>
      if k >= |h.live| then h else
        var c := h.live[k];
        Heap(Give(m, h.free, c.address, Bucket(m, c.size)), h.live[..k] + h.live[k + 1..])
  }

  // Byte x belongs to chunk c, counted up to the rounded block size.
  predicate Holds(m: nat, c: Chunk, x: nat) {
    BlockOf(m, Bucket(m, c.size), x) == c.address
  }

  ghost predicate Owned(m: nat, h: Heap, x: nat) {
    Covered(m, h.free, x) || exists k :: 0 <= k < |h.live| && Holds(m, h.live[k], x)
  }

  ghost predicate ChunkPlaced(m: nat, free: FreeLists, c: Chunk)
    requires |free| > 0
  {
    var n := Bucket(m, c.size);
    n < |free| && Aligned(m, n, c.address) && c.address >= BlockSize(m, |free| - 1) && Clear(m, free, c.address, n)
  }

  ghost predicate Apart(m: nat, c: Chunk, d: Chunk) {
    forall x :: Holds(m, c, x) ==> !Holds(m, d, x)
  }

  ghost predicate HeapValid(m: nat, h: Heap) {
    && Valid(m, h.free)
    && (forall k :: 0 <= k < |h.live| ==> ChunkPlaced(m, h.free, h.live[k]))
    && (forall k, l :: 0 <= k < l < |h.live| ==> Apart(m, h.live[k], h.live[l]))
  }

  // A placed chunk is the interval of its rounded size, and holds no free byte.
  lemma PlacedChunk(m: nat, free: FreeLists, c: Chunk, x: nat)
    requires Valid(m, free) && ChunkPlaced(m, free, c)
    ensures Holds(m, c, x) <==> c.address <= x < c.address + BlockSize(m, Bucket(m, c.size))
    ensures Holds(m, c, x) ==> !Covered(m, free, x)
    ensures c.size <= BlockSize(m, Bucket(m, c.size))
  {
    var n := Bucket(m, c.size);
    BucketIsLeast(m, c.size, n);
    ClearMeansNoByte(m, free, c.address, n);
    if c.address <= x < c.address + BlockSize(m, n) {
      FloorUnique(n + m, c.address, x);
    }
  }

  lemma StillPlaced(m: nat, f: FreeLists, g: FreeLists, c: Chunk)
    requires Valid(m, f) && Valid(m, g) && |f| == |g| && ChunkPlaced(m, f, c)
    requires forall x :: Holds(m, c, x) && Covered(m, g, x) ==> Covered(m, f, x)
    ensures ChunkPlaced(m, g, c)
  {
    var n := Bucket(m, c.size);
    ClearMeansNoByte(m, f, c.address, n);
    ClearMeansNoByte(m, g, c.address, n);
    forall x | BlockOf(m, n, x) == c.address
      ensures !Covered(m, g, x)
    {
      assert Holds(m, c, x);
    }
  }

  lemma AllocateKeeps(m: nat, h: Heap, size: nat)
    requires HeapValid(m, h)
    ensures HeapValid(m, Step(m, h, Allocate(size)))
    ensures forall x :: Owned(m, Step(m, h, Allocate(size)), x) <==> Owned(m, h, x)
  {
    var n := Bucket(m, size);
    var g := Step(m, h, Allocate(size));
    if size > 0 && Take(m, h.free, n).Some? {
      TakeKeeps(m, h.free, n);
      var c := Chunk(Take(m, h.free, n).value.0, size);
      forall k | 0 <= k < |h.live|
        ensures ChunkPlaced(m, g.free, h.live[k]) && Apart(m, h.live[k], c)
      {
        StillPlaced(m, h.free, g.free, h.live[k]);
        forall x | Holds(m, h.live[k], x)
          ensures !Holds(m, c, x)
        {
          PlacedChunk(m, h.free, h.live[k], x);
        }
      }
      forall x
        ensures Owned(m, g, x) <==> Owned(m, h, x)
      {
        OwnedWith(m, h.live, c, x);
      }
    }
  }

  lemma OwnedWith(m: nat, live: seq<Chunk>, c: Chunk, x: nat)
    ensures (exists k :: 0 <= k < |live + [c]| && Holds(m, (live + [c])[k], x))
       <==> (exists k :: 0 <= k < |live| && Holds(m, live[k], x)) || Holds(m, c, x)
  {
    var all := live + [c];
    if exists k :: 0 <= k < |live| && Holds(m, live[k], x) {
      var k :| 0 <= k < |live| && Holds(m, live[k], x);
      assert Holds(m, all[k], x);
    }
    assert all[|live|] == c;
  }

  lemma OwnedWithout(m: nat, live: seq<Chunk>, k: nat, x: nat)
    requires k < |live|
    ensures var r := live[..k] + live[k + 1..];
            ((exists i :: 0 <= i < |live| && Holds(m, live[i], x))
            <==> (exists i :: 0 <= i < |r| && Holds(m, r[i], x)) || Holds(m, live[k], x))
  {
    var r := live[..k] + live[k + 1..];
    forall i | 0 <= i < |live| && i != k
      ensures live[i] == r[if i < k then i else i - 1]
    {
    }
    forall i | 0 <= i < |r|
      ensures r[i] == live[if i < k then i else i + 1]
    {
    }
    if i :| 0 <= i < |r| && Holds(m, r[i], x) {
      assert Holds(m, live[if i < k then i else i + 1], x);
    }
    if i :| 0 <= i < |live| && Holds(m, live[i], x) && i != k {
      assert Holds(m, r[if i < k then i else i - 1], x);
    }
  }

  lemma OthersStayPlaced(m: nat, h: Heap, k: nat, j: nat)
    requires HeapValid(m, h) && k < |h.live| && j < |h.live| && j != k
    ensures ChunkPlaced(m, Step(m, h, Release(k)).free, h.live[j])
  {
    var c, d := h.live[k], h.live[j];
    GiveKeeps(m, h.free, c.address, Bucket(m, c.size));
    assert if j < k then Apart(m, d, c) else Apart(m, c, d);
    StillPlaced(m, h.free, Step(m, h, Release(k)).free, d);
  }

  lemma ReleaseKeepsOwned(m: nat, h: Heap, k: nat, x: nat)
    requires HeapValid(m, h) && k < |h.live|
    ensures Owned(m, Step(m, h, Release(k)), x) <==> Owned(m, h, x)
  {
    var c := h.live[k];
    GiveKeeps(m, h.free, c.address, Bucket(m, c.size));
    OwnedWithout(m, h.live, k, x);
  }

  lemma ReleaseKeeps(m: nat, h: Heap, k: nat)
    requires HeapValid(m, h)
    ensures HeapValid(m, Step(m, h, Release(k)))
    ensures forall x :: Owned(m, Step(m, h, Release(k)), x) <==> Owned(m, h, x)
  {
    if k < |h.live| {
      var g := Step(m, h, Release(k));
      forall x
        ensures Owned(m, g, x) <==> Owned(m, h, x)
      {
        ReleaseKeepsOwned(m, h, k, x);
      }
      assert forall i :: 0 <= i < |g.live| ==> g.live[i] == h.live[if i < k then i else i + 1];
      forall i | 0 <= i < |g.live|
        ensures ChunkPlaced(m, g.free, g.live[i])
      {
        OthersStayPlaced(m, h, k, if i < k then i else i + 1);
      }
      GiveIsValid(m, h.free, h.live[k]);
    }
  }

  lemma GiveIsValid(m: nat, free: FreeLists, c: Chunk)
    requires Valid(m, free) && ChunkPlaced(m, free, c)
    ensures Valid(m, Give(m, free, c.address, Bucket(m, c.size)))
  {
    GiveKeeps(m, free, c.address, Bucket(m, c.size));
  }

  // ---- Runs ----

  function Run(m: nat, h: Heap, ops: seq<Operation>): (r: Heap)
    requires |h.free| > 0 && forall c :: c in h.live ==> Bucket(m, c.size) < |h.free|
    decreases |ops|
  {
    if ops == [] then h else
      StepShape(m, h, ops[0]);
      Run(m, Step(m, h, ops[0]), ops[1..])
  }

  lemma StepShape(m: nat, h: Heap, op: Operation)
    requires |h.free| > 0 && forall c :: c in h.live ==> Bucket(m, c.size) < |h.free|
    ensures var g := Step(m, h, op);
            |g.free| == |h.free| && forall c :: c in g.live ==> Bucket(m, c.size) < |g.free|
  {
  }

  // Along any run the free lists stay canonical, live chunks stay aligned, apart from each other and from
  // the free blocks, and every byte ever owned stays owned: nothing is lost and nothing is handed out twice.
  lemma {:induction false} RunConserves(m: nat, h: Heap, ops: seq<Operation>)
    requires HeapValid(m, h)
    ensures forall c :: c in h.live ==> Bucket(m, c.size) < |h.free|
    ensures HeapValid(m, Run(m, h, ops))
    ensures forall x :: Owned(m, Run(m, h, ops), x) <==> Owned(m, h, x)
    decreases |ops|
  {
    assert forall c :: c in h.live ==> exists k :: 0 <= k < |h.live| && h.live[k] == c;
    if ops != [] {
      var g := Step(m, h, ops[0]);
      match ops[0] {
        case Allocate(size) => AllocateKeeps(m, h, size);
        case Release(k) => ReleaseKeeps(m, h, k);
      }
      RunConserves(m, g, ops[1..]);
    }
  }

  // ---- Counting bytes ----

  function FreeBytes(m: nat, free: FreeLists): (t: nat)
  {
    if free == [] then 0 else
      var k := |free| - 1;
      FreeBytes(m, free[..k]) + |free[k]| * BlockSize(m, k)
  }

  function LiveBytes(m: nat, live: seq<Chunk>): (t: nat)
  {
    if live == [] then 0 else
      var k := |live| - 1;
      LiveBytes(m, live[..k]) + BlockSize(m, Bucket(m, live[k].size))
  }

  lemma {:induction false} FreeBytesUpdate(m: nat, free: FreeLists, n: nat, s: seq<nat>)
    requires n < |free|
    ensures FreeBytes(m, free[n := s]) == FreeBytes(m, free) + (|s| - |free[n]|) * BlockSize(m, n)
    decreases |free|
  {
    var k := |free| - 1;
    if n == k {
      assert free[n := s][..k] == free[..k];
      assert (|s| - |free[n]|) * BlockSize(m, n) == |s| * BlockSize(m, n) - |free[n]| * BlockSize(m, n);
    } else {
      assert free[n := s][..k] == free[..k][n := s];
      FreeBytesUpdate(m, free[..k], n, s);
    }
  }

  lemma FreeBytesOneMore(m: nat, free: FreeLists, n: nat, s: seq<nat>)
    requires n < |free| && |s| == |free[n]| + 1
    ensures FreeBytes(m, free[n := s]) == FreeBytes(m, free) + BlockSize(m, n)
  {
    FreeBytesUpdate(m, free, n, s);
    assert |s| - |free[n]| == 1;
  }

  lemma FreeBytesOneLess(m: nat, free: FreeLists, n: nat, s: seq<nat>)
    requires n < |free| && |s| == |free[n]| - 1
    ensures FreeBytes(m, free[n := s]) == FreeBytes(m, free) - BlockSize(m, n)
  {
    FreeBytesUpdate(m, free, n, s);
    assert |s| - |free[n]| == -1;
  }

  lemma {:induction false} GiveAddsBytes(m: nat, free: FreeLists, a: nat, n: nat)
    requires n < |free|
    ensures FreeBytes(m, Give(m, free, a, n)) == FreeBytes(m, free) + BlockSize(m, n)
    decreases |free| - n
  {
    var b := Buddy(m, n, a);
    if n < |free| - 1 && b in free[n] {
      FreeBytesOneLess(m, free, n, Without(free[n], b));
      GiveAddsBytes(m, free[n := Without(free[n], b)], if b < a then b else a, n + 1);
    } else {
      FreeBytesOneMore(m, free, n, [a] + free[n]);
    }
  }

  lemma {:induction false} SplitAddsBytes(m: nat, free: FreeLists, node: nat, i: nat, n: nat)
    requires n <= i <= |free|
    ensures FreeBytes(m, Split(m, free, node, i, n)) == FreeBytes(m, free) + BlockSize(m, i) - BlockSize(m, n)
    decreases i
  {
    if i > n {
      var f := free[i - 1 := [Buddy(m, i - 1, node)] + free[i - 1]];
      FreeBytesOneMore(m, free, i - 1, f[i - 1]);
      SplitAddsBytes(m, f, node, i - 1, n);
    }
  }

  lemma TakeRemovesBytes(m: nat, free: FreeLists, n: nat)
    requires Take(m, free, n).Some?
    ensures FreeBytes(m, Take(m, free, n).value.1) == FreeBytes(m, free) - BlockSize(m, n)
  {
    var i := FirstFit(free, n);
    FreeBytesOneLess(m, free, i, free[i][1..]);
    SplitAddsBytes(m, free[i := free[i][1..]], free[i][0], i, n);
  }

  lemma {:induction false} LiveBytesWithout(m: nat, live: seq<Chunk>, k: nat)
    requires k < |live|
    ensures LiveBytes(m, live[..k] + live[k + 1..])
         == LiveBytes(m, live) - BlockSize(m, Bucket(m, live[k].size))
    decreases |live|
  {
    var l := |live| - 1;
    var r := live[..k] + live[k + 1..];
    if k == l {
      assert r == live[..l];
    } else {
      assert r[..|r| - 1] == live[..l][..k] + live[..l][k + 1..];
      LiveBytesWithout(m, live[..l], k);
    }
  }

  function AllBytes(m: nat, h: Heap): nat {
    FreeBytes(m, h.free) + LiveBytes(m, h.live)
  }

  lemma AllocateCountsBytes(m: nat, h: Heap, size: nat)
    requires |h.free| > 0 && forall c :: c in h.live ==> Bucket(m, c.size) < |h.free|
    ensures AllBytes(m, Step(m, h, Allocate(size))) == AllBytes(m, h)
  {
    var g := Step(m, h, Allocate(size));
    if size > 0 && Take(m, h.free, Bucket(m, size)).Some? {
      TakeRemovesBytes(m, h.free, Bucket(m, size));
      assert g.live[..|g.live| - 1] == h.live;
    }
  }

  lemma ReleaseCountsBytes(m: nat, h: Heap, k: nat)
    requires |h.free| > 0 && forall c :: c in h.live ==> Bucket(m, c.size) < |h.free|
    ensures AllBytes(m, Step(m, h, Release(k))) == AllBytes(m, h)
  {
    if k < |h.live| {
      GiveAddsBytes(m, h.free, h.live[k].address, Bucket(m, h.live[k].size));
      LiveBytesWithout(m, h.live, k);
    }
  }

  // Free bytes plus live rounded bytes never change.
  lemma {:induction false} RunCountsBytes(m: nat, h: Heap, ops: seq<Operation>)
    requires |h.free| > 0 && forall c :: c in h.live ==> Bucket(m, c.size) < |h.free|
    ensures AllBytes(m, Run(m, h, ops)) == AllBytes(m, h)
    decreases |ops|
  {
    if ops != [] {
      StepShape(m, h, ops[0]);
      match ops[0] {
        case Allocate(size) => AllocateCountsBytes(m, h, size);
        case Release(k) => ReleaseCountsBytes(m, h, k);
      }
      RunCountsBytes(m, Step(m, h, ops[0]), ops[1..]);
    }
  }

  // ---- Order of insertion ----

  function GiveAll(m: nat, free: FreeLists, chunks: seq<Chunk>): (r: FreeLists)
    requires forall c :: c in chunks ==> Bucket(m, c.size) < |free|
    ensures |r| == |free|
    decreases |chunks|
  {
    if chunks == [] then free
    else GiveAll(m, Give(m, free, chunks[0].address, Bucket(m, chunks[0].size)), chunks[1..])
  }

  // Blocks that may be given one after the other, in whatever order.
  ghost predicate Giveable(m: nat, free: FreeLists, chunks: multiset<Chunk>)
    requires |free| > 0
  {
    && (forall c :: c in chunks ==> ChunkPlaced(m, free, c))
    && (forall c :: c in chunks ==> chunks[c] == 1)
    && (forall c, d :: c in chunks && d in chunks && c != d ==> Apart(m, c, d))
  }

  lemma GiveableRest(m: nat, free: FreeLists, c: Chunk, rest: seq<Chunk>)
    requires Valid(m, free) && Giveable(m, free, multiset([c] + rest))
    ensures Bucket(m, c.size) < |free|
    ensures var f := Give(m, free, c.address, Bucket(m, c.size));
            && Valid(m, f) && Giveable(m, f, multiset(rest))
            && forall x :: Covered(m, f, x) <==> Covered(m, free, x) || Holds(m, c, x)
  {
    var chunks := multiset([c] + rest);
    assert chunks == multiset{c} + multiset(rest);
    assert c in chunks;
    GiveKeeps(m, free, c.address, Bucket(m, c.size));
    var f := Give(m, free, c.address, Bucket(m, c.size));
    forall d | d in multiset(rest)
      ensures d in chunks && multiset(rest)[d] == 1 && ChunkPlaced(m, f, d)
    {
      assert d in chunks && chunks[d] == 1;
      assert d != c;
      assert Apart(m, d, c);
      StillPlaced(m, free, f, d);
    }
  }

  lemma {:induction false} GiveAllKeeps(m: nat, free: FreeLists, chunks: seq<Chunk>)
    requires Valid(m, free) && Giveable(m, free, multiset(chunks))
    ensures forall c :: c in chunks ==> Bucket(m, c.size) < |free|
    ensures Valid(m, GiveAll(m, free, chunks))
    ensures forall x :: Covered(m, GiveAll(m, free, chunks), x)
                   <==> Covered(m, free, x) || exists c :: c in chunks && Holds(m, c, x)
    decreases |chunks|
  {
    assert forall c :: c in chunks ==> c in multiset(chunks);
    if chunks != [] {
      var c, rest := chunks[0], chunks[1..];
      assert chunks == [c] + rest;
      GiveableRest(m, free, c, rest);
      GiveAllKeeps(m, Give(m, free, c.address, Bucket(m, c.size)), rest);
      assert forall d :: d in chunks <==> d == c || d in rest;
    }
  }

  // Inserting the same blocks in any order gives the same free sets.
  lemma InsertionOrderIsIrrelevant(m: nat, free: FreeLists, some: seq<Chunk>, other: seq<Chunk>)
    requires Valid(m, free) && Giveable(m, free, multiset(some)) && multiset(some) == multiset(other)
    ensures forall c :: c in some || c in other ==> Bucket(m, c.size) < |free|
    ensures forall i, a :: 0 <= i < |free| ==>
              (a in GiveAll(m, free, some)[i] <==> a in GiveAll(m, free, other)[i])
  {
    GiveAllKeeps(m, free, some);
    GiveAllKeeps(m, free, other);
    assert forall c :: c in some <==> c in multiset(some);
    assert forall c :: c in other <==> c in multiset(other);
    FreeBytesDetermineLists(m, GiveAll(m, free, some), GiveAll(m, free, other));
  }

  // ---- The allocator's own alignment check ----

  // The check asks for alignment to the size's power of two. That is alignment to the block handled, for every
  // address, exactly when the size is more than half of the smallest block.
  lemma AlignmentCheckSuffices(m: nat, size: nat)
    ensures (forall p: nat :: p % Pow2(Log2Ceil(size)) == 0 ==> Aligned(m, Bucket(m, size), p))
       <==> Log2Ceil(size) >= m
  {
    var l := Log2Ceil(size);
    if l < m {
      var p := Pow2(l);
      Pow2Monotone(l, m);
      DivUnique(p, p, 1);
      DivUnique(p, Pow2(m), 0);
      assert p % Pow2(l) == 0 && !Aligned(m, Bucket(m, size), p);
    }
  }

  // A 4-byte chunk in RAM that passes the check although the 8-byte block it stands for is misaligned.
  lemma AlignmentCheckMisses()
    ensures 0x8010_0004 % Pow2(Log2Ceil(4)) == 0 && !Aligned(3, Bucket(3, 4), 0x8010_0004)
  {
    assert Pow2(1) == 2 && Pow2(2) == 4 && Pow2(3) == 8;
    assert Log2CeilFrom(4, 0) == Log2CeilFrom(4, 1) == Log2CeilFrom(4, 2) == 2;
  }
}
