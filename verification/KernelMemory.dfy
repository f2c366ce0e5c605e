// The kernel's memory: boot-time filling of the allocator, and the allocation calls built on it.

module KernelMemory {
  import opened Powers
  import opened BuddySpec
  import opened BuddyRuns
  import opened BuddyAllocator

  // Whether the byte ranges of two chunks meet.
  predicate Overlaps(c: Chunk, d: Chunk) {
    c.address < d.address + d.size && d.address < c.address + c.size
  }

  predicate Available(page: Chunk, reserved: seq<Chunk>) {
    forall k :: 0 <= k < |reserved| ==> !Overlaps(page, reserved[k])
  }

  // Byte x lies in a page that starts at or after `from`, ends by `ramEnd` and meets nothing reserved.
  ghost predicate BootFree(p: nat, from: int, ramEnd: nat, reserved: seq<Chunk>, x: nat) {
    var start := Floor(p, x);
    from <= start && start + Pow2(p) <= ramEnd && Available(Chunk(start, Pow2(p)), reserved)
  }

  // The free bytes are those of the pages from `from` on.
  ghost predicate Filled(m: nat, free: FreeLists, p: nat, from: int, ramEnd: nat, reserved: seq<Chunk>) {
    forall x :: Covered(m, free, x) <==> BootFree(p, from, ramEnd, reserved, x)
  }

  // Byte x is one of the chunk's.
  predicate Holds(c: Chunk, x: nat) {
    c.address <= x < c.address + c.size
  }

  // The chunk has a byte in [start, stop), or is empty and starts inside, where the test sees it too.
  ghost predicate Meets(c: Chunk, start: nat, stop: nat) {
    (exists x: nat :: start <= x < stop && Holds(c, x)) || (c.size == 0 && start < c.address < stop)
  }

  // A whole page of memory with nothing reserved in it.
  ghost predicate FreePage(p: nat, start: nat, ramStart: nat, ramEnd: nat, reserved: seq<Chunk>) {
    && start % Pow2(p) == 0 && ramStart <= start && start + Pow2(p) <= ramEnd
    && forall k :: 0 <= k < |reserved| ==> !Meets(reserved[k], start, start + Pow2(p))
  }

  class Memory {
    const allocator: Buddy
    ghost var live: seq<Chunk>

    ghost function Abstract(): Heap
      reads this, allocator
    {
      Heap(allocator.free, live)
    }

    ghost predicate Valid()
      reads this, allocator, allocator.memory, allocator.lists
    {
      allocator.Valid() && HeapValid(allocator.minimum, Abstract())
    }

    // One pass of the boot loop: the page at c, unless it meets a reserved chunk.
    static method InsertPage(allocator: Buddy, p: nat, c: nat, ramEnd: nat, reserved: seq<Chunk>)
      requires allocator.Valid() && allocator.minimum <= p <= allocator.minimum + allocator.maximum
      requires (c + Pow2(p)) % Pow2(p) == 0 && c + Pow2(p) <= ramEnd
      requires c >= BlockSize(allocator.minimum, allocator.maximum)
      requires Filled(allocator.minimum, allocator.free, p, c + Pow2(p), ramEnd, reserved)
      modifies allocator, allocator.memory, allocator.lists
      ensures allocator.Valid()
      ensures Filled(allocator.minimum, allocator.free, p, c, ramEnd, reserved)
    {
      var page := Chunk(c, Pow2(p));
      PreviousPage(p, c);
      PageAdds(allocator.minimum, allocator.free, p, c, ramEnd, reserved);
      if Available(page, reserved) {
        BucketOfPower(allocator.minimum, p);
        allocator.Insert(c, Pow2(p));
      }
    }

    // The boot loop: every page of 2^p bytes in [ramStart, ramEnd) that meets no reserved chunk, last page first.
    static method Fill(allocator: Buddy, p: nat, ramStart: nat, ramEnd: nat, reserved: seq<Chunk>)
      requires allocator.Valid() && allocator.minimum <= p <= allocator.minimum + allocator.maximum
      requires forall i :: 0 <= i < |allocator.free| ==> allocator.free[i] == []
      requires BlockSize(allocator.minimum, allocator.maximum) <= ramStart <= ramEnd && ramEnd % Pow2(p) == 0
      modifies allocator, allocator.memory, allocator.lists
      ensures allocator.Valid()
      ensures Filled(allocator.minimum, allocator.free, p, ramStart, ramEnd, reserved)
    {
      var pageSize := Pow2(p);
      Pow2Monotone(p, allocator.maximum + allocator.minimum);
      var c: int := ramEnd - pageSize;
      EmptyIsFilled(allocator.minimum, allocator.free, p, ramEnd, reserved);
      while c >= ramStart
        invariant ramStart - pageSize <= c <= ramEnd - pageSize && (c + pageSize) % pageSize == 0
        invariant allocator.Valid()
        invariant Filled(allocator.minimum, allocator.free, p, c + pageSize, ramEnd, reserved)
      {
        InsertPage(allocator, p, c, ramEnd, reserved);
        PreviousPage(p, c);
        c := c - pageSize;
      }
      FilledFromStart(allocator.minimum, allocator.free, p, c, ramStart, ramEnd, reserved);
    }

    constructor Init(minimum: nat, maximum: nat, p: nat, ramStart: nat, ramEnd: nat, reserved: seq<Chunk>)
      requires minimum <= p <= minimum + maximum
      requires BlockSize(minimum, maximum) <= ramStart <= ramEnd && ramEnd % Pow2(p) == 0
      ensures Valid() && live == [] && allocator.minimum == minimum && allocator.maximum == maximum
      ensures fresh(allocator) && fresh(allocator.memory) && fresh(allocator.lists)
      ensures forall x: nat :: Owned(minimum, Abstract(), x) <==>
                exists start: nat :: FreePage(p, start, ramStart, ramEnd, reserved) && start <= x < start + Pow2(p)
      ensures forall x: nat, k :: 0 <= k < |reserved| && reserved[k].address <= x < reserved[k].address + reserved[k].size ==>
                !Owned(minimum, Abstract(), x)
    {
      allocator := new Buddy(minimum, maximum);
      live := [];
      new;
      Fill(allocator, p, ramStart, ramEnd, reserved);
      NothingLive(minimum, allocator.free);
      assert Abstract() == Heap(allocator.free, []);
      BootBytes(p, ramStart, ramEnd, reserved);
      assert forall x :: Owned(minimum, Abstract(), x) <==> BootFree(p, ramStart, ramEnd, reserved, x);
    }

    // 0 stands for the null pointer. The source stops the system when no block is left.
    method Alloc(size: nat) returns (chunk: nat)
      requires Valid()
      modifies this, allocator, allocator.memory, allocator.lists
      ensures Valid()
      ensures Abstract() == Step(allocator.minimum, old(Abstract()), Allocate(size))
      ensures chunk == 0 <==> size == 0 || Take(allocator.minimum, old(allocator.free), Bucket(allocator.minimum, size)).None?
      ensures chunk != 0 ==> live == old(live) + [Chunk(chunk, size)]
    {
      AllocateKeeps(allocator.minimum, Abstract(), size);
      if size == 0 {
        return 0;
      }
      chunk := allocator.Remove(size);
      live := if chunk == 0 then live else live + [Chunk(chunk, size)];
    }

    // k tells which live chunk is given back.
    method Free(chunk: nat, size: nat, ghost k: nat)
      requires Valid() && k < |live| && live[k] == Chunk(chunk, size) && size > 0
      modifies this, allocator, allocator.memory, allocator.lists
      ensures Valid()
      ensures Abstract() == Step(allocator.minimum, old(Abstract()), Release(k))
    {
      ReleaseKeeps(allocator.minimum, Abstract(), k);
      allocator.Insert(chunk, size);
      live := live[..k] + live[k + 1..];
    }
  }

  // The overlap test is about bytes.
  lemma OverlapIsMeeting(page: Chunk, c: Chunk)
    requires page.size > 0
    ensures Overlaps(page, c) <==> Meets(c, page.address, page.address + page.size)
  {
    if Overlaps(page, c) && c.size > 0 {
      assert Holds(c, if page.address < c.address then c.address else page.address);
    }
  }

  lemma BootByte(p: nat, ramStart: nat, ramEnd: nat, reserved: seq<Chunk>, x: nat)
    ensures BootFree(p, ramStart, ramEnd, reserved, x) <==> FreePage(p, Floor(p, x), ramStart, ramEnd, reserved)
  {
    forall k | 0 <= k < |reserved|
      ensures Overlaps(Chunk(Floor(p, x), Pow2(p)), reserved[k])
              <==> Meets(reserved[k], Floor(p, x), Floor(p, x) + Pow2(p))
    {
      OverlapIsMeeting(Chunk(Floor(p, x), Pow2(p)), reserved[k]);
    }
  }

  // The bytes of the pages filled at boot: a reserved byte is in none of them.
  lemma BootBytes(p: nat, ramStart: nat, ramEnd: nat, reserved: seq<Chunk>)
    ensures forall x: nat :: BootFree(p, ramStart, ramEnd, reserved, x) <==>
              exists start: nat :: FreePage(p, start, ramStart, ramEnd, reserved) && start <= x < start + Pow2(p)
    ensures forall x: nat, k :: 0 <= k < |reserved| && reserved[k].address <= x < reserved[k].address + reserved[k].size ==>
              !BootFree(p, ramStart, ramEnd, reserved, x)
  {
    forall x: nat
      ensures BootFree(p, ramStart, ramEnd, reserved, x) <==>
              exists start: nat :: FreePage(p, start, ramStart, ramEnd, reserved) && start <= x < start + Pow2(p)
      ensures forall k :: 0 <= k < |reserved| && Holds(reserved[k], x) ==> !BootFree(p, ramStart, ramEnd, reserved, x)
    {
      BootByte(p, ramStart, ramEnd, reserved, x);
      forall start: nat | FreePage(p, start, ramStart, ramEnd, reserved) && start <= x < start + Pow2(p)
        ensures start == Floor(p, x)
      {
        FloorUnique(p, start, x);
      }
    }
  }

  lemma NothingLive(m: nat, free: FreeLists)
    requires BuddySpec.Valid(m, free)
    ensures HeapValid(m, Heap(free, []))
    ensures forall x :: Owned(m, Heap(free, []), x) <==> Covered(m, free, x)
  {
  }

  lemma EmptyIsFilled(m: nat, free: FreeLists, p: nat, ramEnd: nat, reserved: seq<Chunk>)
    requires forall i :: 0 <= i < |free| ==> free[i] == []
    ensures Filled(m, free, p, ramEnd, ramEnd, reserved)
  {
  }

  // The page at c is givable, and giving it when it is available extends the filled range down to c.
  lemma PageAdds(m: nat, free: FreeLists, p: nat, c: nat, ramEnd: nat, reserved: seq<Chunk>)
    requires m <= p && p - m < |free| && BuddySpec.Valid(m, free)
    requires c % Pow2(p) == 0 && c >= BlockSize(m, |free| - 1) && c + Pow2(p) <= ramEnd
    requires Filled(m, free, p, c + Pow2(p), ramEnd, reserved)
    ensures Givable(m, free, c, p - m)
    ensures var f := if Available(Chunk(c, Pow2(p)), reserved) then Give(m, free, c, p - m) else free;
            Filled(m, f, p, c, ramEnd, reserved)
  {
    PageIsGivable(m, free, p, c, ramEnd, reserved);
    GiveKeeps(m, free, c, p - m);
    var f := if Available(Chunk(c, Pow2(p)), reserved) then Give(m, free, c, p - m) else free;
    forall x: nat
      ensures Covered(m, f, x) <==> BootFree(p, c, ramEnd, reserved, x)
    {
      PageGap(p, c, x);
    }
  }

  lemma FilledFromStart(m: nat, free: FreeLists, p: nat, c: nat, ramStart: nat, ramEnd: nat, reserved: seq<Chunk>)
    requires Filled(m, free, p, c + Pow2(p), ramEnd, reserved)
    requires (c + Pow2(p)) % Pow2(p) == 0 && c < ramStart <= c + Pow2(p)
    ensures Filled(m, free, p, ramStart, ramEnd, reserved)
  {
    PreviousPage(p, c);
    forall x: nat
      ensures BootFree(p, c + Pow2(p), ramEnd, reserved, x) <==> BootFree(p, ramStart, ramEnd, reserved, x)
    {
      PageGap(p, c, x);
    }
  }

  lemma BucketOfPower(m: nat, p: nat)
    requires m <= p
    ensures Bucket(m, Pow2(p)) == p - m
  {
    if p > m {
      Pow2Monotone(p - 1, p);
    }
    BucketIsExactly(m, Pow2(p), p - m);
  }

  lemma BucketIsExactly(m: nat, size: nat, n: nat)
    requires size <= BlockSize(m, n) && (n > 0 ==> BlockSize(m, n - 1) < size)
    ensures Bucket(m, size) == n
  {
    BucketIsLeast(m, size, n);
    if n > 0 {
      BucketIsLeast(m, size, n - 1);
    }
  }

  lemma PreviousPage(p: nat, c: nat)
    requires (c + Pow2(p)) % Pow2(p) == 0
    ensures c % Pow2(p) == 0
  {
    var s := Pow2(p);
    var q := (c + s) / s;
    assert c + s == q * s;
    assert c == (q - 1) * s;
    if q == 0 {
      assert false;
    }
    MultipleMod(q - 1, s);
  }

  // Page starts are page-size apart.
  lemma PageGap(p: nat, c: nat, x: nat)
    requires c % Pow2(p) == 0
    ensures Floor(p, x) >= c <==> Floor(p, x) == c || Floor(p, x) >= c + Pow2(p)
  {
    var s := Pow2(p);
    var f := Floor(p, x);
    if c <= f < c + s {
      FloorUnique(p, c, f);
      FloorAligned(p, f);
    }
  }

  lemma PageIsGivable(m: nat, free: FreeLists, p: nat, c: nat, ramEnd: nat, reserved: seq<Chunk>)
    requires m <= p && p - m < |free| && BuddySpec.Valid(m, free)
    requires c % Pow2(p) == 0 && c >= BlockSize(m, |free| - 1)
    requires forall x :: Covered(m, free, x) <==> BootFree(p, c + Pow2(p), ramEnd, reserved, x)
    ensures Givable(m, free, c, p - m)
  {
    assert WhollyTaken(m, free, c, p - m);
    ClearMeansNoByte(m, free, c, p - m);
  }
}
