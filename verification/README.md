# Verification model of the QUARK kernel

A Dafny model of the five algorithmic cores of QUARK, and proofs of what they are for.

- **Memory.** The buddy allocator (`BuddySpec.dfy`, `BuddyRuns.dfy`) as functions on its free lists, with its
  completeness, canonical form and conservation over whole runs; the heap code that computes these functions
  (`UnorderedList.dfy`, `BuddyAllocator.dfy`), and the kernel memory on top of it (`KernelMemory.dfy`).
- **Numbers.** Multi-digit arithmetic in base 2^32 on arrays (`Digits.dfy`, `BarrettMath.dfy`, `Bignum.dfy`), prime-field
  elements with the binary inverse (`NumberTheory.dfy`, `FieldElements.dfy`, `FieldConstants.dfy`), the Poly1305
  authenticator with its published test vector (`Poly1305.dfy`, `Poly1305Vector.dfy`), the double-and-add scan of an elliptic-curve scalar (`ScalarScan.dfy`), its closing
  conversion to affine coordinates (`CurvePoints.dfy`) and the integer square root (`SquareRoot.dfy`).
- **Threads.** Dispatch, semaphores and the scheduler as a transition system over any number of cores, threads and
  semaphores (`Dispatch.dfy`), its global invariant (`DispatchInvariant.dfy`, `DispatchSteps.dfy`) and the theorems about
  every reachable state and every run (`DispatchTheorems.dfy`, `DispatchExits.dfy`); the linked ready queues and heads (`ReadyQueues.dfy`), and how they and
  the wait lists follow the transition system step by step (`KernelQueues.dfy`).
- **Device tree.** The flattened format with a reader (`FlatTree.dfy`) and the builder with its in-place finishing pass
  (`FdtBuilder.dfy`), and one file byte by byte (`FdtExample.dfy`).
- **Page tables and barrier.** Sv39 mapping and translation over a tree of tables (`Sv39.dfy`); the sense-reversing
  barrier for any number of cores and rounds (`Barrier.dfy`).

`Powers.dfy`, `Counting.dfy` and `Options.dfy` are shared helpers. `dafny verify dfyconfig.toml` checks the whole project.

## How the model reads the code

- Code that changes memory is a class with methods, proved against functions of the old state; shared-memory protocols
  are transition systems whose steps are the code's atomic actions.
- Addresses, sizes and counters are unbounded integers, except digits (32 bits), bytes and the words of the device tree,
  whose width matters and is modelled. The square root's values are proved to stay inside the word.
- An assertion of the code that the caller must meet is a precondition; an assertion that the code itself must meet is
  proved. Out of memory is a null result where the code asserts.
- The allocator's blocks lie at or above 2^MAXIMUM, because address zero ends the linked lists; every memory map of the
  repository meets this.
- In the thread model the first thread of a core keeps the status READY, because `Thread::run` does not set it
  (src/Thread.cpp:126-129); the invariant therefore speaks of places, not of the status. The caller's status is stored
  together with the removal of the next thread, and a context switch is one step. The fields `owner`, `queued`, `taken`,
  `enlisted`, `woken`, `ps` and `vs` only record what happened and no step depends on them. Idle
  threads neither sleep nor exit.
- The device tree builder's names are byte strings without zero bytes, and its buffer is shorter than 2^32, the size its
  own header can express. The code's last header field adds the size of the reserved entry where the layout of the file
  subtracts it (include/hypervisor/dtb/FDT_Builder.hpp:98); the model writes what the code
  writes and proves how far off it is, and the reader does not use that field.
- Page addresses are multiples of 4096, so that combining an address with flag bits is addition. The pages a table takes
  come from an unlimited supply of different addresses: the machine stops when memory runs out.

## Model

| member | source | states |
|---|---|---|
| `BuddySpec.TakeFailsExactly` | include/memory/allocators/Buddy.hpp:21-40 | Allocation fails if and only if no naturally aligned block of the rounded size consists wholly of free bytes. |
| `BuddySpec.FreeBlockIsListed` | include/memory/allocators/Buddy.hpp:42-60 | An aligned block whose bytes are all free lies inside one single listed block. |
| `BuddySpec.FreeBytesDetermineLists` | include/memory/allocators/Buddy.hpp:42-60 | Canonical form: two allocators with the same free bytes list the same blocks at every level. |
| `BuddySpec.TakeKeeps` | include/memory/allocators/Buddy.hpp:21-40 | Taking yields an aligned block of the requested level; the free bytes lose exactly that block; lists stay aligned, disjoint and without buddy pairs. |
| `BuddySpec.GiveKeeps` | include/memory/allocators/Buddy.hpp:42-60 | Giving an aligned block that overlaps nothing free adds exactly its bytes and keeps the canonical form. |
| `BuddySpec.GiveUndoesTake` | include/memory/allocators/Buddy.hpp:21-60 | Giving back what was just taken restores every free list, as a sequence. |
| `BuddySpec.BuddyIsXor` | include/memory/allocators/Buddy.hpp:76-79 | The buddy, computed by changing one bit, is the address exclusive-or the block size. |
| `BuddySpec.BuddyPair` | include/memory/allocators/Buddy.hpp:76-79 | Buddies are aligned, each other's buddy, and the lower one is the start of their parent block. |
| `BuddySpec.BucketIsLeast` | include/memory/allocators/Buddy.hpp:63-74 | The level of a request is the least one whose blocks hold the size. |
| `BuddySpec.ClearMeansNoByte` | include/memory/allocators/Buddy.hpp:49-54 | The overlap test on listed blocks is the same as no byte of the block being free. |
| `BuddySpec.SplitKeeps` | include/memory/allocators/Buddy.hpp:33-37 | Splitting downward returns the upper halves and leaves the lowest block; bytes are conserved. |
| `BuddyRuns.RunConserves` | src/memory/Memory.cpp:47-73 | Along any run of allocations and frees live chunks stay aligned, apart from each other and from free blocks, and every byte owned at the start is owned at the end, and no other. |
| `BuddyRuns.RunCountsBytes` | src/memory/Memory.cpp:47-73 | Free bytes plus live rounded bytes are constant over any run. |
| `BuddyRuns.PlacedChunk` | src/memory/Memory.cpp:47-61 | A live chunk is the interval of its rounded size, at least as large as requested, and holds no free byte. |
| `BuddyRuns.InsertionOrderIsIrrelevant` | include/memory/allocators/Buddy.hpp:42-60 | Inserting the same disjoint blocks in any order gives the same free sets. |
| `BuddyRuns.GiveAllKeeps` | include/memory/allocators/Buddy.hpp:42-60 | Inserting any list of disjoint blocks adds exactly their bytes. |
| `BuddyRuns.AlignmentCheckSuffices` | include/memory/allocators/Buddy.hpp:46-47 | The alignment assertion implies alignment to the block handled, for every address, if and only if the rounded size is at least the smallest block. |
| `BuddyRuns.AlignmentCheckMisses` | include/memory/allocators/Buddy.hpp:46-47 | An address and size that pass the assertion although the block is misaligned. |
| `UnorderedLists.UnorderedList.Insert` | include/utility/collections/UnorderedList.hpp:16-25 | The linked list gets the node in front; one link is written. |
| `UnorderedLists.UnorderedList.Remove` | include/utility/collections/UnorderedList.hpp:27-42 | Removes and returns the head; the empty list gives null. |
| `UnorderedLists.UnorderedList.RemoveNode` | include/utility/collections/UnorderedList.hpp:44-73 | Unlinks the target if it is there, says whether it was, keeps the order of the others and every foreign link. |
| `BuddyAllocator.Buddy.Remove` | include/memory/allocators/Buddy.hpp:21-40 | The heap code computes exactly the specified taking: same address, same lists; null and no change on failure. |
| `BuddyAllocator.Buddy.Insert` | include/memory/allocators/Buddy.hpp:42-60 | The heap code computes exactly the specified giving. |
| `BuddyAllocator.Buddy.RemoveFirst` | include/memory/allocators/Buddy.hpp:22-31 | The search takes the head of the least non-empty level at or above the request. |
| `BuddyAllocator.Buddy.SplitDown` | include/memory/allocators/Buddy.hpp:33-37 | The splitting loop returns the upper halves level by level. |
| `BuddyAllocator.Buddy.MergeOnce` | include/memory/allocators/Buddy.hpp:49-57 | One pass of the merging loop removes the buddy, if it is free, and goes on with the parent. |
| `BuddyAllocator.Buddy.CeilingOfLog2` | include/memory/allocators/Buddy.hpp:63-68 | The loop computes the least exponent whose power is at least the size. |
| `KernelMemory.Memory.Init` | src/memory/Memory.cpp:9-40 | After boot a byte is free if and only if it lies in a whole aligned page of RAM in which no reserved area has a byte (nor an empty one starts); no reserved byte is free. |
| `KernelMemory.OverlapIsMeeting` | include/memory/Chunk.hpp:58-60 | The overlap test of two chunks holds exactly when they share a byte, or the second is empty and starts inside the first. |
| `KernelMemory.BootBytes` | src/memory/Memory.cpp:19-29 | The bytes of the available pages, told by the bytes of the reserved areas alone; a reserved byte is never among them. |
| `KernelMemory.Memory.Fill` | src/memory/Memory.cpp:19-29 | The downward loop over pages inserts every page that meets no reserved area and no other. |
| `KernelMemory.Memory.Alloc` | src/memory/Memory.cpp:47-61 | One step of the run model; null exactly for size zero or when nothing fits. |
| `KernelMemory.Memory.Free` | src/memory/Memory.cpp:63-73 | One step of the run model for a live chunk freed with its own size. |
| `Bignums.SimpleAdd` | payload/RTCSA2026/smartdata/include/utility/bignum.h:290-298 | Exact sum of two digit arrays with its carry, also when result and operands are the same array. |
| `Bignums.SimpleSub` | payload/RTCSA2026/smartdata/include/utility/bignum.h:273-283 | Exact difference with its borrow, also in place. |
| `Bignums.Compare` | payload/RTCSA2026/smartdata/include/utility/bignum.h:260-266 | The sign of the difference of the values. |
| `Bignums.AccumulateColumn` | payload/RTCSA2026/smartdata/include/utility/bignum.h:308-320 | The three-word accumulator holds the exact column sum: no carry is lost. |
| `Bignums.SimpleMult` | payload/RTCSA2026/smartdata/include/utility/bignum.h:304-327 | The double-length result is the exact product. |
| `Digits.ColumnsAreProduct` | payload/RTCSA2026/smartdata/include/utility/bignum.h:307-325 | The sum of all weighted columns is the product of the values. |
| `Bignums.BarrettQuotient` | payload/RTCSA2026/smartdata/include/utility/bignum.h:336-362 | The estimated quotient is the floor of the shifted product with the reciprocal. |
| `Bignums.LowProduct` | payload/RTCSA2026/smartdata/include/utility/bignum.h:364-383 | The truncated product is the product modulo the power of the base. |
| `BarrettMath.EstimateIsClose` | payload/RTCSA2026/smartdata/include/utility/bignum.h:336-362 | The estimated quotient is never too large and at most two too small. |
| `Bignums.SubtractWhileLarge` | payload/RTCSA2026/smartdata/include/utility/bignum.h:389-392 | The final loop subtracts the modulus a whole number of times and ends below it. |
| `Bignums.BarrettReduction` | payload/RTCSA2026/smartdata/include/utility/bignum.h:333-396 | The result is the exact remainder, and the final loop subtracts at most twice. |
| `FieldConstants.Reciprocal16` | payload/RTCSA2026/smartdata/src/utility/bignum.cc:7-18 | The 16-byte constants are 2^128 - 2^97 - 1 and its reciprocal floor(B^8 / m). |
| `FieldConstants.Reciprocal17` | payload/RTCSA2026/smartdata/src/utility/bignum.cc:21-36 | The 17-byte constants are 2^130 - 5 and its reciprocal floor(B^10 / m). |
| `FieldElements.Bignum.Multiply` | payload/RTCSA2026/smartdata/include/utility/bignum.h:88-104 | Exact modular product; multiplying by one returns early, so the result is reduced if and only if the other factor is not one or the operand already is. |
| `FieldElements.Bignum.Add` | payload/RTCSA2026/smartdata/include/utility/bignum.h:106-121 | Exact modular sum for operands whose sum is below twice the modulus. |
| `FieldElements.Bignum.Subtract` | payload/RTCSA2026/smartdata/include/utility/bignum.h:123-136 | Exact difference, plus the modulus when negative. |
| `FieldElements.Bignum.DivideByTwo` | payload/RTCSA2026/smartdata/include/utility/bignum.h:167-188 | Shift through all digits with carry in and carry out. |
| `FieldElements.Bignum.HalveModulo` | payload/RTCSA2026/smartdata/include/utility/bignum.h:209-214 | Halving modulo an odd modulus, through the carry of the addition. |
| `FieldElements.Bignum.HalveWhileEven` | payload/RTCSA2026/smartdata/include/utility/bignum.h:207-215 | The halving loops keep the congruences and the common divisors. |
| `FieldElements.Bignum.InvertPass` | payload/RTCSA2026/smartdata/include/utility/bignum.h:206-232 | One pass keeps A*x = u and this*x = v modulo m and gcd(u,v) = gcd(x,m), and decreases u + v. |
| `FieldElements.Bignum.Invert` | payload/RTCSA2026/smartdata/include/utility/bignum.h:199-233 | Terminates with this*x = gcd(x,m) modulo m: an inverse if and only if x and m are coprime, so always for a prime m and 0 < x < m. |
| `NumberTheory.HalveStep` | payload/RTCSA2026/smartdata/include/utility/bignum.h:207-215 | Halving keeps the congruences modulo an odd m and the common divisors when the other number is odd. |
| `NumberTheory.SubtractStep` | payload/RTCSA2026/smartdata/include/utility/bignum.h:225-231 | Subtracting keeps both congruences and the common divisors. |
| `NumberTheory.InverseIffCoprime` | payload/RTCSA2026/smartdata/include/utility/bignum.h:199-233 | The final congruence is an inverse exactly for coprime numbers, always for a prime modulus. |
| `Poly1305s.LoadBytes` | payload/RTCSA2026/smartdata/include/utility/bignum.h:40-46 | Loading bytes gives the little-endian number, zero beyond them. |
| `Poly1305s.SetByteAbove` | payload/RTCSA2026/smartdata/include/utility/poly1305.h:24-25 | Setting the byte above a block gives the number of the block with a byte 1 behind it, for full and short blocks. |
| `Poly1305s.Clamp` | payload/RTCSA2026/smartdata/include/utility/poly1305.h:53-61 | Clearing bits of seven bytes is, for every multiplier, the bitwise and of all sixteen bytes with the mask of section 2.5 of RFC 8439, written out. |
| `Poly1305s.AndBits` | payload/RTCSA2026/smartdata/include/utility/poly1305.h:53-61 | The bitwise and used for the mask has a bit set exactly where both numbers have it. |
| `Poly1305s.MaskingIs` | payload/RTCSA2026/smartdata/include/utility/poly1305.h:53-61 | The two masks in use, 15 and 252, are a remainder of 16 and a multiple of 4. |
| `Poly1305Vectors.Vector` | payload/RTCSA2026/smartdata/include/utility/poly1305.h:14-61 | The published test vector (section 2.5.2 of RFC 8439): the clamped multiplier and the tag as numbers. |
| `Poly1305s.HornerStep` | payload/RTCSA2026/smartdata/include/utility/poly1305.h:27-28 | One addition and one multiplication are one more term of the polynomial. |
| `Poly1305s.Poly1305.constructor` | payload/RTCSA2026/smartdata/include/utility/poly1305.h:14-16 | The cipher's key is kept, and the multiplier is the second key under the mask, byte by byte. |
| `Poly1305s.Poly1305.Absorb` | payload/RTCSA2026/smartdata/include/utility/poly1305.h:23-29 | One pass of the loop absorbs one block modulo 2^130 - 5. |
| `Poly1305s.Poly1305.Accumulate` | payload/RTCSA2026/smartdata/include/utility/poly1305.h:19-29 | The loop evaluates the polynomial of all blocks, for any message. |
| `Poly1305s.Poly1305.Stamp` | payload/RTCSA2026/smartdata/include/utility/poly1305.h:19-37 | The tag is (c1*r^q + ... + cq*r mod 2^130-5, plus the nonce encrypted under the key) mod 2^128 (section 2.5.1 of RFC 8439, the encrypted nonce in the place of s), for any cipher of 16-byte blocks. |
| `ScalarScan.Multiply` | payload/RTCSA2026/smartdata/include/utility/diffie_hellman.h:115-158 | The digit and bit loops perform exactly the double-and-add sequence of the scalar, over any type of points; None for zero. |
| `ScalarScan.DoubleAndAddReaches` | payload/RTCSA2026/smartdata/include/utility/diffie_hellman.h:144-158 | Under the group law the sequence reaches the scalar multiple. |
| `ScalarScan.Unpack` | payload/RTCSA2026/smartdata/include/utility/diffie_hellman.h:137-142 | The bits come out most significant first, and the position behind the leading one is found. |
| `ScalarScan.ScanDigit` | payload/RTCSA2026/smartdata/include/utility/diffie_hellman.h:145-149 | The bit loop appends one digit to the part of the scalar scanned. |
| `CurvePoints.Point.ToAffine` | payload/RTCSA2026/smartdata/include/utility/diffie_hellman.h:160-169 | The closing conversion: for z coprime to m the new x times z^2 is the old x and the new y times z^3 the old y modulo m, z becomes one, and reduced coordinates stay reduced. |
| `CurvePoints.Point.ScaleByPowers` | payload/RTCSA2026/smartdata/include/utility/diffie_hellman.h:162-168 | With z inverted, x is scaled by its square and y by its cube. |
| `SquareRoots.Sqrt` | payload/RTCSA2026/smartdata/include/utility/math.h:46-65 | The largest r with r*r <= x < (r+1)*(r+1), for every unsigned x of any even word width. |
| `SquareRoots.Digit` | payload/RTCSA2026/smartdata/include/utility/math.h:57-62 | One digit of the root; no intermediate value leaves the word. |
| `SquareRoots.FirstWeight` | payload/RTCSA2026/smartdata/include/utility/math.h:52-54 | The highest power of four at most x, zero for zero. |
| `SquareRoots.RootUnique` | payload/RTCSA2026/smartdata/include/utility/math.h:46-65 | The bounds determine the root. |
| `DispatchSteps.StepKeeps` | src/Thread.cpp:40-73 | Every atomic step of every core keeps the global invariant. |
| `DispatchTheorems.ReachableStates` | src/Thread.cpp:40-124 | The invariant holds in every state of every run, for any number of cores, threads and semaphores. |
| `DispatchTheorems.OnePlace` | src/Thread.cpp:40-73 | Every thread is in exactly one place: at a core, in one ready queue, on one wait list, carried by one core, or finished. |
| `DispatchTheorems.UnsavedIsRunning` | src/Thread.cpp:40-55 | A thread's context is incomplete exactly while some core runs on its stack. |
| `DispatchTheorems.OneCoreAStack` | src/Thread.cpp:40-55 | No two cores run on the same stack. |
| `DispatchTheorems.SwitchLoadsSaved` | src/Thread.cpp:40-55 | A switch loads a context that was saved before and belongs to this core, and next differs from previous. |
| `DispatchTheorems.QueuedIsSaved` | src/Thread.cpp:57-73 | Whatever a ready queue offers has its context saved. |
| `DispatchTheorems.RunsAtHome` | include/scheduler/FixedCore.hpp:27-38 | Threads only run on the core their criterion names. |
| `DispatchTheorems.NextExists` | src/Thread.cpp:104-124 | A core that finds no NORMAL thread finds its own idle thread: sleep, exit and run always get a next thread. |
| `DispatchTheorems.CoreProceeds` | src/Thread.cpp:40-168 | A core inside the kernel always has a step of its own: nothing there waits for another core. |
| `DispatchTheorems.StartProceeds` | src/Thread.cpp:126-129 | A core at boot takes a NORMAL thread, or finds its own idle thread queued. |
| `DispatchTheorems.LockIsReleased` | include/Semaphore.hpp:15-31 | A core that has a semaphore's lock frees it within seven steps of its own, whatever the others do; a sleeper's core does so in its epilogue. |
| `DispatchTheorems.CounterRange` | include/Semaphore.hpp:15-31 | The counter stays between minus the number of threads and n plus the v calls, so it does not wrap while both fit in its type. |
| `DispatchTheorems.NextDiffers` | src/Thread.cpp:40-43 | dispatch is never asked to switch a thread to itself. |
| `DispatchTheorems.SemaphoreLaw` | include/Semaphore.hpp:15-31 | value = n + increments - decrements; with the lock free the wait list has max(0,-value) threads; completed p calls never exceed n plus v calls; waiters wake in the order they enlisted. |
| `DispatchTheorems.WakeupFindsSleeper` | src/Thread.cpp:158-168 | wakeup never meets an empty list, and no core is on the stack of the thread it wakes. |
| `DispatchTheorems.EpilogueReleasesOwnLock` | src/Thread.cpp:63-66 | The epilogue of a sleeper finds a lock, and it is one that this core holds. |
| `DispatchTheorems.BoundedWaiting` | include/scheduler/FixedCore.hpp:30-34 | The thread at position p of a core's NORMAL queue is the one returned by exactly the (p+1)-th following removal on that core, whatever interleaves. |
| `DispatchTheorems.StepLogs` | include/scheduler/FixedCore.hpp:27-34 | Each step appends to a queue or takes its first thread, and nothing else. |
| `DispatchTheorems.CountsLiveThreads` | src/Thread.cpp:67-70 | The thread counter is the number of threads neither finished nor discounted by the core that is about to mark them finished. |
| `DispatchExits.StatusSteps` | src/Thread.cpp:40-168 | What one action does to any thread: core and rank stay; the status is FINISHING after its exit, READY after its yield, WAITING after its sleep, RUNNING when dispatched, READY when woken, FINISHED when its core has left it for good, and otherwise the same. |
| `DispatchExits.LeavingSets` | src/Thread.cpp:104-156 | In every reachable state the thread that exits, yields or sleeps, with or without finding a NORMAL thread next, is FINISHING, READY or WAITING, and is the one its core leaves. |
| `DispatchExits.ExitsEnd` | src/Thread.cpp:104-113 | One action makes a thread end if and only if the thread exits by it; FINISHED stays FINISHED. |
| `DispatchExits.ExitFinishes` | src/Thread.cpp:57-113 | Four further steps of its core after a thread's exit, in any interleaving and any longer run, the thread is FINISHED and on no queue, wait list or core. |
| `DispatchExits.SeekingFinishes` | src/Thread.cpp:104-113 | The same within five steps of a core that found no NORMAL thread when its thread exited. |
| `DispatchExits.OnlyExitEnds` | src/Thread.cpp:104-168 | Over any run a thread has ended if and only if it exited in it: yielding, sleeping and other cores never finish a thread. |
| `DispatchExits.RunningMay` | src/Thread.cpp:75-156 | A running thread may always exit (if NORMAL), create, yield to a queued thread, and take a free semaphore. |
| `DispatchExits.CreatedStays` | src/Thread.cpp:75-90 | A created thread has the core and rank asked for ever after, and no other core is ever on its stack. |
| `DispatchExits.CounterFromStart` | include/Semaphore.hpp:10-31 | A semaphore starts at its given value, and with its lock free its counter is that value plus the calls of v minus the calls of p of the whole run. |
| `DispatchExits.BalanceSteps` | include/Semaphore.hpp:15-31 | Each action changes the counter, the call in progress counted in, only by being the beginning of a call of v or of p. |
| `DispatchTheorems.IdleLoopEnds` | src/Thread.cpp:22-25 | When the idle loop ends every other thread is finished, or saved, off its stack, and the very thread that a core is about to mark finished. |
| `DispatchTheorems.FinishedIsOffCore` | src/Thread.cpp:67-70 | A finished thread's stack is used by no core. |
| `ReadyQueues.FIFO.Insert` | include/utility/collections/FIFO.hpp:17-25 | Appends at the tail of the linked queue. |
| `ReadyQueues.FIFO.Remove` | include/utility/collections/FIFO.hpp:27-34 | Removes and returns the head; null when empty. |
| `ReadyQueues.Collection.Insert` | include/scheduler/FixedCore.hpp:28 | Only the queue of the node's core and rank changes: the node is last in it. |
| `ReadyQueues.Collection.Remove` | include/scheduler/FixedCore.hpp:30-34 | The first NORMAL node of the core, or its first IDLE node when one will do; all other queues stay. |
| `ReadyQueues.Scheduler.Remove` | include/scheduler/Scheduler.hpp:21-31 | The core's head becomes the node taken; without one nothing changes. |
| `ReadyQueues.Scheduler.Insert` | include/scheduler/Scheduler.hpp:33-36 | Queues the node and changes no head. |
| `ReadyQueues.IdleCounter.Build` | include/scheduler/FixedCore.hpp:44-56 | Idle criteria without a core go round the cores, other ones to the boot core. |
| `KernelQueues.InsertedIsUnlinked` | src/Thread.cpp:57-73 | A thread that is about to be put on a ready queue is on no ready queue and on no wait list: its one link may be overwritten. |
| `KernelQueues.SleeperIsUnlinked` | src/Thread.cpp:146-148 | So is a thread that is about to be put on a wait list. |
| `KernelQueues.Kernel.MayInsert` | include/scheduler/Scheduler.hpp:33-36 | In every reachable state the preconditions of the linked insertion hold for whatever the kernel inserts. |
| `KernelQueues.Kernel.MaySleep` | src/Thread.cpp:146-148 | The same for a wait list. |
| `KernelQueues.Kernel.Publish` | include/scheduler/Scheduler.hpp:33-36 | The linked queues and lists, all of them, go on holding what the transition system says after an insertion. |
| `KernelQueues.Kernel.TakeFrom` | include/scheduler/Scheduler.hpp:21-31 | The same after a removal, which returns the node of the thread the transition system takes. |
| `KernelQueues.Kernel.Enlist` | src/Thread.cpp:146-148 | The same after a thread joins a wait list. |
| `KernelQueues.Kernel.Wake` | src/Thread.cpp:158-160 | The same after the first waiter leaves its list. |
| `KernelQueues.Insertions` | src/Thread.cpp:57-90 | The three inserting steps are one and the same operation on the queues. |
| `KernelQueues.InsertAppends` | include/scheduler/FixedCore.hpp:28 | That operation appends to the queue of the thread's core and rank and changes no other list. |
| `KernelQueues.TakesNormal` | include/scheduler/FixedCore.hpp:30-34 | Taking a NORMAL thread removes the first one of the core's NORMAL queue and changes no other list. |
| `KernelQueues.TakesIdle` | include/scheduler/FixedCore.hpp:30-34 | Taking an idle thread removes the first one of the core's IDLE queue and changes no other list. |
| `KernelQueues.OthersMoveNothing` | src/Thread.cpp:40-168 | All other steps leave every queue and wait list as it is. |
| `KernelQueues.Boot` | src/Thread.cpp:115-124 | Building and inserting one idle thread a core gives the initial state of the transition system. |
| `ReadyQueues.IdleCounter.BuildIdleThreads` | src/Thread.cpp:120-121 | Initialisation gives core i the i-th idle thread. |
| `FdtBuilders.FdtBuilder.Finish` | include/hypervisor/dtb/FDT_Builder.hpp:52-101 | The finished buffer starts with d0 0d fe ed, has the ten header words most significant byte first and 0 0 0 9 at the end of its structure block, and reads back as exactly the events given to the builder; structure block, names, header fields and reservations are where the format wants them, except that the last header field exceeds the structure block's size by 32, always. |
| `FlatTrees.ReadsBack` | include/hypervisor/dtb/FDT_Builder.hpp:60-86 | A structure block reads back, through the strings block, as the events it was emitted for. |
| `FlatTrees.TreeReadsBack` | include/hypervisor/dtb/FDT_Builder.hpp:28-50 | Balanced begin and end events read back as exactly the nested tree they come from. |
| `FlatTrees.TreeOfEvents` | include/hypervisor/dtb/FDT_Builder.hpp:28-101 | A file that reads as the events of a tree reads as that tree. |
| `FlatTrees.TokenReads` | include/hypervisor/dtb/FDT_Builder.hpp:60-86 | Each emitted token reads back as itself and takes exactly its own bytes, whatever follows. |
| `FlatTrees.TokenBytes` | include/hypervisor/dtb/FDT_Builder.hpp:11-15 | The bytes of every token: 0 0 0 1, the name, a zero and filling; 0 0 0 2; 0 0 0 3, length and offset most significant byte first, the value and filling. |
| `FdtExamples.OneProperty` | include/hypervisor/dtb/FDT_Builder.hpp:19-101 | A whole file of 90 bytes, written out: what the builder leaves for a root node with one property, and the tree it reads as. |
| `FlatTrees.ReadAllStops` | include/hypervisor/dtb/FDT_Builder.hpp:60-84 | Reading does not look past the end token. |
| `FdtBuilders.FdtBuilder.Walk` | include/hypervisor/dtb/FDT_Builder.hpp:58-84 | The walk ends, stays in step with the tokens, visits each one once and turns every distance into the offset; nothing outside the block changes. |
| `FdtBuilders.FdtBuilder.WalkToken` | include/hypervisor/dtb/FDT_Builder.hpp:60-83 | At a token the walk recognises its word, patches a property and moves to the next token; the branch for unknown words is never taken. |
| `FdtBuilders.FdtBuilder.PatchProperty` | include/hypervisor/dtb/FDT_Builder.hpp:71-78 | The name field of a property becomes strings size minus distance; length and value stay. |
| `FdtBuilders.FdtBuilder.SkipName` | include/hypervisor/dtb/FDT_Builder.hpp:62-68 | The inner loop stops at the name's zero byte and aligns. |
| `FdtBuilders.PromisesGrow` | include/hypervisor/dtb/FDT_Builder.hpp:129-135 | Names put in front of the strings block leave the names of earlier properties where their distance says. |
| `FdtBuilders.PromisesKept` | include/hypervisor/dtb/FDT_Builder.hpp:71-78 | With offsets in the place of distances every property names the same string. |
| `FdtBuilders.FdtBuilder.MoveDown` | include/hypervisor/dtb/FDT_Builder.hpp:86 | The byte-wise move is right also when the two places overlap. |
| `FdtBuilders.FdtBuilder.WriteHeader` | include/hypervisor/dtb/FDT_Builder.hpp:88-98 | The ten header words as the code writes them. |
| `FdtBuilders.FdtBuilder.constructor` | include/hypervisor/dtb/FDT_Builder.hpp:19-26 | An empty reservation list behind the place of the header. |
| `FdtBuilders.FdtBuilder.Begin` | include/hypervisor/dtb/FDT_Builder.hpp:28-39 | Records one begin event; the cursor goes to the next multiple of four, or to the names. |
| `FdtBuilders.FdtBuilder.End` | include/hypervisor/dtb/FDT_Builder.hpp:50 | Records one end event. |
| `FdtBuilders.FdtBuilder.AddProperty` | include/hypervisor/dtb/FDT_Builder.hpp:137-148 | Records one property event with its name in front of the names. |
| `FdtBuilders.FdtBuilder.AddString` | include/hypervisor/dtb/FDT_Builder.hpp:129-135 | Puts the name in front of the names and returns its distance from their end. |
| `FdtBuilders.FdtBuilder.AddEmpty` | include/hypervisor/dtb/FDT_Builder.hpp:41 | A property without value. |
| `FdtBuilders.FdtBuilder.AddText` | include/hypervisor/dtb/FDT_Builder.hpp:42 | The value is the text and its zero byte. |
| `FdtBuilders.FdtBuilder.AddWord` | include/hypervisor/dtb/FDT_Builder.hpp:43 | The value is the word, most significant byte first. |
| `FdtBuilders.FdtBuilder.AddWords` | include/hypervisor/dtb/FDT_Builder.hpp:44-48 | The value is the words, most significant bytes first; the caller's array is left byte-swapped. |
| `FdtBuilders.FdtBuilder.Align` | include/hypervisor/dtb/FDT_Builder.hpp:109-113 | Zeros up to a multiple of four, cut short where the names begin. |
| `FdtBuilders.SwappedIsBigEndian` | include/hypervisor/dtb/FDT_Builder.hpp:43-47 | A swapped word lies in little-endian memory most significant byte first. |
| `Sv39.Mmu.Map` | architecture/riscv64/MMU.hpp:86-108 | For an unmapped page the search ends at a lowest entry of exactly that frame and those rights (the ten low bits); every other page keeps the entry it had; for a mapped page returns false and changes nothing; the tables stay a tree. |
| `Sv39.Mmu.VirtToPhys` | architecture/riscv64/MMU.hpp:54-84 | Frame plus offset for every address of a mapped page, zero for other pages, the address itself without tables. |
| `Sv39.GraftKeepsSearch` | architecture/riscv64/MMU.hpp:94-105 | A new empty table changes the entry of no page. |
| `Sv39.GraftKeepsTree` | architecture/riscv64/MMU.hpp:94-105 | A new empty table keeps the tables a tree: no table has two places. |
| `Sv39.FillMapsOne` | architecture/riscv64/MMU.hpp:107 | A page entry set where there was none maps that page and no other. |
| `Sv39.GigaMapsItsPages` | architecture/riscv64/MMU.hpp:113-115 | A gigabyte entry maps its 2^18 pages and no other. |
| `Sv39.Mmu.Descend` | architecture/riscv64/MMU.hpp:94-105 | The table an entry leads to, created for an empty entry, which gets the valid bit alone; the entry found for every page and all other entries stay. |
| `Sv39.Mmu.Set` | architecture/riscv64/MMU.hpp:127-131 | Writes an empty entry; refuses any other. |
| `Sv39.Mmu.MapRange` | architecture/riscv64/MMU.hpp:112-124 | Aligned gigabyte sizes in one entry, whatever their number of gigabytes, others page by page; the one entry gives its pages exactly that frame and those rights, and does nothing when the root has any entry there; every page mapped before keeps its entry. |
| `Sv39.Mmu.Boot` | architecture/riscv64/MMU.hpp:146-154 | The kernel's addresses and the memory's own lead to the memory, the devices to themselves, one gigabyte each with the rights 0xcf, and no other page is mapped. |
| `Sv39.Mmu.MapPages` | architecture/riscv64/MMU.hpp:117-122 | Page by page over the range: frame and rights of every page afterwards, mapped pages keeping their entries. |
| `Sv39.RangeKeeps` | architecture/riscv64/MMU.hpp:117-122 | A page mapped before a range keeps its frame and its rights. |
| `Sv39.RangeMaps` | architecture/riscv64/MMU.hpp:117-122 | An unmapped page goes to the first frame the range has for it, with the rights of the range. |
| `Sv39.RangeLeaves` | architecture/riscv64/MMU.hpp:117-122 | A page the range does not reach is left out. |
| `Sv39.FramesDiffer` | architecture/riscv64/MMU.hpp:117-122 | Every page of a range that does not go round gets a frame of its own. |
| `Sv39.OneEntryForRange` | architecture/riscv64/MMU.hpp:113-115 | One gigabyte entry does what page-by-page mapping of the size would have done, exactly for sizes above zero whose further pages were all mapped before or come round to the same gigabyte. |
| `Sv39.OneEntryIsOneGiga` | architecture/riscv64/MMU.hpp:113-115 | Where nothing is mapped the one entry is right for one gigabyte only: not for size zero, which maps a gigabyte, nor for more. |
| `Sv39.Fields` | architecture/riscv64/MMU.hpp:55-57 | The three index fields and the offsets of an address are those of its page number. |
| `Sv39.EntryReads` | architecture/riscv64/MMU.hpp:127-137 | An entry gives back its address and all its flag bits. |
| `Sv39.Mmu.Load` | architecture/riscv64/MMU.hpp:49-64 | The register leads the translation back to the root table, if and only if its address has at most 56 bits; it is never zero, its mode is 8 and its address space 0. |
| `Barriers.NobodyLeavesEarly` | architecture/common/CPU.hpp:14-28 | No core leaves its k-th call before every core has decremented the counter in its own k-th. |
| `Barriers.OneRoundApart` | architecture/common/CPU.hpp:14-28 | Cores are never more than one round apart. |
| `Barriers.CounterIsReset` | architecture/common/CPU.hpp:18-23 | A core about to decrement finds the number of cores still to come in this round: the first one finds the counter reset. |
| `Barriers.NeverStuck` | architecture/common/CPU.hpp:22-27 | When all cores have entered the same call and some are inside, one of those can step. |
| `Barriers.StepsAreFew` | architecture/common/CPU.hpp:18-27 | Every step of a core inside its call that does not spin in vain decreases the work left and enters no new call. |
| `Barriers.CallIsShort` | architecture/common/CPU.hpp:18-27 | Whatever their order, the cores that all entered one call take at most that many such steps in it. |
| `Barriers.CallEnds` | architecture/common/CPU.hpp:14-28 | Any such beginning can be continued until every core is outside and has left that call, within that many steps. |
| `Barriers.RunKeeps` | architecture/common/CPU.hpp:14-28 | The round invariant holds after any schedule, for any number of cores and rounds. |

## Left out

- BuddyAllocator.Buddy.CeilingOfLog2: sizes above 2^63, for which the 64-bit shift of the code is undefined, are treated as mathematical numbers.
- KernelMemory.Memory.Alloc: returns null where the code asserts that memory is not exhausted; the spin lock and the interrupt guard around the allocator are not modelled.
- Poly1305s.Poly1305.Stamp: the cipher is any function from nonce and key to sixteen bytes, and messages are shorter than 2^31 bytes, the range of the code's length; `verify`, which passes an unsigned length on as a signed one, is not modelled.
- ScalarScan.Multiply: points are an abstract type with doubling and addition; the Jacobian formulas and their exceptional points are not modelled. The conversion that closes the operation is CurvePoints.Point.ToAffine.
- SquareRoots.Sqrt: signed instances, whose first weight can exceed the type's range, are not modelled.
- DispatchTheorems.SemaphoreLaw: the counter is unbounded; DispatchTheorems.CounterRange says when the code's 32 bits hold it, and what happens after a wrap-around is not modelled.
- DispatchExits.CounterFromStart: initial values are not negative; from a negative one the first v would find no sleeper, which `wakeup` asserts.
- DispatchTheorems.CountsLiveThreads: the counter is unbounded; a thread that is retiring is already discounted although not yet marked FINISHED, as in the code.
- DispatchTheorems.BoundedWaiting: counts removals on the core; how long a thread runs between two of them is not modelled.
- FdtBuilders.FdtBuilder.Finish: the header field for the size of the structure block is not used by the reader, because the code's value is not the block's size.
- Sv39.Mmu.Map: pages under a gigabyte or megabyte leaf are excluded by precondition, because the code would walk into the mapped memory as if it were a table; so are flags without the valid bit, with which a page would be refused later although it is not mapped.
- Sv39.Mmu.Boot: the addresses are multiples of a gigabyte, as in every memory map of the repository; that only the boot processor does this, and the barrier and the register load behind it, are not part of it.
- Sv39.Mmu.MapRange: the one-entry form needs flags with a read, write or execute bit, because an entry without them would make the mapped memory a table.
- Barriers.NobodyLeavesEarly: each atomic operation is one sequentially consistent step; weaker memory orders are not modelled.
- Spin locks, mutexes, condition variables, alarms and `Thread::join`: thin layers over the steps modelled.
- `multiply_by_two`, `randomize` and `operator^=` of the big numbers: no part in the field operations.
- Trap entry, CSRs other than the translation root, FPU state, device drivers, the hypervisor's devices and the network stack: I/O without state of this kind.
- AES tables, SmartData, TSTP, transducers and predictors: constant tables, framework code or floating point.
