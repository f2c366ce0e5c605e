// The buddy allocator itself: an array of linked free lists over one memory, proved against the functions of
// BuddySpec.

module BuddyAllocator {
  import opened Powers
  import opened BuddySpec
  import opened UnorderedLists

  class Buddy {
    const minimum: nat
    const maximum: nat
    const memory: Links
    const lists: seq<UnorderedList>
    ghost var free: FreeLists

    // The linked lists hold what `free` says.
    ghost predicate Listed()
      reads this, memory, lists
    {
      && |lists| == |free| == maximum + 1
      && (forall i :: 0 <= i < |lists| ==> lists[i].memory == memory)
      && (forall i, j :: 0 <= i < j < |lists| ==> lists[i] != lists[j])
      && (forall i :: 0 <= i < |lists| ==> lists[i].Valid() && lists[i].contents == free[i])
    }

    ghost predicate Valid()
      reads this, memory, lists
    {
      Listed() && BuddySpec.Valid(minimum, free)
    }

    constructor (minimum: nat, maximum: nat)
      ensures Valid() && fresh(memory) && fresh(lists) && this.minimum == minimum && this.maximum == maximum
      ensures forall i :: 0 <= i < |free| ==> free[i] == []
    {
      this.minimum, this.maximum := minimum, maximum;
      var mem := new Links();
      var all: seq<UnorderedList> := [];
      while |all| <= maximum
        invariant |all| <= maximum + 1
        invariant fresh(mem) && forall i :: 0 <= i < |all| ==> fresh(all[i])
        invariant forall i :: 0 <= i < |all| ==> all[i].memory == mem && all[i].Valid() && all[i].contents == []
        invariant forall i, j :: 0 <= i < j < |all| ==> all[i] != all[j]
        decreases maximum + 1 - |all|
      {
        var list := new UnorderedList(mem);
        all := all + [list];
      }
      memory, lists := mem, all;
      free := seq(maximum + 1, _ => []);
    }

    // The loop of log2ceil.
    static method CeilingOfLog2(size: nat) returns (l: nat)
      ensures l == Log2Ceil(size)
    {
      l := 0;
      while Pow2(l) < size
        invariant l > 0 ==> Pow2(l - 1) < size
        invariant Log2CeilFrom(size, l) == Log2Ceil(size)
        decreases size - Pow2(l)
      {
        l := l + 1;
      }
    }

    method BucketFor(size: nat) returns (n: nat)
      ensures n == Bucket(minimum, size)
    {
      var b := CeilingOfLog2(size);
      if b < minimum {
        b := minimum;
      }
      n := b - minimum;
    }

    // The other lists' links survive when one list changes.
    twostate lemma OtherListsKeep(i: nat)
      requires old(Listed()) && i < |lists|
      requires forall j :: 0 <= j < |lists| && j != i ==> unchanged(lists[j])
      requires lists[i].Valid() && free == old(free)[i := lists[i].contents]
      requires memory.next.Keys >= old(memory.next).Keys
      requires forall j, x :: 0 <= j < |lists| && j != i && x in free[j] ==> memory.next[x] == old(memory.next[x])
      ensures Listed()
    {
      forall j | 0 <= j < |lists| && j != i
        ensures lists[j].Valid()
      {
        assert old(lists[j].Valid());
        assert forall k :: 0 <= k < |lists[j].contents| ==> lists[j].contents[k] in free[j];
      }
    }

    // free_[i].insert(a)
    method Push(i: nat, a: nat)
      requires Valid() && i < |free| && a != 0 && forall j :: 0 <= j < |free| ==> a !in free[j]
      modifies this, memory, lists
      ensures Listed() && free == old(free)[i := [a] + old(free)[i]]
    {
      lists[i].Insert(a);
      free := free[i := lists[i].contents];
      OtherListsKeep(i);
    }

    // free_[i].remove()
    method Pop(i: nat) returns (node: nat)
      requires Valid() && i < |free|
      modifies this, memory, lists
      ensures Listed()
      ensures old(free)[i] == [] ==> node == 0 && free == old(free)
      ensures old(free)[i] != [] ==> node == old(free)[i][0] && free == old(free)[i := old(free)[i][1..]]
    {
      forall j | 0 <= j < |free| && j != i && free[i] != []
        ensures free[i][0] !in free[j]
      {
        OnOneList(minimum, free, i, j, free[i][0]);
      }
      node := lists[i].Remove();
      free := free[i := lists[i].contents];
      OtherListsKeep(i);
    }

    // free_[i].remove(a)
    method Drop(i: nat, a: nat) returns (found: bool)
      requires Valid() && i < |free| && a != 0
      modifies this, memory, lists
      ensures Listed()
      ensures found <==> a in old(free)[i]
      ensures free == old(free)[i := Without(old(free)[i], a)]
    {
      forall j, x | 0 <= j < |free| && j != i && x in free[j]
        ensures x !in free[i]
      {
        OnOneList(minimum, free, j, i, x);
      }
      found := lists[i].RemoveNode(a);
      free := free[i := lists[i].contents];
      OtherListsKeep(i);
    }

    // Takes the head of the first non-empty list at or above n.
    method RemoveFirst(n: nat) returns (node: nat, i: nat)
      requires Valid()
      modifies this, memory, lists
      ensures Listed() && i >= n
      ensures node == 0 ==> free == old(free) && Take(minimum, free, n).None?
      ensures node != 0 ==>
                && n <= maximum && i == FirstFit(old(free), n) <= maximum && old(free)[i] != []
                && node == old(free)[i][0] && free == old(free)[i := old(free)[i][1..]]
    {
      node, i := 0, n;
      ghost var start := free;
      while i <= maximum
        invariant Valid() && free == start && node == 0
        invariant n <= i
        invariant n <= maximum ==> i <= maximum + 1 && FirstFit(free, n) == FirstFit(free, i)
        decreases maximum + 1 - i
      {
        assert free[i] != [] ==> free[i][0] in free[i];
        node := Pop(i);
        if node != 0 {
          return;
        }
        i := i + 1;
      }
    }

    // The splitting loop at level i: goal is what the lists will hold at its end.
    ghost predicate Splitting(node: nat, i: nat, n: nat, goal: FreeLists)
      reads this, memory, lists
    {
      && Valid() && n <= i <= maximum && Givable(minimum, free, node, i) && EmptyBetween(free, n, i)
      && Split(minimum, free, node, i, n) == goal
    }

    // One pass of the splitting loop: the upper half of a level-i block goes to the list below.
    method SplitOnce(node: nat, i: nat, ghost n: nat, ghost goal: FreeLists)
      requires Splitting(node, i, n, goal) && n < i
      modifies this, memory, lists
      ensures Splitting(node, i - 1, n, goal)
    {
      SplitPass(minimum, free, node, i, n);
      var b := BuddySpec.Buddy(minimum, i - 1, node);
      Push(i - 1, b);
    }

    // Lists the upper halves of a level-k block down to level n.
    method SplitDown(node: nat, k: nat, n: nat, ghost goal: FreeLists)
      requires Splitting(node, k, n, goal)
      modifies this, memory, lists
      ensures Valid() && free == goal
    {
      var i := k;
      while i > n
        invariant n <= i && Splitting(node, i, n, goal)
      {
        SplitOnce(node, i, n, goal);
        i := i - 1;
      }
    }

    // 0 stands for the null pointer: no listed block has that address.
    method Remove(size: nat) returns (address: nat)
      requires Valid()
      modifies this, memory, lists
      ensures Valid()
      ensures match Take(minimum, old(free), Bucket(minimum, size))
              case None => address == 0 && free == old(free)
              case Some((a, f)) => address == a != 0 && free == f
    {
      var n := BucketFor(size);
      ghost var start := free;
      var node, i := RemoveFirst(n);
      if node == 0 {
        return 0;
      }
      PopPass(minimum, start, i);
      SplitDown(node, i, n, Split(minimum, free, node, i, n));
      return node;
    }

    // The merging loop at level n: goal is what the lists will hold once the block is in.
    ghost predicate Merging(address: nat, n: nat, goal: FreeLists)
      reads this, memory, lists
    {
      Valid() && n <= maximum && Givable(minimum, free, address, n) && Give(minimum, free, address, n) == goal
    }

    // Merging is over: the block's buddy is not free, or there is none.
    ghost predicate Merged(address: nat, n: nat)
      reads this
    {
      n < maximum ==> n < |free| && BuddySpec.Buddy(minimum, n, address) !in free[n]
    }

    // One pass of the merging loop: takes the buddy off its list, if it is there.
    method MergeOnce(address: nat, n: nat, ghost goal: FreeLists) returns (merged: bool, parent: nat)
      requires Merging(address, n, goal) && n < maximum
      modifies this, memory, lists
      ensures merged <==> BuddySpec.Buddy(minimum, n, address) in old(free)[n]
      ensures merged ==> Merging(parent, n + 1, goal)
      ensures !merged ==> parent == address && free == old(free) && Merging(address, n, goal) && Merged(address, n)
    {
      MergePass(minimum, free, address, n);
      var b := BuddySpec.Buddy(minimum, n, address);
      merged := Drop(n, b);
      parent := if merged && b < address then b else address;
    }

    // Goes up while buddies are free.
    method MergeUp(p: nat, k: nat, ghost goal: FreeLists) returns (address: nat, n: nat)
      requires Merging(p, k, goal)
      modifies this, memory, lists
      ensures Merging(address, n, goal) && Merged(address, n)
    {
      address, n := p, k;
      var merged := true;
      while merged && n < maximum
        invariant Merging(address, n, goal) && (merged || Merged(address, n))
        decreases maximum - n, merged
      {
        merged, address := MergeOnce(address, n, goal);
        n := if merged then n + 1 else n;
      }
    }

    method PushLast(address: nat, n: nat, ghost goal: FreeLists)
      requires Merging(address, n, goal) && Merged(address, n)
      modifies this, memory, lists
      ensures Valid() && free == goal
    {
      GiveStops(minimum, free, address, n);
      Push(n, address);
    }

    method Insert(p: nat, size: nat)
      requires Valid() && size > 0
      requires Bucket(minimum, size) <= maximum && Givable(minimum, free, p, Bucket(minimum, size))
      modifies this, memory, lists
      ensures Valid()
      ensures free == Give(minimum, old(free), p, Bucket(minimum, size))
    {
      var k := BucketFor(size);
      ghost var goal := Give(minimum, free, p, k);
      var address, n := MergeUp(p, k, goal);
      PushLast(address, n, goal);
    }
  }
}
