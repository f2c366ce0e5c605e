// The intrusive singly linked list the allocator keeps its free blocks on.
//
// A node is the address of a free block; its `next` word lives in the block itself, so all lists share one memory.
// Address 0 is the null pointer.

module UnorderedLists {
  import opened BuddySpec
  import opened Counting

  class Links {
    var next: map<nat, nat>

    constructor ()
      ensures next == map[]
    {
      next := map[];
    }
  }

  // The k-th node, or null past the end.
  ghost function Node(s: seq<nat>, k: nat): nat {
    if k < |s| then s[k] else 0
  }

  ghost predicate Linked(next: map<nat, nat>, head: nat, s: seq<nat>) {
    && head == Node(s, 0)
    && (forall i :: 0 <= i < |s| ==> s[i] != 0 && s[i] in next)
    && (forall i {:trigger next[s[i]]} :: 0 <= i < |s| ==> next[s[i]] == Node(s, i + 1))
  }

  ghost function Bypassed(next: map<nat, nat>, s: seq<nat>, k: nat): map<nat, nat>
    requires k < |s| && s[k] in next
  {
    (if k > 0 then next[s[k - 1] := next[s[k]]] else next)[s[k] := 0]
  }

  lemma BypassedNext(next: map<nat, nat>, head: nat, s: seq<nat>, k: nat, i: nat)
    requires Linked(next, head, s) && Distinct(s) && k < |s| && i < |s| && i != k
    ensures s[i] in Bypassed(next, s, k)
    ensures Bypassed(next, s, k)[s[i]] == Node(s, if i + 1 == k then k + 1 else i + 1)
  {
    assert s[i] != s[k] && (k > 0 && i != k - 1 ==> s[i] != s[k - 1]);
  }

  lemma OthersAt(s: seq<nat>, k: nat)
    requires k < |s|
    ensures var t := s[..k] + s[k + 1..];
            |t| == |s| - 1 && forall i :: 0 <= i < |t| ==> t[i] == s[if i < k then i else i + 1]
  {
  }

  lemma OthersDistinct(s: seq<nat>, k: nat, t: seq<nat>)
    requires Distinct(s) && k < |s| && |t| == |s| - 1
    requires forall i :: 0 <= i < |t| ==> t[i] == s[if i < k then i else i + 1]
    ensures Distinct(t)
  {
  }

  // Bypassing the k-th node leaves the list of the others.
  lemma Unlink(next: map<nat, nat>, head: nat, s: seq<nat>, k: nat, t: seq<nat>)
    requires Linked(next, head, s) && Distinct(s) && k < |s| && |t| == |s| - 1
    requires forall i :: 0 <= i < |t| ==> t[i] == s[if i < k then i else i + 1]
    ensures Linked(Bypassed(next, s, k), if k > 0 then head else next[s[k]], t)
  {
    var n := Bypassed(next, s, k);
    forall i | 0 <= i < |t|
      ensures t[i] != 0 && t[i] in n && n[t[i]] == Node(t, i + 1)
    {
      BypassedNext(next, head, s, k, if i < k then i else i + 1);
    }
  }

  class UnorderedList {
    const memory: Links
    var head: nat
    ghost var contents: seq<nat>

    ghost predicate Valid()
      reads this, memory
    {
      Linked(memory.next, head, contents) && Distinct(contents)
    }

    constructor (memory: Links)
      ensures Valid() && contents == [] && this.memory == memory
    {
      this.memory := memory;
      head := 0;
      contents := [];
    }

    method Insert(node: nat)
      requires Valid() && node != 0 && node !in contents
      modifies this, memory
      ensures Valid() && contents == [node] + old(contents)
      ensures memory.next == old(memory.next)[node := old(head)]
    {
      memory.next := memory.next[node := head];
      head := node;
      contents := [node] + contents;
    }

    // Takes the node at the head; 0 when there is none.
    method Remove() returns (node: nat)
      requires Valid()
      modifies this, memory
      ensures Valid()
      ensures old(contents) == [] ==> node == 0 && contents == [] && memory.next == old(memory.next)
      ensures old(contents) != [] ==>
                && node == old(contents)[0] && contents == old(contents)[1..]
                && memory.next == old(memory.next)[node := 0]
    {
      if head == 0 {
        return 0;
      }
      node := head;
      head := memory.next[node];
      memory.next := memory.next[node := 0];
      contents := contents[1..];
      assert forall i :: 0 <= i < |contents| ==> contents[i] == old(contents)[i + 1];
    }

    // Takes a given node, wherever it is in the list.
    method RemoveNode(target: nat) returns (found: bool)
      requires Valid() && target != 0
      modifies this, memory
      ensures Valid() && contents == Without(old(contents), target)
      ensures found <==> target in old(contents)
      ensures memory.next.Keys == old(memory.next).Keys
      ensures forall x :: x in memory.next && x !in old(contents) ==> memory.next[x] == old(memory.next)[x]
    {
      var previous, current := 0, head;
      ghost var k := 0;
      while current != 0 && current != target
        invariant 0 <= k <= |contents| && target !in contents[..k]
        invariant current == Node(contents, k)
        invariant previous == if k > 0 then Node(contents, k - 1) else 0
        decreases |contents| - k
      {
        previous := current;
        current := memory.next[current];
        k := k + 1;
      }
      if current == 0 {
        assert contents[..k] == contents;
        return false;
      }
      WithoutAt(contents, target, k);
      OthersAt(contents, k);
      OthersDistinct(contents, k, contents[..k] + contents[k + 1..]);
      Unlink(memory.next, head, contents, k, contents[..k] + contents[k + 1..]);
      assert target in contents;
      if previous != 0 {
        memory.next := memory.next[previous := memory.next[current]];
      } else {
        head := memory.next[current];
      }
      memory.next := memory.next[current := 0];
      contents := contents[..k] + contents[k + 1..];
      return true;
    }
  }

  lemma {:induction false} WithoutAt(s: seq<nat>, a: nat, k: nat)
    requires k < |s| && s[k] == a && a !in s[..k]
    ensures Without(s, a) == s[..k] + s[k + 1..]
  {
    if k > 0 {
      assert s[0] == s[..k][0];
      assert s[1..][..k - 1] == s[..k][1..];
      WithoutAt(s[1..], a, k - 1);
    }
  }
}
