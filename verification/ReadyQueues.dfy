// The scheduler's data: linked queues, one per core and rank, and the heads of the cores.

module ReadyQueues {
  import opened Powers

  class Node {
    const thread: nat
    const cpu: nat
    const normal: bool
    var next: Node?

    constructor (thread: nat, cpu: nat, normal: bool)
      ensures this.thread == thread && this.cpu == cpu && this.normal == normal && next == null
    {
      this.thread, this.cpu, this.normal, next := thread, cpu, normal, null;
    }
  }

  // A linked queue with a head and a tail.
  class FIFO {
    var head: Node?
    var tail: Node?
    ghost var contents: seq<Node>

    ghost predicate Valid()
      reads this, contents
    {
      && (forall i, j :: 0 <= i < j < |contents| ==> contents[i] != contents[j])
      && head == (if contents == [] then null else contents[0])
      && tail == (if contents == [] then null else contents[|contents| - 1])
      && (forall i {:trigger contents[i].next} :: 0 <= i < |contents| ==> contents[i].next == Following(i))
    }

    ghost function Following(i: nat): Node?
      reads this
    {
      if i + 1 < |contents| then contents[i + 1] else null
    }

    constructor ()
      ensures Valid() && contents == []
    {
      head, tail, contents := null, null, [];
    }

    // A queue whose nodes are left alone stays as it is.
    twostate lemma LeftAlone()
      requires old(Valid()) && head == old(head) && tail == old(tail) && contents == old(contents)
      requires forall n :: n in contents ==> n.next == old(n.next)
      ensures Valid()
    {
      forall j | 0 <= j < |contents|
        ensures contents[j].next == Following(j)
      {
        assert old(contents[j].next) == old(Following(j));
      }
    }

    // At the tail. The node must not be queued: its link is overwritten.
    method Insert(node: Node)
      requires Valid() && node !in contents
      modifies this, contents, node
      ensures Valid() && contents == old(contents) + [node]
      ensures forall n :: n in old(contents) && n.next != old(n.next) ==> n == old(contents)[|old(contents)| - 1]
    {
      node.next := null;
      if head == null {
        head, tail := node, node;
      } else {
        tail.next := node;
        tail := node;
      }
      contents := contents + [node];
    }

    // From the head; null when the queue is empty.
    method Remove() returns (node: Node?)
      requires Valid()
      modifies this
      ensures Valid()
      ensures old(contents) == [] ==> node == null && contents == []
      ensures old(contents) != [] ==> node == old(contents)[0] && contents == old(contents)[1..]
    {
      node := head;
      if node != null {
        head := node.next;
        contents := contents[1..];
      }
      if head == null {
        tail := null;
      }
      assert forall i :: 0 <= i < |contents| ==> old(contents) != [] && contents[i] == old(contents)[i + 1];
    }
  }

  // One queue for each core and rank: that of rank r of core c has number 2 * c + r.
  class Collection {
    const cores: nat
    const queues: seq<FIFO>

    static function Number(cpu: nat, normal: bool): nat {
      2 * cpu + (if normal then 1 else 0)
    }

    ghost function Nodes(): set<Node>
      reads queues
    {
      set i, n | 0 <= i < |queues| && n in queues[i].contents :: n
    }

    // A queue holds nodes of its own core and rank only; so no node is on two queues.
    ghost predicate Valid()
      reads queues, Nodes()
    {
      && |queues| == 2 * cores
      && (forall i, j :: 0 <= i < j < |queues| ==> queues[i] != queues[j])
      && (forall i :: 0 <= i < |queues| ==> forall n :: n in queues[i].contents ==> n in Nodes())
      && (forall i :: 0 <= i < |queues| ==> queues[i].Valid())
      && (forall i, n :: 0 <= i < |queues| && n in queues[i].contents ==> Number(n.cpu, n.normal) == i)
    }

    constructor (cores: nat)
      ensures Valid() && this.cores == cores && fresh(queues)
      ensures forall i :: 0 <= i < |queues| ==> queues[i].contents == []
    {
      var all: seq<FIFO> := [];
      for i := 0 to 2 * cores
        invariant |all| == i
        invariant forall k :: 0 <= k < i ==> fresh(all[k]) && all[k].Valid() && all[k].contents == []
        invariant forall k, l :: 0 <= k < l < i ==> all[k] != all[l]
      {
        var q := new FIFO();
        all := all + [q];
      }
      this.cores, queues := cores, all;
    }

    // A node that is not on its own queue is on none.
    lemma NotElsewhere(node: Node)
      requires Valid() && node.cpu < cores && node !in queues[Number(node.cpu, node.normal)].contents
      ensures forall i :: 0 <= i < |queues| ==> node !in queues[i].contents
    {
    }

    // Changes to queue k, its nodes and nodes that were on no queue leave the other queues valid.
    twostate lemma OthersLeftAlone(k: nat)
      requires old(Valid()) && k < |queues|
      requires forall i :: 0 <= i < |queues| && i != k ==> unchanged(queues[i])
      requires forall n :: n in old(Nodes()) && n !in old(queues[k].contents) ==> n.next == old(n.next)
      ensures forall i :: 0 <= i < |queues| && i != k ==> queues[i].Valid()
    {
      forall i | 0 <= i < |queues| && i != k
        ensures queues[i].Valid()
      {
        forall n | n in queues[i].contents
          ensures n.next == old(n.next)
        {
          assert old(n in queues[i].contents && n in Nodes() && Number(n.cpu, n.normal) == i);
        }
        queues[i].LeftAlone();
      }
    }

    method Insert(node: Node)
      requires Valid() && node.cpu < cores && node !in queues[Number(node.cpu, node.normal)].contents
      modifies queues, Nodes(), node
      ensures Valid()
      ensures forall i :: 0 <= i < |queues| ==>
                queues[i].contents == old(queues[i].contents)
                                      + (if i == Number(node.cpu, node.normal) then [node] else [])
    {
      var k := Number(node.cpu, node.normal);
      NotElsewhere(node);
      label before:
      queues[k].Insert(node);
      OthersLeftAlone@before(k);
    }

    // What the scheduler takes from the two queues of a core.
    ghost function First(ns: seq<Node>, ds: seq<Node>, idleWillDo: bool): Node? {
      if ns != [] then ns[0] else if idleWillDo && ds != [] then ds[0] else null
    }

    // From queue k; the other queues stay as they are.
    method Take(k: nat) returns (node: Node?)
      requires Valid() && k < |queues|
      modifies queues[k]
      ensures Valid()
      ensures forall i :: 0 <= i < |queues| && i != k ==> queues[i].contents == old(queues[i].contents)
      ensures old(queues[k].contents) == [] ==> node == null && queues[k].contents == []
      ensures old(queues[k].contents) != [] ==>
                node == old(queues[k].contents)[0] && queues[k].contents == old(queues[k].contents)[1..]
      ensures node != null ==> Number(node.cpu, node.normal) == k
    {
      node := queues[k].Remove();
    }

    // The first NORMAL thread of the core or, when an idle thread will do, its first idle thread.
    method Remove(cpu: nat, idleWillDo: bool) returns (node: Node?)
      requires Valid() && cpu < cores
      modifies queues
      ensures Valid()
      ensures forall i :: 0 <= i < |queues| && i / 2 != cpu ==> queues[i].contents == old(queues[i].contents)
      ensures var n, d := Number(cpu, true), Number(cpu, false);
              var ns, ds := old(queues[n].contents), old(queues[d].contents);
              && node == First(ns, ds, idleWillDo)
              && (node != null ==> node.cpu == cpu)
              && queues[n].contents == (if ns != [] then ns[1..] else ns)
              && queues[d].contents == (if ns == [] && idleWillDo && ds != [] then ds[1..] else ds)
    {
      node := Take(Number(cpu, true));
      if node == null && idleWillDo {
        node := Take(Number(cpu, false));
      }
    }
  }

  // The scheduler: the collection, and the thread each core runs.
  class Scheduler {
    const collection: Collection
    const heads: array<Node?>

    ghost predicate Valid()
      reads collection.queues, collection.Nodes()
    {
      collection.Valid() && heads.Length == collection.cores
    }

    constructor (cores: nat)
      ensures Valid() && heads.Length == cores && forall i :: 0 <= i < cores ==> heads[i] == null
      ensures forall i :: 0 <= i < |collection.queues| ==> collection.queues[i].contents == []
    {
      collection := new Collection(cores);
      heads := new Node?[cores](_ => null);
    }

    // Queues the node; no head changes.
    method Insert(node: Node)
      requires Valid() && node.cpu < heads.Length
      requires node !in collection.queues[Collection.Number(node.cpu, node.normal)].contents
      modifies collection.queues, collection.Nodes(), node
      ensures Valid()
      ensures forall i :: 0 <= i < |collection.queues| ==>
                collection.queues[i].contents == old(collection.queues[i].contents)
                                                 + (if i == Collection.Number(node.cpu, node.normal) then [node] else [])
      ensures heads[..] == old(heads[..])
    {
      collection.Insert(node);
    }

    method SetHead(cpu: nat, node: Node)
      requires Valid() && cpu < heads.Length
      modifies heads
      ensures Valid()
      ensures forall i :: 0 <= i < |collection.queues| ==>
                collection.queues[i].contents == old(collection.queues[i].contents)
      ensures heads[cpu] == node && forall i :: 0 <= i < heads.Length && i != cpu ==> heads[i] == old(heads[i])
    {
      heads[cpu] := node;
    }

    // Replaces the core's head by the thread taken, if any.
    method Remove(cpu: nat, idleWillDo: bool) returns (node: Node?)
      requires Valid() && cpu < heads.Length
      modifies collection.queues, heads
      ensures Valid()
      ensures heads[cpu] == if node == null then old(heads[cpu]) else node
      ensures forall i :: 0 <= i < heads.Length && i != cpu ==> heads[i] == old(heads[i])
      ensures node == collection.First(old(collection.queues[Collection.Number(cpu, true)].contents),
                                       old(collection.queues[Collection.Number(cpu, false)].contents), idleWillDo)
      ensures node != null ==> node.cpu == cpu
      ensures forall i :: 0 <= i < |collection.queues| && i / 2 != cpu ==>
                collection.queues[i].contents == old(collection.queues[i].contents)
      ensures var n, d := Collection.Number(cpu, true), Collection.Number(cpu, false);
              var ns, ds := old(collection.queues[n].contents), old(collection.queues[d].contents);
              && collection.queues[n].contents == (if ns != [] then ns[1..] else ns)
              && collection.queues[d].contents == (if ns == [] && idleWillDo && ds != [] then ds[1..] else ds)
    {
      node := collection.Remove(cpu, idleWillDo);
      if node != null {
        SetHead(cpu, node);
      }
    }
  }

  // ---- Criteria ----

  const ANY: nat := 0xffff_ffff

  // The core an idle criterion without one gets: they go round the cores.
  class IdleCounter {
    var idles: nat

    constructor ()
      ensures idles == 0
    {
      idles := 0;
    }

    method Build(normal: bool, cpu: nat, cores: nat, bsp: nat) returns (core: nat)
      requires 0 < cores && bsp < cores && (cpu == ANY || cpu < cores) && cores < ANY && idles < 0x1_0000_0000
      modifies this
      ensures core < cores
      ensures core == if cpu != ANY then cpu else if normal then bsp else old(idles) % cores
      ensures idles == if cpu == ANY && !normal then (old(idles) + 1) % 0x1_0000_0000 else old(idles)
    {
      core := cpu;
      if !normal && cpu == ANY {
        core := idles % cores;
        idles := (idles + 1) % 0x1_0000_0000;
      } else if cpu == ANY {
        core := bsp;
      }
    }

    // Initialisation builds one idle criterion for each core: the i-th one is core i's.
    method BuildIdleThreads(cores: nat, bsp: nat) returns (cpus: seq<nat>)
      requires 0 < cores && bsp < cores && cores < ANY && idles == 0
      modifies this
      ensures |cpus| == cores && forall i :: 0 <= i < cores ==> cpus[i] == i
    {
      cpus := [];
      for i := 0 to cores
        invariant |cpus| == i == idles && forall k :: 0 <= k < i ==> cpus[k] == k
      {
        DivUnique(i, cores, 0);
        var c := Build(false, ANY, cores, bsp);
        cpus := cpus + [c];
      }
    }
  }
}
