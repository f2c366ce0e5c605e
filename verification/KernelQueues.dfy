// The linked queues and wait lists of the kernel hold what the transition system says. A thread has one node, whose
// one link serves ready queues and wait lists alike; so a thread must never be linked twice.

module KernelQueues {
  import opened Options
  import opened Dispatch
  import opened DispatchInvariant
  import opened DispatchSteps
  import opened DispatchTheorems
  import opened ReadyQueues

  // Thread t is on no ready queue and on no wait list.
  ghost predicate Unlinked(s: State, t: nat) {
    && (forall c :: 0 <= c < |s.cores| ==> t !in s.cores[c].normal && t !in s.cores[c].idle)
    && (forall k :: 0 <= k < |s.sems| ==> t !in s.sems[k].waiting)
  }

  // Whatever is about to be linked is on no list before: its link may be overwritten.
  lemma {:induction false} InsertedIsUnlinked(s: State, c: nat, ph: Phase, t: nat)
    requires Reachable(s) && c < |s.cores| && Inserting(s, c, ph, t)
    ensures t in s.threads && Unlinked(s, t)
  {
    ReachableStates(s);
    InsertingThread(s, c, ph, t);
    NotOnQueue(s, t);
    NotOnList(s, t);
  }

  lemma {:induction false} SleeperIsUnlinked(s: State, c: nat)
    requires Reachable(s) && c < |s.cores| && s.cores[c].phase.PSleeping?
    ensures s.cores[c].head in s.threads && Unlinked(s, s.cores[c].head)
  {
    ReachableStates(s);
    assert CoreOk(s, c) && ThreadOk(s, s.cores[c].head);
    NotOnQueue(s, s.cores[c].head);
    NotOnList(s, s.cores[c].head);
  }

  lemma {:induction false} SleepsOnList(s: State, c: nat)
    requires Inv(s) && c < |s.cores| && s.cores[c].phase.PSleeping?
    ensures s.cores[c].phase.k < |s.sems|
  {
    assert CoreOk(s, c);
  }

  lemma {:induction false} NotOnQueue(s: State, t: nat)
    requires Inv(s) && t in s.threads && !s.threads[t].owner.InQueue?
    ensures forall c :: 0 <= c < |s.cores| ==> t !in s.cores[c].normal && t !in s.cores[c].idle
  {
    forall c | 0 <= c < |s.cores|
      ensures t !in s.cores[c].normal && t !in s.cores[c].idle
    {
      assert QueuesOk(s, c);
    }
  }

  lemma {:induction false} NotOnList(s: State, t: nat)
    requires Inv(s) && t in s.threads && ListOf(s.threads[t].owner) == None
    ensures forall k :: 0 <= k < |s.sems| ==> t !in s.sems[k].waiting
  {
    forall k | 0 <= k < |s.sems|
      ensures t !in s.sems[k].waiting
    {
      assert SemOk(s, k);
    }
  }

  // A waiter is on its own list only.
  lemma {:induction false} WaiterOnOneList(s: State, k: nat, t: nat)
    requires Inv(s) && k < |s.sems| && t in s.sems[k].waiting
    ensures t in s.threads
    ensures forall c :: 0 <= c < |s.cores| ==> t !in s.cores[c].normal && t !in s.cores[c].idle
    ensures forall j :: 0 <= j < |s.sems| && j != k ==> t !in s.sems[j].waiting
  {
    assert SemOk(s, k);
    NotOnQueue(s, t);
    forall j | 0 <= j < |s.sems| && j != k
      ensures t !in s.sems[j].waiting
    {
      assert SemOk(s, j);
    }
  }

  // A list of nodes is that of the threads.
  ghost predicate Lists(nodes: map<nat, Node>, q: seq<Node>, ts: seq<nat>) {
    |q| == |ts| && forall i :: 0 <= i < |q| ==> ts[i] in nodes && q[i] == nodes[ts[i]]
  }

  lemma {:induction false} ListsMember(nodes: map<nat, Node>, q: seq<Node>, ts: seq<nat>, t: nat)
    requires Lists(nodes, q, ts) && Proper(nodes) && t in nodes
    ensures nodes[t] in q <==> t in ts
  {
    if t in ts {
      var i :| 0 <= i < |ts| && ts[i] == t;
      assert q[i] == nodes[t];
    }
    if nodes[t] in q {
      var i :| 0 <= i < |q| && q[i] == nodes[t];
      assert nodes[ts[i]].thread == ts[i] && nodes[t].thread == t;
    }
  }

  // Every node says whose it is.
  ghost predicate Proper(nodes: map<nat, Node>) {
    forall t :: t in nodes ==> nodes[t].thread == t
  }

  // The threads' nodes have the threads' criteria.
  ghost predicate Criteria(nodes: map<nat, Node>, s: State) {
    forall t :: t in s.threads ==>
                  t in nodes && nodes[t].cpu == s.threads[t].cpu && nodes[t].normal == (s.threads[t].rank == NORMAL)
  }

  // A step of the transition system that moves thread t, or changes wait list k.
  datatype Change = Change(before: State, after: State, t: nat, k: nat)

  // The step changes no queue, and no wait list but k.
  ghost predicate ListStep(change: Change) {
    var s, s' := change.before, change.after;
    && change.k < |s.sems| == |s'.sems| && |s'.cores| == |s.cores|
    && (forall d :: 0 <= d < |s.cores| ==> s'.cores[d].normal == s.cores[d].normal && s'.cores[d].idle == s.cores[d].idle)
    && (forall j :: 0 <= j < |s.sems| && j != change.k ==> s'.sems[j].waiting == s.sems[j].waiting)
  }

  lemma {:induction false} Enlists(s: State, c: nat, nodes: map<nat, Node>)
    requires Can(s, PEnlist(c)) && Criteria(nodes, s)
    ensures var k, t, s' := s.cores[c].phase.k, s.cores[c].head, Next(s, PEnlist(c));
            ListStep(Change(s, s', t, k)) && Criteria(nodes, s') && s'.sems[k].waiting == s.sems[k].waiting + [t]
  {
  }

  lemma {:induction false} Wakes(s: State, c: nat, nodes: map<nat, Node>)
    requires Can(s, VWake(c)) && Criteria(nodes, s)
    ensures var k, s' := s.cores[c].phase.k, Next(s, VWake(c));
            && ListStep(Change(s, s', s.sems[k].waiting[0], k)) && Criteria(nodes, s')
            && s.sems[k].waiting != [] && s'.sems[k].waiting == s.sems[k].waiting[1..]
  {
  }

  // Queue q loses its first thread, as seen from core d.
  predicate TakesAt(core: Core, core': Core, d: nat, q: nat) {
    && core'.normal == (if q == 2 * d + 1 && core.normal != [] then core.normal[1..] else core.normal)
    && core'.idle == (if q == 2 * d && core.idle != [] then core.idle[1..] else core.idle)
  }

  ghost predicate TakeStep(change: Change) {
    var s, s' := change.before, change.after;
    && s'.sems == s.sems && |s'.cores| == |s.cores|
    && forall d :: 0 <= d < |s.cores| ==> TakesAt(s.cores[d], s'.cores[d], d, change.k)
  }

  // Queue q has thread t in front.
  ghost predicate InFront(s: State, q: nat, t: nat) {
    && q / 2 < |s.cores|
    && (if q % 2 == 1 then s.cores[q / 2].normal != [] && s.cores[q / 2].normal[0] == t
        else s.cores[q / 2].idle != [] && s.cores[q / 2].idle[0] == t)
  }

  lemma {:induction false} TakesNormal(s: State, c: nat, why: Why, nodes: map<nat, Node>)
    requires Can(s, TakeNormal(c, why)) && Criteria(nodes, s)
    ensures var t, s' := s.cores[c].normal[0], Next(s, TakeNormal(c, why));
            InFront(s, 2 * c + 1, t) && TakeStep(Change(s, s', t, 2 * c + 1)) && Criteria(nodes, s')
  {
    var s' := Next(s, TakeNormal(c, why));
    TakesCriteria(s, TakeNormal(c, why), nodes);
    SameShape(s, TakeNormal(c, why));
    forall d | 0 <= d < |s.cores|
      ensures TakesAt(s.cores[d], s'.cores[d], d, 2 * c + 1)
    {
    }
  }

  lemma {:induction false} TakesIdle(s: State, c: nat, nodes: map<nat, Node>)
    requires Can(s, TakeIdle(c)) && Criteria(nodes, s)
    ensures var t, s' := s.cores[c].idle[0], Next(s, TakeIdle(c));
            InFront(s, 2 * c, t) && TakeStep(Change(s, s', t, 2 * c)) && Criteria(nodes, s')
  {
    var t, s' := s.cores[c].idle[0], Next(s, TakeIdle(c));
    TakesCriteria(s, TakeIdle(c), nodes);
    forall d | 0 <= d < |s.cores|
      ensures TakesAt(s.cores[d], s'.cores[d], d, 2 * c)
    {
    }
  }

  lemma {:induction false} TakesCriteria(s: State, a: Action, nodes: map<nat, Node>)
    requires Can(s, a) && !a.Create? && Criteria(nodes, s)
    ensures Criteria(nodes, Next(s, a))
  {
    SameKeys(s, a);
    forall t | t in Next(s, a).threads
      ensures t in nodes && nodes[t].cpu == Next(s, a).threads[t].cpu
      ensures nodes[t].normal == (Next(s, a).threads[t].rank == NORMAL)
    {
      SameCriterion(s, a, t);
    }
  }

  predicate AppendsAt(core: Core, core': Core, d: nat, t: nat, th: Thread) {
    && core'.normal == core.normal + (if d == th.cpu && th.rank == NORMAL then [t] else [])
    && core'.idle == core.idle + (if d == th.cpu && th.rank == IDLE then [t] else [])
  }

  // The step puts t at the end of its own ready queue.
  ghost predicate Appends(s: State, s': State, t: nat) {
    && t in s.threads && s'.sems == s.sems && |s'.cores| == |s.cores|
    && forall d :: 0 <= d < |s.cores| ==> AppendsAt(s.cores[d], s'.cores[d], d, t, s.threads[t])
  }

  lemma {:induction false} InsertAppends(s: State, c: nat, ph: Phase, t: nat, nodes: map<nat, Node>)
    requires c < |s.cores| && t in s.threads && s.threads[t].cpu < |s.cores| && Criteria(nodes, s)
    ensures Appends(s, Insert(SetPhase(s, c, ph), t), t) && Criteria(nodes, Insert(SetPhase(s, c, ph), t))
  {
  }

  // The nodes of the idle threads of n cores, and no others.
  ghost predicate IdleNodes(nodes: map<nat, Node>, n: nat) {
    && Proper(nodes)
    && (forall t: nat :: t in nodes <==> t < n)
    && (forall t: nat :: t < n ==> nodes[t].cpu == t && !nodes[t].normal)
  }

  // The initial state with the idle threads of the first i cores inserted.
  ghost function Booted(i: nat, n: nat, values: seq<nat>): State {
    Initial(n, values).(cores := seq(n, c requires 0 <= c < n =>
      Core(0, Booting, None, None, [], if c < i then [c] else [], [], [])))
  }

  lemma {:induction false} BootedCore(i: nat, n: nat, values: seq<nat>, c: nat)
    requires c < n
    ensures Booted(i, n, values).cores[c] == Core(0, Booting, None, None, [], if c < i then [c] else [], [], [])
  {
  }

  lemma {:induction false} BootedAll(n: nat, values: seq<nat>)
    ensures Booted(n, n, values) == Initial(n, values)
  {
    var s := Initial(n, values);
    forall c | 0 <= c < n
      ensures Booted(n, n, values).cores[c] == s.cores[c]
    {
      BootedCore(n, n, values, c);
      assert s.cores[c] == Core(0, Booting, None, None, [], [c], [], []);
    }
    assert Booted(n, n, values).cores == s.cores;
  }

  lemma {:induction false} BootedCriteria(i: nat, n: nat, values: seq<nat>, nodes: map<nat, Node>)
    requires IdleNodes(nodes, n)
    ensures Criteria(nodes, Booted(i, n, values))
  {
  }

  lemma {:induction false} BootedAppends(i: nat, n: nat, values: seq<nat>)
    requires i < n
    ensures Appends(Booted(i, n, values), Booted(i + 1, n, values), i)
  {
    var s, s' := Booted(i, n, values), Booted(i + 1, n, values);
    assert s.threads[i] == Thread(i, IDLE, READY, true, InQueue(i));
    forall d | 0 <= d < n
      ensures AppendsAt(s.cores[d], s'.cores[d], d, i, s.threads[i])
    {
      BootedCore(i, n, values, d);
      BootedCore(i + 1, n, values, d);
    }
  }

  lemma {:induction false} BootedUnlinked(i: nat, n: nat, values: seq<nat>)
    requires i < n
    ensures Unlinked(Booted(i, n, values), i)
    ensures forall k :: 0 <= k < |values| ==> Booted(i, n, values).sems[k].waiting == []
  {
    forall c | 0 <= c < n
      ensures i !in Booted(i, n, values).cores[c].normal && i !in Booted(i, n, values).cores[c].idle
    {
      BootedCore(i, n, values, c);
    }
  }

  class Kernel {
    const ready: Collection
    const lists: seq<FIFO>
    var nodes: map<nat, Node>

    ghost predicate ReadyMatches(s: State)
      reads *
    {
      && ready.Valid() && ready.cores == |s.cores|
      && (forall c :: 0 <= c < |s.cores| ==>
                        Lists(nodes, ready.queues[Collection.Number(c, true)].contents, s.cores[c].normal))
      && (forall c :: 0 <= c < |s.cores| ==>
                        Lists(nodes, ready.queues[Collection.Number(c, false)].contents, s.cores[c].idle))
    }

    ghost predicate ListsMatch(s: State)
      reads *
    {
      && |lists| == |s.sems|
      && (forall k, l :: 0 <= k < l < |lists| ==> lists[k] != lists[l])
      && (forall k :: 0 <= k < |lists| ==> lists[k].Valid())
      && (forall k :: 0 <= k < |lists| ==> Lists(nodes, lists[k].contents, s.sems[k].waiting))
    }

    ghost predicate Apart() {
      forall k, i :: 0 <= k < |lists| && 0 <= i < |ready.queues| ==> lists[k] != ready.queues[i]
    }

    ghost predicate Matches(s: State)
      reads *
    {
      Apart() && Proper(nodes) && Criteria(nodes, s) && ReadyMatches(s) && ListsMatch(s)
    }

    // Empty queues and lists.
    constructor (cores: nat, sems: nat)
      ensures Apart() && ready.Valid() && ready.cores == cores && |lists| == sems && nodes == map[]
      ensures fresh(ready.queues) && fresh(lists)
      ensures forall i :: 0 <= i < |ready.queues| ==> ready.queues[i].contents == []
      ensures forall k :: 0 <= k < sems ==> lists[k].Valid() && lists[k].contents == []
      ensures forall k, l :: 0 <= k < l < sems ==> lists[k] != lists[l]
    {
      var all := WaitLists(sems);
      var c := new Collection(cores);
      ready, lists, nodes := c, all, map[];
    }

    static method WaitLists(sems: nat) returns (all: seq<FIFO>)
      ensures |all| == sems && fresh(all)
      ensures forall k :: 0 <= k < sems ==> all[k].Valid() && all[k].contents == []
      ensures forall k, l :: 0 <= k < l < sems ==> all[k] != all[l]
    {
      all := [];
      for k := 0 to sems
        invariant |all| == k && fresh(all)
        invariant forall i :: 0 <= i < k ==> all[i].Valid() && all[i].contents == []
        invariant forall i, j :: 0 <= i < j < k ==> all[i] != all[j]
      {
        var q := new FIFO();
        all := all + [q];
      }
    }

    lemma {:induction false} OnReadyQueue(s: State, n: Node) returns (c: nat, t: nat)
      requires Proper(nodes) && ReadyMatches(s) && n in ready.Nodes()
      ensures c < |s.cores| && t in nodes && nodes[t] == n && t == n.thread && (t in s.cores[c].normal || t in s.cores[c].idle)
    {
      var i :| 0 <= i < |ready.queues| && n in ready.queues[i].contents;
      c := i / 2;
      assert i == Collection.Number(c, i % 2 == 1);
      var j :| 0 <= j < |ready.queues[i].contents| && ready.queues[i].contents[j] == n;
      t := if i % 2 == 1 then s.cores[c].normal[j] else s.cores[c].idle[j];
    }

    lemma {:induction false} OnWaitList(s: State, k: nat, n: Node) returns (t: nat)
      requires Proper(nodes) && ListsMatch(s) && k < |lists| && n in lists[k].contents
      ensures k < |s.sems| && t in nodes && nodes[t] == n && t == n.thread && t in s.sems[k].waiting
    {
      var j :| 0 <= j < |lists[k].contents| && lists[k].contents[j] == n;
      t := s.sems[k].waiting[j];
    }

    ghost predicate OffLists(n: Node)
      reads lists
    {
      forall k :: 0 <= k < |lists| ==> n !in lists[k].contents
    }

    // No node is both on a ready queue and on a wait list.
    ghost predicate QueuesApart()
      reads lists, ready.queues
    {
      forall k, n :: 0 <= k < |lists| && n in lists[k].contents ==> n !in ready.Nodes()
    }

    // A thread on no list has its node on none.
    lemma {:induction false} UnlinkedNode(s: State, t: nat)
      requires Matches(s) && t in nodes && Unlinked(s, t)
      ensures nodes[t] !in ready.Nodes() && OffLists(nodes[t])
    {
      if nodes[t] in ready.Nodes() {
        var c, u := OnReadyQueue(s, nodes[t]);
      }
      forall k | 0 <= k < |lists|
        ensures nodes[t] !in lists[k].contents
      {
        if nodes[t] in lists[k].contents {
          var u := OnWaitList(s, k, nodes[t]);
        }
      }
    }

    // The nodes of queues and lists differ.
    lemma {:induction false} NodesApart(s: State)
      requires Inv(s) && Matches(s)
      ensures QueuesApart()
    {
      forall k, n | 0 <= k < |lists| && n in lists[k].contents
        ensures n !in ready.Nodes()
      {
        var t := OnWaitList(s, k, n);
        WaiterOnOneList(s, k, t);
        if n in ready.Nodes() {
          var c, u := OnReadyQueue(s, n);
        }
      }
    }

    // The wait lists and the links of their nodes are left alone.
    twostate predicate ListsUntouched()
      reads *
    {
      && (forall k :: 0 <= k < |lists| ==> Untouched(lists[k]))
    }

    static twostate predicate Untouched(q: FIFO)
      reads q, q.contents
    {
      && q.head == old(q.head) && q.tail == old(q.tail) && q.contents == old(q.contents)
      && forall n :: n in q.contents ==> n.next == old(n.next)
    }

    // Wait lists whose nodes are left alone stay as they are.
    twostate lemma {:induction false} ListsLeftAlone(change: Change)
      requires old(ListsMatch(change.before)) && nodes == old(nodes) && ListsUntouched()
      requires change.after.sems == change.before.sems
      ensures ListsMatch(change.after)
    {
      forall k | 0 <= k < |lists|
        ensures lists[k].Valid()
      {
        assert old(lists[k].Valid()) && Untouched(lists[k]);
        lists[k].LeftAlone();
      }
    }

    // The node of t has gone to the end of its queue.
    twostate predicate NodeAppended(t: nat)
      reads *
    {
      t in nodes && |ready.queues| == 2 * ready.cores &&
      forall i :: 0 <= i < |ready.queues| ==>
                    ready.queues[i].contents == old(ready.queues[i].contents)
                                                + (if i == Collection.Number(nodes[t].cpu, nodes[t].normal) then [nodes[t]] else [])
    }

    twostate lemma {:induction false} ReadyAppended(change: Change)
      requires old(ReadyMatches(change.before)) && nodes == old(nodes) && ready.Valid() && NodeAppended(change.t)
      requires Appends(change.before, change.after, change.t) && Criteria(nodes, change.before)
      ensures ReadyMatches(change.after)
    {
      forall d | 0 <= d < |change.after.cores|
        ensures Lists(nodes, ready.queues[Collection.Number(d, true)].contents, change.after.cores[d].normal)
        ensures Lists(nodes, ready.queues[Collection.Number(d, false)].contents, change.after.cores[d].idle)
      {
        assert AppendsAt(change.before.cores[d], change.after.cores[d], d, change.t, change.before.threads[change.t]);
      }
    }

    // A node that is on no list goes on its ready queue; the wait lists stay.
    method InsertNode(t: nat)
      requires Apart() && ready.Valid() && t in nodes && nodes[t].cpu < ready.cores
      requires nodes[t] !in ready.Nodes() && OffLists(nodes[t]) && QueuesApart()
      modifies ready.queues, ready.Nodes(), nodes[t]
      ensures ready.Valid() && nodes == old(nodes) && NodeAppended(t) && ListsUntouched()
    {
      ghost var node, linked := nodes[t], ready.Nodes();
      assert forall k :: 0 <= k < |lists| ==> lists[k] !in ready.queues;
      assert forall k, n :: 0 <= k < |lists| && n in lists[k].contents ==> n !in linked && n != node;
      label before:
      LinkReady(nodes[t]);
      forall k | 0 <= k < |lists|
        ensures Untouched(lists[k])
      {
        forall n | n in lists[k].contents
          ensures n.next == old(n.next)
        {
          assert n in old@before(lists[k].contents);
        }
      }
    }

    method LinkReady(node: Node)
      requires ready.Valid() && node.cpu < ready.cores && node !in ready.Nodes()
      modifies ready.queues, ready.Nodes(), node
      ensures ready.Valid()
      ensures forall i :: 0 <= i < |ready.queues| ==>
                ready.queues[i].contents == old(ready.queues[i].contents)
                                            + (if i == Collection.Number(node.cpu, node.normal) then [node] else [])
    {
      ready.Insert(node);
    }

    twostate lemma {:induction false} Published(change: Change)
      requires old(Matches(change.before)) && nodes == old(nodes) && ready.Valid() && NodeAppended(change.t) && ListsUntouched()
      requires Appends(change.before, change.after, change.t) && Criteria(nodes, change.after)
      ensures Matches(change.after)
    {
      ReadyAppended(change);
      ListsLeftAlone(change);
    }

    // The node of t may be linked: it is on no list.
    ghost predicate MayLink(t: nat)
      reads *
    {
      t in nodes && nodes[t] !in ready.Nodes() && OffLists(nodes[t]) && QueuesApart() && ListsApart()
    }

    lemma {:induction false} UnlinkedMayLink(s: State, t: nat)
      requires Inv(s) && Matches(s) && t in s.threads && Unlinked(s, t)
      ensures MayLink(t) && nodes[t].cpu == s.threads[t].cpu
    {
      UnlinkedNode(s, t);
      NodesApart(s);
      WaitersApart(s);
    }

    // A thread that any step of the kernel puts on a ready queue may be linked.
    lemma {:induction false} MayInsert(s: State, c: nat, ph: Phase, t: nat)
      requires Reachable(s) && Matches(s) && c < |s.cores| && Inserting(s, c, ph, t)
      ensures MayLink(t) && nodes[t].cpu < ready.cores
    {
      ReachableStates(s);
      InsertedIsUnlinked(s, c, ph, t);
      UnlinkedMayLink(s, t);
      InsertingThread(s, c, ph, t);
    }

    // So may one that is about to sleep.
    lemma {:induction false} MaySleep(s: State, c: nat)
      requires Reachable(s) && Matches(s) && c < |s.cores| && s.cores[c].phase.PSleeping?
      ensures s.cores[c].phase.k < |lists| && MayLink(s.cores[c].head)
    {
      ReachableStates(s);
      SleeperIsUnlinked(s, c);
      UnlinkedMayLink(s, s.cores[c].head);
      SleepsOnList(s, c);
    }

    // Scheduler::insert on the linked queues.
    method Publish(t: nat, ghost s: State, ghost next: State)
      requires Matches(s) && MayLink(t) && nodes[t].cpu < ready.cores
      requires Appends(s, next, t) && Criteria(nodes, next)
      modifies ready.queues, ready.Nodes(), nodes[t]
      ensures nodes == old(nodes) && Matches(next)
    {
      InsertNode(t);
      Published(Change(s, next, t, 0));
    }

    // No node is on two wait lists.
    ghost predicate ListsApart()
      reads lists
    {
      forall k, j, n :: 0 <= k < |lists| && 0 <= j < |lists| && j != k && n in lists[k].contents ==> n !in lists[j].contents
    }

    lemma {:induction false} WaitersApart(s: State)
      requires Inv(s) && Matches(s)
      ensures ListsApart()
    {
      forall k, j, n | 0 <= k < |lists| && 0 <= j < |lists| && j != k && n in lists[k].contents
        ensures n !in lists[j].contents
      {
        var t := OnWaitList(s, k, n);
        WaiterOnOneList(s, k, t);
        if n in lists[j].contents {
          var u := OnWaitList(s, j, n);
        }
      }
    }

    // The ready queues and the wait lists other than k are left alone.
    twostate predicate OnlyList(k: nat)
      reads *
    {
      && k < |lists| && lists[k].Valid() && ready.Valid()
      && (forall i :: 0 <= i < |ready.queues| ==> ready.queues[i].contents == old(ready.queues[i].contents))
      && (forall j :: 0 <= j < |lists| && j != k ==> Untouched(lists[j]))
    }

    // A node that is on no list goes to the end of wait list k.
    method EnlistNode(t: nat, k: nat)
      requires Apart() && ready.Valid() && t in nodes && k < |lists| && lists[k].Valid()
      requires forall i, j :: 0 <= i < j < |lists| ==> lists[i] != lists[j]
      requires nodes[t] !in ready.Nodes() && OffLists(nodes[t]) && QueuesApart() && ListsApart()
      modifies lists[k], lists[k].contents, nodes[t]
      ensures nodes == old(nodes) && OnlyList(k)
      ensures lists[k].contents == old(lists[k].contents) + [nodes[t]]
    {
      ghost var node := nodes[t];
      lists[k].Insert(nodes[t]);
      forall j | 0 <= j < |lists| && j != k
        ensures Untouched(lists[j])
      {
        assert lists[j] != lists[k];
        forall n | n in lists[j].contents
          ensures n.next == old(n.next)
        {
          assert n in old(lists[j].contents) && n !in old(lists[k].contents) && n != node;
        }
      }
    }

    // Only wait list k has changed, to that of the new state.
    twostate lemma {:induction false} ListChanged(change: Change)
      requires old(Matches(change.before)) && nodes == old(nodes) && OnlyList(change.k)
      requires Criteria(nodes, change.after) && ListStep(change)
      requires Lists(nodes, lists[change.k].contents, change.after.sems[change.k].waiting)
      ensures Matches(change.after)
    {
      forall j | 0 <= j < |lists| && j != change.k
        ensures lists[j].Valid()
      {
        assert old(lists[j].Valid()) && Untouched(lists[j]);
        lists[j].LeftAlone();
      }
      assert ReadyMatches(change.after) by {
        assert old(ReadyMatches(change.before));
      }
    }

    // The list operation of Thread::sleep.
    method Enlist(t: nat, k: nat, ghost s: State, ghost next: State)
      requires Matches(s) && k < |lists| && MayLink(t)
      requires ListStep(Change(s, next, t, k)) && Criteria(nodes, next)
      requires next.sems[k].waiting == s.sems[k].waiting + [t]
      modifies lists[k], lists[k].contents, nodes[t]
      ensures nodes == old(nodes) && Matches(next)
    {
      EnlistNode(t, k);
      ListChanged(Change(s, next, t, k));
    }

    method WakeNode(k: nat) returns (node: Node?)
      requires Apart() && ready.Valid() && k < |lists| && lists[k].Valid()
      requires forall i, j :: 0 <= i < j < |lists| ==> lists[i] != lists[j]
      modifies lists[k]
      ensures nodes == old(nodes) && OnlyList(k)
      ensures old(lists[k].contents) == [] ==> node == null && lists[k].contents == []
      ensures old(lists[k].contents) != [] ==>
                node == old(lists[k].contents)[0] && lists[k].contents == old(lists[k].contents)[1..]
    {
      node := lists[k].Remove();
      forall j | 0 <= j < |lists| && j != k
        ensures Untouched(lists[j])
      {
        assert lists[j] != lists[k];
      }
    }

    // The list operation of Thread::wakeup.
    method Wake(k: nat, ghost s: State, ghost t: nat, ghost next: State) returns (node: Node?)
      requires Matches(s) && k < |lists| && s.sems[k].waiting != [] && s.sems[k].waiting[0] == t
      requires ListStep(Change(s, next, t, k)) && Criteria(nodes, next)
      requires next.sems[k].waiting == s.sems[k].waiting[1..]
      modifies lists[k]
      ensures nodes == old(nodes) && Matches(next)
      ensures t in nodes && node == nodes[t]
    {
      node := WakeNode(k);
      ListChanged(Change(s, next, t, k));
    }

    // ---- Initialisation ----

    lemma {:induction false} StartMatches(n: nat, values: seq<nat>)
      requires Apart() && ready.Valid() && ready.cores == n && |lists| == |values| && IdleNodes(nodes, n)
      requires forall i :: 0 <= i < |ready.queues| ==> ready.queues[i].contents == []
      requires forall k :: 0 <= k < |lists| ==> lists[k].Valid() && lists[k].contents == []
      requires forall k, l :: 0 <= k < l < |lists| ==> lists[k] != lists[l]
      ensures Matches(Booted(0, n, values))
    {
      BootedCriteria(0, n, values, nodes);
      forall c | 0 <= c < n
        ensures Booted(0, n, values).cores[c].normal == [] && Booted(0, n, values).cores[c].idle == []
      {
        BootedCore(0, n, values, c);
      }
    }

    lemma {:induction false} MayBoot(i: nat, n: nat, values: seq<nat>)
      requires i < n && IdleNodes(nodes, n) && Matches(Booted(i, n, values))
      ensures MayLink(i)
    {
      var s := Booted(i, n, values);
      BootedUnlinked(i, n, values);
      assert i in nodes;
      UnlinkedNode(s, i);
      forall k | 0 <= k < |lists|
        ensures lists[k].contents == []
      {
        assert Lists(nodes, lists[k].contents, s.sems[k].waiting);
      }
    }

    method BootThread(i: nat, ghost n: nat, ghost values: seq<nat>)
      requires i < n && IdleNodes(nodes, n) && Matches(Booted(i, n, values))
      modifies ready.queues, ready.Nodes(), nodes[i]
      ensures nodes == old(nodes) && Matches(Booted(i + 1, n, values))
    {
      MayBoot(i, n, values);
      BootedCriteria(i, n, values, nodes);
      BootedCriteria(i + 1, n, values, nodes);
      BootedAppends(i, n, values);
      Publish(i, Booted(i, n, values), Booted(i + 1, n, values));
    }

    lemma {:induction false} QueuedNodes(s: State)
      requires Matches(s)
      ensures ready.Nodes() <= nodes.Values
    {
      forall n | n in ready.Nodes()
        ensures n in nodes.Values
      {
        var c, t := OnReadyQueue(s, n);
      }
    }

    method BootNext(i: nat, ghost n: nat, ghost values: seq<nat>)
      requires i < n && IdleNodes(nodes, n) && Matches(Booted(i, n, values))
      modifies ready.queues, nodes.Values
      ensures nodes == old(nodes) && Matches(Booted(i + 1, n, values))
    {
      QueuedNodes(Booted(i, n, values));
      assert nodes[i] in nodes.Values;
      BootThread(i, n, values);
    }

    method BootAll(n: nat, ghost values: seq<nat>)
      requires IdleNodes(nodes, n) && Matches(Booted(0, n, values))
      modifies ready.queues, nodes.Values
      ensures Matches(Initial(n, values))
    {
      for i := 0 to n
        invariant nodes == old(nodes) && Matches(Booted(i, n, values))
      {
        BootNext(i, n, values);
      }
      BootedAll(n, values);
    }

    // ---- Taking the next thread ----

    // Queue q has lost its first node; all else is left alone.
    twostate predicate NodeTaken(q: nat)
      reads *
    {
      && ready.Valid() && ListsUntouched()
      && (forall i :: 0 <= i < |ready.queues| && i != q ==> ready.queues[i].contents == old(ready.queues[i].contents))
      && q < |ready.queues| && old(ready.queues[q].contents) != []
      && ready.queues[q].contents == old(ready.queues[q].contents)[1..]
    }

    twostate lemma {:induction false} Taken(change: Change)
      requires old(Matches(change.before)) && nodes == old(nodes) && NodeTaken(change.k)
      requires Criteria(nodes, change.after) && TakeStep(change)
      ensures Matches(change.after)
    {
      ListsLeftAlone(change);
      forall d | 0 <= d < |change.after.cores|
        ensures Lists(nodes, ready.queues[Collection.Number(d, true)].contents, change.after.cores[d].normal)
        ensures Lists(nodes, ready.queues[Collection.Number(d, false)].contents, change.after.cores[d].idle)
      {
        assert TakesAt(change.before.cores[d], change.after.cores[d], d, change.k);
      }
    }

    // The queue operation of Scheduler::remove: the first node of queue q.
    method TakeFrom(q: nat, ghost s: State, ghost t: nat, ghost next: State) returns (node: Node?)
      requires Matches(s) && q < |ready.queues| && InFront(s, q, t)
      requires TakeStep(Change(s, next, t, q)) && Criteria(nodes, next)
      modifies ready.queues[q]
      ensures nodes == old(nodes) && Matches(next) && t in nodes && node == nodes[t]
    {
      assert q == Collection.Number(q / 2, q % 2 == 1);
      node := TakeNode(q);
      Taken(Change(s, next, t, q));
    }

    method TakeNode(q: nat) returns (node: Node?)
      requires Apart() && ready.Valid() && q < |ready.queues| && ready.queues[q].contents != []
      modifies ready.queues[q]
      ensures nodes == old(nodes) && NodeTaken(q) && node == old(ready.queues[q].contents)[0]
    {
      node := ready.Take(q);
      forall k | 0 <= k < |lists|
        ensures Untouched(lists[k])
      {
        assert lists[k] != ready.queues[q];
      }
    }
  }

  // ---- Which steps move threads between lists ----

  // The steps that insert into a ready queue.
  predicate Insertion(s: State, a: Action)
    requires Refs(s) && Enabled(s, a)
  {
    a.Publish? || a.VPublish? || (a.Epilogue? && s.threads[s.cores[a.c].previous.value].status == READY)
  }

  // The thread such a step inserts, and the phase it goes on in.
  function Moved(s: State, a: Action): (Phase, nat)
    requires Refs(s) && Enabled(s, a) && Insertion(s, a)
  {
    var core := s.cores[a.c];
    match a
    case Publish(_) => (if core.phase.boot then Booting else Running, core.phase.t)
    case VPublish(_) => (VUnlocking(core.phase.k), core.phase.t)
    case Epilogue(_) => (Running, core.previous.value)
  }

  // They are those of InsertAppends.
  lemma {:induction false} Insertions(s: State, a: Action)
    requires Refs(s) && Enabled(s, a) && Insertion(s, a)
    ensures var (ph, t) := Moved(s, a);
            Inserting(s, a.c, ph, t) && s.threads[t].cpu < |s.cores| && Next(s, a) == Insert(SetPhase(s, a.c, ph), t)
  {
  }

  // All other steps leave every list as it is.
  ghost predicate NothingMoves(s: State, s': State) {
    && |s'.cores| == |s.cores| && |s'.sems| == |s.sems|
    && (forall d :: 0 <= d < |s.cores| ==> s'.cores[d].normal == s.cores[d].normal && s'.cores[d].idle == s.cores[d].idle)
    && (forall k :: 0 <= k < |s.sems| ==> s'.sems[k].waiting == s.sems[k].waiting)
  }

  lemma {:induction false} OthersMoveNothing(s: State, a: Action)
    requires Refs(s) && Enabled(s, a) && !Insertion(s, a)
    requires !a.TakeNormal? && !a.TakeIdle? && !a.PEnlist? && !a.VWake?
    ensures NothingMoves(s, Next(s, a))
  {
    if SchedulerAction(a) {
      SchedulerMovesNothing(s, a);
    } else if SwitchAction(a) {
      SwitchMovesNothing(s, a);
    } else {
      SemaphoreMovesNothing(s, a);
    }
  }

  lemma {:induction false} SchedulerMovesNothing(s: State, a: Action)
    requires Refs(s) && Enabled(s, a) && (a.Create? || a.FindNone?)
    ensures NothingMoves(s, Next(s, a))
  {
  }

  lemma {:induction false} SwitchMovesNothing(s: State, a: Action)
    requires Refs(s) && Enabled(s, a) && SwitchAction(a) && !Insertion(s, a)
    ensures NothingMoves(s, Next(s, a))
  {
  }

  lemma {:induction false} SemaphoreMovesNothing(s: State, a: Action)
    requires Refs(s) && Enabled(s, a) && SemaphoreAction(a) && !Insertion(s, a) && !a.PEnlist? && !a.VWake?
    ensures NothingMoves(s, Next(s, a))
  {
  }

  // ---- Initialisation ----

  // One idle thread a core, built and inserted in order: the initial state of the transition system.
  method Boot(n: nat, values: seq<nat>, bsp: nat) returns (kernel: Kernel)
    requires 0 < n < ANY && bsp < n
    ensures fresh(kernel) && kernel.Matches(Initial(n, values))
  {
    kernel := Prepare(n, values, bsp);
    kernel.BootAll(n, values);
  }

  // The lists still empty, the nodes built.
  method Prepare(n: nat, values: seq<nat>, bsp: nat) returns (kernel: Kernel)
    requires 0 < n < ANY && bsp < n
    ensures fresh(kernel) && fresh(kernel.ready.queues) && forall t :: t in kernel.nodes ==> fresh(kernel.nodes[t])
    ensures IdleNodes(kernel.nodes, n) && kernel.Matches(Booted(0, n, values))
  {
    kernel := new Kernel(n, |values|);
    var counter := new IdleCounter();
    var cpus := counter.BuildIdleThreads(n, bsp);
    var nodes := BuildNodes(cpus);
    kernel.nodes := nodes;
    kernel.StartMatches(n, values);
  }

  method BuildNodes(cpus: seq<nat>) returns (nodes: map<nat, Node>)
    requires forall i :: 0 <= i < |cpus| ==> cpus[i] == i
    ensures IdleNodes(nodes, |cpus|) && forall t :: t in nodes ==> fresh(nodes[t])
  {
    nodes := map[];
    for i := 0 to |cpus|
      invariant IdleNodes(nodes, i) && forall t :: t in nodes ==> fresh(nodes[t])
    {
      var node := new Node(i, cpus[i], false);
      nodes := nodes[i := node];
    }
  }
}
