// The global invariant of the dispatch protocol, and its preservation by every step.

module DispatchInvariant {
  import opened Options
  import opened Dispatch
  import opened Counting

  // The wait list the head is already on.
  function HeadList(core: Core): Option<nat> {
    match core.phase
    case Enlisted(k) => Some(k)
    case Seeking(Sleep(k)) => Some(k)
    case _ => None
  }

  predicate HoldsLock(core: Core, k: nat) {
    Target(core.phase) == Some(k) || LeftLock(core) == Some(k)
  }

  // The wait list a thread is on, whether or not a core is still on its stack.
  function ListOf(o: Owner): Option<nat> {
    match o
    case OnCore(_, list) => list
    case Leaving(_, list) => list
    case InList(k) => Some(k)
    case _ => None
  }

  // Where thread t is, seen from the thread.
  ghost predicate ThreadOk(s: State, t: nat)
    requires t in s.threads
  {
    var th := s.threads[t];
    && th.cpu < |s.cores|
    && (ListOf(th.owner).Some? ==>
          th.rank == NORMAL && ListOf(th.owner).value < |s.sems| && t in s.sems[ListOf(th.owner).value].waiting)
    && (match th.owner
        case OnCore(c, list) =>
          && c < |s.cores| && th.cpu == c && HasHead(s.cores[c]) && s.cores[c].head == t
          && list == HeadList(s.cores[c])
          && th.saved == (s.cores[c].phase.Picked? || s.cores[c].phase.Marked?)
          && (th.status == RUNNING || th.status == READY)
        case Leaving(c, list) =>
          && c < |s.cores| && th.cpu == c && Left(s.cores[c]) == Some(t) && list == LeftLock(s.cores[c])
          && th.saved == (s.cores[c].phase.Switched? || s.cores[c].phase.Retiring?)
          && (th.status == WAITING <==> list.Some?)
          && (th.status == WAITING || th.status == READY || th.status == FINISHING)
          && (s.cores[c].phase.Retiring? ==> th.status == FINISHING)
          && (th.status == FINISHING ==> th.rank == NORMAL)
        case InQueue(c) =>
          && c < |s.cores| && th.cpu == c && th.saved && th.status == READY
          && t in (if th.rank == NORMAL then s.cores[c].normal else s.cores[c].idle)
        case InList(k) => th.saved && th.status == WAITING
        case Carried(c) =>
          && c < |s.cores| && th.saved && th.status == READY && t >= |s.cores|
          && (s.cores[c].phase.Building? || s.cores[c].phase.VHolding?) && s.cores[c].phase.t == t
        case Gone => th.status == FINISHED && th.rank == NORMAL)
  }

  // Where only threads that may sleep or exit get.
  predicate MustBeNormal(phase: Phase) {
    match phase
    case PLocked(_) => true
    case PSleeping(_) => true
    case Enlisted(_) => true
    case Seeking(why) => why.Sleep? || why.Exit?
    case _ => false
  }

  // The same from a core's point of view.
  ghost predicate CoreOk(s: State, c: nat)
    requires c < |s.cores|
  {
    var core := s.cores[c];
    && CoreRefs(s, core)
    && (HasHead(core) ==> s.threads[core.head].owner == OnCore(c, HeadList(core)))
    && (Left(core).Some? ==> s.threads[Left(core).value].owner == Leaving(c, LeftLock(core)))
    && (core.phase.Building? || core.phase.VHolding? ==> s.threads[core.phase.t].owner == Carried(c))
    && (MustBeNormal(core.phase) ==> s.threads[core.head].rank == NORMAL)
    && core.phase != Seeking(Yield)
    && (core.phase.Marked? ==> core.previous == Left(core))
    && (Target(core.phase).Some? ==> s.sems[Target(core.phase).value].lock == Some(c))
    && (LeftLock(core).Some? ==> s.sems[LeftLock(core).value].lock == Some(c))
  }

  ghost predicate QueuesOk(s: State, c: nat)
    requires c < |s.cores|
  {
    var core := s.cores[c];
    && core.queued == core.taken + core.normal
    && Distinct(core.normal) && Distinct(core.idle)
    && (forall t :: t in core.normal ==> t in s.threads && s.threads[t].owner == InQueue(c) && s.threads[t].rank == NORMAL)
    && (forall t :: t in core.idle ==> t in s.threads && s.threads[t].owner == InQueue(c) && s.threads[t].rank == IDLE)
  }

  // Threads 0 to N-1 are the idle threads of cores 0 to N-1.
  ghost predicate IdleOk(s: State, c: nat)
    requires c < |s.cores|
  {
    c in s.threads && s.threads[c].rank == IDLE && s.threads[c].cpu == c
  }

  function Deficit(value: int): nat {
    if value < 0 then -value else 0
  }

  // The length of the wait list follows the counter, except inside p and v.
  predicate LengthOk(s: State, k: nat)
    requires k < |s.sems|
  {
    var sem := s.sems[k];
    match sem.lock
    case None => |sem.waiting| == Deficit(sem.value)
    case Some(c) =>
      c < |s.cores| &&
      if s.cores[c].phase == PSleeping(k) then sem.value < 0 && |sem.waiting| + 1 == Deficit(sem.value)
      else if s.cores[c].phase == VWaking(k) then sem.value <= 0 && |sem.waiting| == Deficit(sem.value) + 1
      else |sem.waiting| == Deficit(sem.value)
  }

  ghost predicate SemOk(s: State, k: nat)
    requires k < |s.sems|
  {
    var sem := s.sems[k];
    && (sem.lock.Some? ==> sem.lock.value < |s.cores| && HoldsLock(s.cores[sem.lock.value], k))
    && Distinct(sem.waiting)
    && (forall t :: t in sem.waiting ==> t in s.threads && ListOf(s.threads[t].owner) == Some(k))
    && LengthOk(s, k)
    && sem.value == sem.initial + sem.vs - sem.ps
    && sem.enlisted == sem.woken + sem.waiting
  }

  // The threads that s_count counts: those not finished, nor about to be marked finished.
  ghost function Counted(s: State): set<nat> {
    set t | t in s.threads && !Uncounted(s, s.threads[t].owner)
  }

  predicate Uncounted(s: State, o: Owner) {
    o.Gone? || (o.Leaving? && o.c < |s.cores| && s.cores[o.c].phase.Retiring?)
  }

  ghost predicate AllThreads(s: State) {
    forall t :: t in s.threads ==> ThreadOk(s, t)
  }

  ghost predicate AllCores(s: State) {
    forall c :: 0 <= c < |s.cores| ==> CoreOk(s, c)
  }

  ghost predicate AllQueues(s: State) {
    forall c :: 0 <= c < |s.cores| ==> QueuesOk(s, c)
  }

  ghost predicate AllIdle(s: State) {
    forall c :: 0 <= c < |s.cores| ==> IdleOk(s, c)
  }

  ghost predicate AllSems(s: State) {
    forall k :: 0 <= k < |s.sems| ==> SemOk(s, k)
  }

  ghost predicate Inv(s: State) {
    AllThreads(s) && AllCores(s) && AllQueues(s) && AllIdle(s) && AllSems(s) && s.count == |Counted(s)|
  }

  lemma InvRefs(s: State)
    requires Inv(s)
    ensures Refs(s)
  {
    forall c | 0 <= c < |s.cores|
      ensures CoreRefs(s, s.cores[c]) && QueueRefs(s, s.cores[c].normal) && QueueRefs(s, s.cores[c].idle)
    {
      assert CoreOk(s, c) && QueuesOk(s, c);
    }
    forall k | 0 <= k < |s.sems|
      ensures QueueRefs(s, s.sems[k].waiting)
    {
      assert SemOk(s, k);
    }
    forall t | t in s.threads
      ensures s.threads[t].cpu < |s.cores|
    {
      assert ThreadOk(s, t);
    }
  }

  // ---- Steps that put a thread on its ready queue ----

  // Core c is about to insert thread t, and goes on in phase ph.
  ghost predicate Inserting(s: State, c: nat, ph: Phase, t: nat)
    requires c < |s.cores|
  {
    t in s.threads &&
    match s.cores[c].phase
    case Building(u, boot) => t == u && ph == if boot then Booting else Running
    case VHolding(k, u) => t == u && ph == VUnlocking(k)
    case Switched => s.cores[c].previous == Some(t) && s.threads[t].status == READY && ph == Running
    case _ => false
  }

  // The effect, core by core.
  ghost predicate Inserted(s: State, s': State, c: nat, ph: Phase, t: nat)
    requires t in s.threads
  {
    var th := s.threads[t];
    && s'.threads == s.threads[t := th.(owner := InQueue(th.cpu))] && s'.sems == s.sems && s'.count == s.count
    && |s'.cores| == |s.cores|
    && forall d :: 0 <= d < |s.cores| ==> InsertedCore(s.cores[d], s'.cores[d], d, c, ph, t, th)
  }

  predicate InsertedCore(core: Core, core': Core, d: nat, c: nat, ph: Phase, t: nat, th: Thread) {
    var own := d == th.cpu && th.rank == NORMAL;
    && core'.phase == (if d == c then ph else core.phase)
    && core'.head == core.head && core'.previous == core.previous && core'.spin == core.spin
    && core'.taken == core.taken
    && core'.normal == (if own then core.normal + [t] else core.normal)
    && core'.queued == (if own then core.queued + [t] else core.queued)
    && core'.idle == (if d == th.cpu && th.rank == IDLE then core.idle + [t] else core.idle)
  }

  lemma InsertIs(s: State, c: nat, ph: Phase, t: nat)
    requires c < |s.cores| && t in s.threads && s.threads[t].cpu < |s.cores|
    ensures Inserted(s, Insert(SetPhase(s, c, ph), t), c, ph, t)
  {
  }

  lemma InsertThread(s: State, s': State, c: nat, ph: Phase, t: nat, u: nat)
    requires c < |s.cores| && Inserting(s, c, ph, t) && CoreOk(s, c) && Inserted(s, s', c, ph, t)
    requires u in s.threads && ThreadOk(s, u) && ThreadOk(s, t)
    ensures ThreadOk(s', u) && (Uncounted(s', s'.threads[u].owner) <==> Uncounted(s, s.threads[u].owner))
  {
    if u == t {
      InsertItself(s, s', c, ph, t);
    } else {
      InsertOthers(s, s', c, ph, t, u);
    }
  }

  lemma InsertItself(s: State, s': State, c: nat, ph: Phase, t: nat)
    requires c < |s.cores| && Inserting(s, c, ph, t) && CoreOk(s, c) && Inserted(s, s', c, ph, t) && ThreadOk(s, t)
    ensures ThreadOk(s', t) && (Uncounted(s', s'.threads[t].owner) <==> Uncounted(s, s.threads[t].owner))
  {
    var q := s.threads[t].cpu;
    assert InsertedCore(s.cores[q], s'.cores[q], q, c, ph, t, s.threads[t]);
  }

  lemma InsertOthers(s: State, s': State, c: nat, ph: Phase, t: nat, u: nat)
    requires c < |s.cores| && Inserting(s, c, ph, t) && CoreOk(s, c) && Inserted(s, s', c, ph, t)
    requires u != t && u in s.threads && ThreadOk(s, u)
    ensures ThreadOk(s', u) && (Uncounted(s', s'.threads[u].owner) <==> Uncounted(s, s.threads[u].owner))
  {
    assert s'.threads[u] == s.threads[u];
    var o := s.threads[u].owner;
    if o.OnCore? || o.Leaving? || o.InQueue? || o.Carried? {
      assert InsertedCore(s.cores[o.c], s'.cores[o.c], o.c, c, ph, t, s.threads[t]);
    }
  }

  lemma InsertCore(s: State, s': State, c: nat, ph: Phase, t: nat, d: nat)
    requires c < |s.cores| && Inserting(s, c, ph, t) && CoreOk(s, c) && Inserted(s, s', c, ph, t)
    requires ThreadOk(s, t) && d < |s.cores| && CoreOk(s, d)
    ensures CoreOk(s', d)
  {
    if d == c {
      InsertOwnCore(s, s', c, ph, t);
    } else {
      InsertOtherCore(s, s', c, ph, t, d);
    }
  }

  lemma InsertOwnCore(s: State, s': State, c: nat, ph: Phase, t: nat)
    requires c < |s.cores| && Inserting(s, c, ph, t) && CoreOk(s, c) && Inserted(s, s', c, ph, t) && ThreadOk(s, t)
    ensures CoreOk(s', c)
  {
    assert InsertedCore(s.cores[c], s'.cores[c], c, c, ph, t, s.threads[t]);
  }

  lemma InsertOtherCore(s: State, s': State, c: nat, ph: Phase, t: nat, d: nat)
    requires c < |s.cores| && Inserting(s, c, ph, t) && CoreOk(s, c) && Inserted(s, s', c, ph, t)
    requires ThreadOk(s, t) && d < |s.cores| && CoreOk(s, d) && d != c
    ensures CoreOk(s', d)
  {
    assert InsertedCore(s.cores[d], s'.cores[d], d, c, ph, t, s.threads[t]);
    assert s'.cores[d].phase == s.cores[d].phase;
  }

  lemma UniqueAppend(q: seq<nat>, t: nat)
    requires Distinct(q) && t !in q
    ensures Distinct(q + [t]) && forall u :: u in q + [t] <==> u in q || u == t
  {
  }

  lemma InsertQueues(s: State, s': State, c: nat, ph: Phase, t: nat, d: nat)
    requires t in s.threads && !s.threads[t].owner.InQueue? && Inserted(s, s', c, ph, t)
    requires d < |s.cores| && QueuesOk(s, d)
    ensures QueuesOk(s', d)
  {
    var core, core' := s.cores[d], s'.cores[d];
    assert InsertedCore(core, core', d, c, ph, t, s.threads[t]);
    assert t !in core.normal && t !in core.idle;
    UniqueAppend(core.normal, t);
    UniqueAppend(core.idle, t);
    assert core.queued + [t] == core.taken + (core.normal + [t]);
  }

  lemma InsertSem(s: State, s': State, c: nat, ph: Phase, t: nat, j: nat)
    requires c < |s.cores| && Inserting(s, c, ph, t) && CoreOk(s, c) && Inserted(s, s', c, ph, t)
    requires ThreadOk(s, t) && j < |s.sems| && SemOk(s, j)
    ensures SemOk(s', j)
  {
    assert ListOf(s.threads[t].owner) == None;
    if s.sems[j].lock.Some? {
      var d := s.sems[j].lock.value;
      assert InsertedCore(s.cores[d], s'.cores[d], d, c, ph, t, s.threads[t]);
    }
  }

  // ---- Storing the previous thread and its lock ----

  ghost predicate Marking(s: State, c: nat) {
    c < |s.cores| && CoreOk(s, c) && s.cores[c].phase.Picked?
  }

  lemma MarkThread(s: State, c: nat, u: nat)
    requires Marking(s, c)
    requires u in s.threads && ThreadOk(s, u)
    ensures var s' := DoMark(s, c);
            ThreadOk(s', u) && (Uncounted(s', s'.threads[u].owner) <==> Uncounted(s, s.threads[u].owner))
  {
  }

  lemma MarkCore(s: State, c: nat, d: nat)
    requires Marking(s, c)
    requires d < |s.cores| && CoreOk(s, d)
    ensures CoreOk(DoMark(s, c), d)
  {
  }

  lemma MarkQueues(s: State, c: nat, d: nat)
    requires Marking(s, c)
    requires d < |s.cores| && QueuesOk(s, d)
    ensures QueuesOk(DoMark(s, c), d)
  {
  }

  lemma MarkSem(s: State, c: nat, j: nat)
    requires Marking(s, c)
    requires j < |s.sems| && SemOk(s, j)
    ensures SemOk(DoMark(s, c), j)
  {
  }

  // ---- The context switch ----

  ghost predicate Switching(s: State, c: nat) {
    c < |s.cores| && CoreOk(s, c) && s.cores[c].phase.Marked?
  }

  lemma SwitchThread(s: State, c: nat, u: nat)
    requires Switching(s, c)
    requires u in s.threads && ThreadOk(s, u)
    ensures var s' := DoSwitch(s, c);
            ThreadOk(s', u) && (Uncounted(s', s'.threads[u].owner) <==> Uncounted(s, s.threads[u].owner))
  {
  }

  lemma SwitchCore(s: State, c: nat, d: nat)
    requires Switching(s, c)
    requires d < |s.cores| && CoreOk(s, d)
    ensures CoreOk(DoSwitch(s, c), d)
  {
  }

  lemma SwitchQueues(s: State, c: nat, d: nat)
    requires Switching(s, c)
    requires d < |s.cores| && QueuesOk(s, d)
    ensures QueuesOk(DoSwitch(s, c), d)
  {
  }

  lemma SwitchSem(s: State, c: nat, j: nat)
    requires Switching(s, c)
    requires j < |s.sems| && SemOk(s, j)
    ensures SemOk(DoSwitch(s, c), j)
  {
  }

  // ---- Finding no NORMAL thread ----

  ghost predicate SeekingNext(s: State, c: nat, why: Why) {
    c < |s.cores| && CoreOk(s, c) && why != Yield && MayAsk(s, c, why)
  }

  lemma SeekThread(s: State, c: nat, why: Why, u: nat)
    requires SeekingNext(s, c, why)
    requires u in s.threads && ThreadOk(s, u)
    ensures var s' := SetPhase(s, c, Seeking(why));
            ThreadOk(s', u) && (Uncounted(s', s'.threads[u].owner) <==> Uncounted(s, s.threads[u].owner))
  {
  }

  lemma SeekCore(s: State, c: nat, why: Why, d: nat)
    requires SeekingNext(s, c, why)
    requires d < |s.cores| && CoreOk(s, d)
    ensures CoreOk(SetPhase(s, c, Seeking(why)), d)
  {
  }

  lemma SeekQueues(s: State, c: nat, why: Why, d: nat)
    requires SeekingNext(s, c, why)
    requires d < |s.cores| && QueuesOk(s, d)
    ensures QueuesOk(SetPhase(s, c, Seeking(why)), d)
  {
  }

  lemma SeekSem(s: State, c: nat, why: Why, j: nat)
    requires SeekingNext(s, c, why)
    requires j < |s.sems| && SemOk(s, j)
    ensures SemOk(SetPhase(s, c, Seeking(why)), j)
  {
  }

  // ---- Taking a lock ----

  ghost predicate Acquiring(s: State, c: nat, k: nat, ph: Phase) {
    c < |s.cores| && CoreOk(s, c) && k < |s.sems| && s.sems[k].lock == None && s.cores[c].phase == Running
    && (ph == VLocked(k) || (ph == PLocked(k) && s.threads[s.cores[c].head].rank == NORMAL))
  }

  lemma AcquireThread(s: State, c: nat, k: nat, ph: Phase, u: nat)
    requires Acquiring(s, c, k, ph)
    requires u in s.threads && ThreadOk(s, u)
    ensures var s' := DoAcquire(s, c, k, ph);
            ThreadOk(s', u) && (Uncounted(s', s'.threads[u].owner) <==> Uncounted(s, s.threads[u].owner))
  {
  }

  lemma AcquireCore(s: State, c: nat, k: nat, ph: Phase, d: nat)
    requires Acquiring(s, c, k, ph)
    requires d < |s.cores| && CoreOk(s, d)
    ensures CoreOk(DoAcquire(s, c, k, ph), d)
  {
  }

  lemma AcquireQueues(s: State, c: nat, k: nat, ph: Phase, d: nat)
    requires Acquiring(s, c, k, ph)
    requires d < |s.cores| && QueuesOk(s, d)
    ensures QueuesOk(DoAcquire(s, c, k, ph), d)
  {
  }

  lemma AcquireSem(s: State, c: nat, k: nat, ph: Phase, j: nat)
    requires Acquiring(s, c, k, ph)
    requires j < |s.sems| && SemOk(s, j)
    ensures SemOk(DoAcquire(s, c, k, ph), j)
  {
  }

  // ---- Releasing a lock ----

  ghost predicate Releasing(s: State, c: nat, k: nat) {
    c < |s.cores| && CoreOk(s, c) && k < |s.sems| && (s.cores[c].phase == PUnlocking(k) || s.cores[c].phase == VUnlocking(k))
  }

  lemma ReleaseThread(s: State, c: nat, k: nat, u: nat)
    requires Releasing(s, c, k)
    requires u in s.threads && ThreadOk(s, u)
    ensures var s' := DoRelease(s, c, k);
            ThreadOk(s', u) && (Uncounted(s', s'.threads[u].owner) <==> Uncounted(s, s.threads[u].owner))
  {
  }

  lemma ReleaseCore(s: State, c: nat, k: nat, d: nat)
    requires Releasing(s, c, k)
    requires d < |s.cores| && CoreOk(s, d)
    ensures CoreOk(DoRelease(s, c, k), d)
  {
  }

  lemma ReleaseQueues(s: State, c: nat, k: nat, d: nat)
    requires Releasing(s, c, k)
    requires d < |s.cores| && QueuesOk(s, d)
    ensures QueuesOk(DoRelease(s, c, k), d)
  {
  }

  lemma ReleaseSem(s: State, c: nat, k: nat, j: nat)
    requires Releasing(s, c, k)
    requires j < |s.sems| && SemOk(s, j)
    ensures SemOk(DoRelease(s, c, k), j)
  {
  }

  // ---- Decrementing the counter ----

  ghost predicate Decrementing(s: State, c: nat) {
    c < |s.cores| && CoreOk(s, c) && s.cores[c].phase.PLocked?
  }

  lemma DecrementThread(s: State, c: nat, u: nat)
    requires Decrementing(s, c)
    requires u in s.threads && ThreadOk(s, u)
    ensures var s' := DoPDecrement(s, c);
            ThreadOk(s', u) && (Uncounted(s', s'.threads[u].owner) <==> Uncounted(s, s.threads[u].owner))
  {
  }

  lemma DecrementCore(s: State, c: nat, d: nat)
    requires Decrementing(s, c)
    requires d < |s.cores| && CoreOk(s, d)
    ensures CoreOk(DoPDecrement(s, c), d)
  {
  }

  lemma DecrementQueues(s: State, c: nat, d: nat)
    requires Decrementing(s, c)
    requires d < |s.cores| && QueuesOk(s, d)
    ensures QueuesOk(DoPDecrement(s, c), d)
  {
  }

  lemma DecrementSem(s: State, c: nat, j: nat)
    requires Decrementing(s, c)
    requires j < |s.sems| && SemOk(s, j)
    ensures SemOk(DoPDecrement(s, c), j)
  {
  }

  // ---- Incrementing the counter ----

  ghost predicate Incrementing(s: State, c: nat) {
    c < |s.cores| && CoreOk(s, c) && s.cores[c].phase.VLocked?
  }

  lemma IncrementThread(s: State, c: nat, u: nat)
    requires Incrementing(s, c)
    requires u in s.threads && ThreadOk(s, u)
    ensures var s' := DoVIncrement(s, c);
            ThreadOk(s', u) && (Uncounted(s', s'.threads[u].owner) <==> Uncounted(s, s.threads[u].owner))
  {
  }

  lemma IncrementCore(s: State, c: nat, d: nat)
    requires Incrementing(s, c)
    requires d < |s.cores| && CoreOk(s, d)
    ensures CoreOk(DoVIncrement(s, c), d)
  {
  }

  lemma IncrementQueues(s: State, c: nat, d: nat)
    requires Incrementing(s, c)
    requires d < |s.cores| && QueuesOk(s, d)
    ensures QueuesOk(DoVIncrement(s, c), d)
  {
  }

  lemma IncrementSem(s: State, c: nat, j: nat)
    requires Incrementing(s, c)
    requires j < |s.sems| && SemOk(s, j)
    ensures SemOk(DoVIncrement(s, c), j)
  {
  }

  // ---- The epilogue of a sleeping thread ----

  // The core's epilogue deals with a thread of that status.
  ghost predicate Parting(s: State, c: nat, status: Status)
    requires c < |s.cores| && CoreOk(s, c)
  {
    && s.cores[c].phase == Switched && ThreadOk(s, s.cores[c].previous.value)
    && s.threads[s.cores[c].previous.value].status == status
  }

  ghost predicate Unlocking(s: State, c: nat) {
    c < |s.cores| && CoreOk(s, c) && Parting(s, c, WAITING)
  }

  lemma UnlockThread(s: State, c: nat, u: nat)
    requires Unlocking(s, c)
    requires u in s.threads && ThreadOk(s, u)
    ensures var s' := DoEpilogue(s, c);
            ThreadOk(s', u) && (Uncounted(s', s'.threads[u].owner) <==> Uncounted(s, s.threads[u].owner))
  {
  }

  lemma UnlockCore(s: State, c: nat, d: nat)
    requires Unlocking(s, c)
    requires d < |s.cores| && CoreOk(s, d)
    ensures CoreOk(DoEpilogue(s, c), d)
  {
  }

  lemma UnlockQueues(s: State, c: nat, d: nat)
    requires Unlocking(s, c)
    requires d < |s.cores| && QueuesOk(s, d)
    ensures QueuesOk(DoEpilogue(s, c), d)
  {
  }

  lemma UnlockSem(s: State, c: nat, j: nat)
    requires Unlocking(s, c)
    requires j < |s.sems| && SemOk(s, j)
    ensures SemOk(DoEpilogue(s, c), j)
  {
  }

  // ---- The epilogue of an exiting thread ----

  ghost predicate Uncounting(s: State, c: nat) {
    c < |s.cores| && CoreOk(s, c) && Parting(s, c, FINISHING)
  }

  lemma UncountThread(s: State, c: nat, u: nat)
    requires Uncounting(s, c)
    requires u in s.threads && ThreadOk(s, u)
    ensures var s' := DoEpilogue(s, c);
            && ThreadOk(s', u)
            && (Uncounted(s', s'.threads[u].owner) <==> Uncounted(s, s.threads[u].owner) || u == s.cores[c].previous.value)
            && !Uncounted(s, s.threads[s.cores[c].previous.value].owner)
  {
  }

  lemma UncountCore(s: State, c: nat, d: nat)
    requires Uncounting(s, c)
    requires d < |s.cores| && CoreOk(s, d)
    ensures CoreOk(DoEpilogue(s, c), d)
  {
  }

  lemma UncountQueues(s: State, c: nat, d: nat)
    requires Uncounting(s, c)
    requires d < |s.cores| && QueuesOk(s, d)
    ensures QueuesOk(DoEpilogue(s, c), d)
  {
  }

  lemma UncountSem(s: State, c: nat, j: nat)
    requires Uncounting(s, c)
    requires j < |s.sems| && SemOk(s, j)
    ensures SemOk(DoEpilogue(s, c), j)
  {
  }

  // ---- Marking a thread finished ----

  ghost predicate RetiringThread(s: State, c: nat) {
    c < |s.cores| && CoreOk(s, c) && s.cores[c].phase == Retiring && ThreadOk(s, s.cores[c].previous.value)
  }

  lemma RetireThread(s: State, c: nat, u: nat)
    requires RetiringThread(s, c)
    requires u in s.threads && ThreadOk(s, u)
    ensures var s' := DoRetire(s, c);
            ThreadOk(s', u) && (Uncounted(s', s'.threads[u].owner) <==> Uncounted(s, s.threads[u].owner))
  {
  }

  lemma RetireCore(s: State, c: nat, d: nat)
    requires RetiringThread(s, c)
    requires d < |s.cores| && CoreOk(s, d)
    ensures CoreOk(DoRetire(s, c), d)
  {
  }

  lemma RetireQueues(s: State, c: nat, d: nat)
    requires RetiringThread(s, c)
    requires d < |s.cores| && QueuesOk(s, d)
    ensures QueuesOk(DoRetire(s, c), d)
  {
  }

  lemma RetireSem(s: State, c: nat, j: nat)
    requires RetiringThread(s, c)
    requires j < |s.sems| && SemOk(s, j)
    ensures SemOk(DoRetire(s, c), j)
  {
  }

  // ---- Joining the wait list ----

  ghost predicate Enlisting(s: State, c: nat) {
    c < |s.cores| && CoreOk(s, c) && s.cores[c].phase.PSleeping?
    && ThreadOk(s, s.cores[c].head) && SemOk(s, s.cores[c].phase.k)
  }

  lemma EnlistThread(s: State, c: nat, u: nat)
    requires Enlisting(s, c)
    requires u in s.threads && ThreadOk(s, u)
    ensures var s' := DoPEnlist(s, c);
            ThreadOk(s', u) && (Uncounted(s', s'.threads[u].owner) <==> Uncounted(s, s.threads[u].owner))
  {
  }

  lemma EnlistCore(s: State, c: nat, d: nat)
    requires Enlisting(s, c)
    requires d < |s.cores| && CoreOk(s, d)
    ensures CoreOk(DoPEnlist(s, c), d)
  {
  }

  lemma EnlistQueues(s: State, c: nat, d: nat)
    requires Enlisting(s, c)
    requires d < |s.cores| && QueuesOk(s, d)
    ensures QueuesOk(DoPEnlist(s, c), d)
  {
  }

  lemma EnlistSem(s: State, c: nat, j: nat)
    requires Enlisting(s, c)
    requires j < |s.sems| && SemOk(s, j)
    ensures SemOk(DoPEnlist(s, c), j)
  {
  }

  // ---- Taking a waiter ----

  // The first waiter's core has left its stack.
  ghost predicate Asleep(s: State, k: nat)
    requires k < |s.sems| && s.sems[k].waiting != []
  {
    var t := s.sems[k].waiting[0];
    t in s.threads && t >= |s.cores| && s.threads[t].owner == InList(k) && ThreadOk(s, t)
  }

  ghost predicate Waking(s: State, c: nat) {
    c < |s.cores| && CoreOk(s, c) && s.cores[c].phase.VWaking? && SemOk(s, s.cores[c].phase.k)
    && s.sems[s.cores[c].phase.k].waiting != [] && Asleep(s, s.cores[c].phase.k)
  }

  lemma WakeThread(s: State, c: nat, u: nat)
    requires Waking(s, c)
    requires u in s.threads && ThreadOk(s, u)
    ensures var s' := DoVWake(s, c);
            ThreadOk(s', u) && (Uncounted(s', s'.threads[u].owner) <==> Uncounted(s, s.threads[u].owner))
  {
  }

  lemma WakeCore(s: State, c: nat, d: nat)
    requires Waking(s, c)
    requires d < |s.cores| && CoreOk(s, d)
    ensures CoreOk(DoVWake(s, c), d)
  {
  }

  lemma WakeQueues(s: State, c: nat, d: nat)
    requires Waking(s, c)
    requires d < |s.cores| && QueuesOk(s, d)
    ensures QueuesOk(DoVWake(s, c), d)
  {
  }

  lemma WakeSem(s: State, c: nat, j: nat)
    requires Waking(s, c)
    requires j < |s.sems| && SemOk(s, j)
    ensures SemOk(DoVWake(s, c), j)
  {
  }

  // ---- Creating a thread ----

  ghost predicate Creating(s: State, c: nat, t: nat, cpu: nat) {
    c < |s.cores| && CoreOk(s, c) && (s.cores[c].phase == Booting || s.cores[c].phase == Running)
    && t !in s.threads && cpu < |s.cores|
  }

  lemma CreateThread(s: State, c: nat, t: nat, cpu: nat, rank: Rank, u: nat)
    requires Creating(s, c, t, cpu)
    requires u in s.threads && ThreadOk(s, u)
    ensures var s' := DoCreate(s, c, t, cpu, rank);
            ThreadOk(s', u) && (Uncounted(s', s'.threads[u].owner) <==> Uncounted(s, s.threads[u].owner))
  {
  }

  lemma CreateCore(s: State, c: nat, t: nat, cpu: nat, rank: Rank, d: nat)
    requires Creating(s, c, t, cpu)
    requires d < |s.cores| && CoreOk(s, d)
    ensures CoreOk(DoCreate(s, c, t, cpu, rank), d)
  {
  }

  lemma CreateQueues(s: State, c: nat, t: nat, cpu: nat, rank: Rank, d: nat)
    requires Creating(s, c, t, cpu)
    requires d < |s.cores| && QueuesOk(s, d)
    ensures QueuesOk(DoCreate(s, c, t, cpu, rank), d)
  {
  }

  lemma CreateSem(s: State, c: nat, t: nat, cpu: nat, rank: Rank, j: nat)
    requires Creating(s, c, t, cpu)
    requires j < |s.sems| && SemOk(s, j)
    ensures SemOk(DoCreate(s, c, t, cpu, rank), j)
  {
  }

  // ---- Taking the next thread ----

  // What replacing the head changes, the queues apart.
  ghost predicate Replaced(s: State, s': State, c: nat, why: Why, next: nat)
    requires c < |s.cores| && next in s.threads && (why != Start ==> s.cores[c].head in s.threads)
  {
    var core, lock := s.cores[c], if why.Sleep? then Some(why.k) else None;
    && s'.sems == s.sems && s'.count == s.count
    && |s'.cores| == |s.cores| && (forall d :: 0 <= d < |s.cores| && d != c ==> s'.cores[d] == s.cores[d])
    && s'.cores[c].head == next && s'.cores[c].previous == core.previous && s'.cores[c].spin == core.spin
    && s'.cores[c].phase == (if why == Start then Running else Picked(core.head, lock))
    && (forall x :: x in core.normal && x != next ==> x in s'.cores[c].normal)
    && (forall x :: x in core.idle && x != next ==> x in s'.cores[c].idle)
    && s'.threads ==
         if why == Start then s.threads[next := s.threads[next].(owner := OnCore(c, None), saved := false)]
         else s.threads[core.head := s.threads[core.head].(status := LeavingStatus(why), owner := Leaving(c, lock))]
                       [next := s.threads[next].(owner := OnCore(c, None))]
  }

  // The core asks for a thread, and next waits in one of its queues.
  ghost predicate Asking(s: State, c: nat, why: Why, next: nat) {
    && c < |s.cores| && CoreOk(s, c) && next in s.threads && s.threads[next].owner == InQueue(c) && ThreadOk(s, next)
    && (why != Start ==> HasHead(s.cores[c]) && ThreadOk(s, s.cores[c].head))
    && (MayAsk(s, c, why) || s.cores[c].phase == Seeking(why))
  }

  lemma ReplaceThread(s: State, s': State, c: nat, why: Why, next: nat, u: nat)
    requires Asking(s, c, why, next) && Replaced(s, s', c, why, next)
    requires u in s.threads && ThreadOk(s, u)
    ensures ThreadOk(s', u) && (Uncounted(s', s'.threads[u].owner) <==> Uncounted(s, s.threads[u].owner))
  {
    if u == next {
      ReplaceNext(s, s', c, why, next, u);
    } else if why != Start && u == s.cores[c].head {
      ReplaceHead(s, s', c, why, next, u);
    } else {
      ReplaceOthers(s, s', c, why, next, u);
    }
  }

  lemma ReplaceNext(s: State, s': State, c: nat, why: Why, next: nat, u: nat)
    requires Asking(s, c, why, next) && Replaced(s, s', c, why, next)
    requires u in s.threads && ThreadOk(s, u) && u == next
    ensures ThreadOk(s', u) && (Uncounted(s', s'.threads[u].owner) <==> Uncounted(s, s.threads[u].owner))
  {
  }

  lemma ReplaceHead(s: State, s': State, c: nat, why: Why, next: nat, u: nat)
    requires Asking(s, c, why, next) && Replaced(s, s', c, why, next)
    requires u in s.threads && ThreadOk(s, u) && u != next && why != Start && u == s.cores[c].head
    ensures ThreadOk(s', u) && (Uncounted(s', s'.threads[u].owner) <==> Uncounted(s, s.threads[u].owner))
  {
  }

  lemma ReplaceOthers(s: State, s': State, c: nat, why: Why, next: nat, u: nat)
    requires Asking(s, c, why, next) && Replaced(s, s', c, why, next)
    requires u in s.threads && ThreadOk(s, u) && u != next && (why == Start || u != s.cores[c].head)
    ensures ThreadOk(s', u) && (Uncounted(s', s'.threads[u].owner) <==> Uncounted(s, s.threads[u].owner))
  {
    assert s'.threads[u] == s.threads[u];
  }

  lemma ReplaceCore(s: State, s': State, c: nat, why: Why, next: nat, d: nat)
    requires Asking(s, c, why, next) && Replaced(s, s', c, why, next)
    requires d < |s.cores| && CoreOk(s, d)
    ensures CoreOk(s', d)
  {
    if d == c {
    } else {
      assert s'.cores[d] == s.cores[d];
    }
  }

  lemma ReplaceSem(s: State, s': State, c: nat, why: Why, next: nat, j: nat)
    requires Asking(s, c, why, next) && Replaced(s, s', c, why, next)
    requires j < |s.sems| && SemOk(s, j)
    ensures SemOk(s', j)
  {
  }

  lemma UniqueTail(q: seq<nat>)
    requires Distinct(q) && q != []
    ensures Distinct(q[1..]) && q[0] !in q[1..] && forall x :: x in q <==> x == q[0] || x in q[1..]
  {
    assert q == [q[0]] + q[1..];
  }

  lemma TakeIs(s: State, c: nat, why: Why)
    requires c < |s.cores| && CoreOk(s, c) && MayAsk(s, c, why) && QueuesOk(s, c) && s.cores[c].normal != []
    ensures Replaced(s, DoTakeNormal(s, c, why), c, why, s.cores[c].normal[0])
  {
    UniqueTail(s.cores[c].normal);
  }

  lemma TakeIdleIs(s: State, c: nat)
    requires c < |s.cores| && CoreOk(s, c) && s.cores[c].phase.Seeking? && QueuesOk(s, c) && s.cores[c].idle != []
    ensures Replaced(s, DoTakeIdle(s, c), c, s.cores[c].phase.why, s.cores[c].idle[0])
  {
    UniqueTail(s.cores[c].idle);
  }

  lemma TakeQueues(s: State, c: nat, why: Why, d: nat)
    requires c < |s.cores| && CoreOk(s, c) && MayAsk(s, c, why) && QueuesOk(s, c) && s.cores[c].normal != []
    requires d < |s.cores| && QueuesOk(s, d)
    ensures QueuesOk(DoTakeNormal(s, c, why), d)
  {
    var core := s.cores[c];
    UniqueTail(core.normal);
    assert core.normal == [core.normal[0]] + core.normal[1..];
    assert core.taken + core.normal == (core.taken + [core.normal[0]]) + core.normal[1..];
  }

  lemma TakeIdleQueues(s: State, c: nat, d: nat)
    requires c < |s.cores| && CoreOk(s, c) && s.cores[c].phase.Seeking? && QueuesOk(s, c) && s.cores[c].idle != []
    requires d < |s.cores| && QueuesOk(s, d)
    ensures QueuesOk(DoTakeIdle(s, c), d)
  {
    UniqueTail(s.cores[c].idle);
  }
}
